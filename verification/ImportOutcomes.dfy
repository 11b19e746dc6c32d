/** What a startup answers: the application goes on exactly when it leaves no
    transaction behind. */
module ImportOutcomes {
  import opened Wrappers
  import opened FileTrees
  import opened ImportSteps
  import opened ImportTheorems

  /** Done means that the journal is gone, and nothing else does. */
  predicate Tells(r: Ran) {
    r.out.Done? <==> r.w.disk.journal.None?
  }

  lemma AttemptKeeps(w: World, d: Disk)
    requires w.disk.journal.Some? && d.journal.Some?
    ensures Attempt(w, d).w.disk.journal.Some?
  {
  }

  lemma ReplaceKeepsJournal(w: World, source: Forest)
    ensures ReplaceData(w, DATA_OBJECTS, source).w.disk.journal == w.disk.journal
  {
    ReplaceDataEffect(w, DATA_OBJECTS, source);
  }

  lemma ReinstateKeepsJournal(w: World, backup: Option<Tree>)
    ensures Reinstate(w, backup).w.disk.journal == w.disk.journal
  {
    var data := ReplaceData(w, DATA_OBJECTS, BackupObjects(backup));
    ReplaceKeepsJournal(w, BackupObjects(backup));
    var settings := RestoreSettings(data.w, false, Find(Kids(backup), SETTINGS));
    RestoreSettingsEffect(data.w, false, Find(Kids(backup), SETTINGS));
    RestoreSettingsEffect(settings.w, true, Find(Kids(backup), PENDING));
  }

  lemma UndoTells(w: World)
    requires w.disk.journal.Some?
    ensures Undo(w).w.disk.journal.Some? && Tells(Undo(w))
  {
    ReinstateKeepsJournal(Attempt(w, w.disk).w, BackupOf(w.disk, w.manifest));
  }

  lemma RetireTells(w: World)
    requires w.disk.journal.Some?
    ensures Tells(Retire(w))
  {
    if w.manifest.backup.None? {
      RemoveObjectExact(w.fates, w.disk.journal);
    } else if ValidLocation(w.manifest.backup.value) {
      var removed := RemoveObject(w.fates, Get(w.disk.temp, w.manifest.backup.value.name));
      RemoveObjectExact(removed.fates, w.disk.journal);
    }
  }

  lemma CommitTells(w: World)
    requires w.disk.journal.Some?
    ensures Tells(Commit(w))
  {
    var written := WriteManifest(w.(manifest := w.manifest.(state := Committed)));
    if written.out.Failed? { UndoTells(written.w); }
    if written.out.Done? { RetireTells(written.w); }
  }

  lemma SwapSparesJournal(w: World, merged: Forest)
    ensures Swap(w, merged).w.disk.journal == w.disk.journal
  {
    ReplaceKeepsJournal(w, merged);
  }

  lemma FinishTells(e: Env, w: World)
    requires w.disk.journal.Some?
    ensures Tells(Finish(e, w))
  {
    var merged := Kids(Find(Kids(w.disk.journal), MergedName(e)));
    var swapped := Swap(w, merged);
    SwapSparesJournal(w, merged);
    if swapped.out.Failed? {
      UndoTells(swapped.w);
    } else if swapped.out.Done? {
      CommitTells(swapped.w);
      assert Finish(e, w) == Commit(swapped.w);
    }
  }

  lemma TidyMergedTells(e: Env, r: Ran)
    requires Tells(r)
    ensures Tells(TidyMerged(e, r))
    ensures r.w.disk.journal.Some? ==> TidyMerged(e, r).w.disk.journal.Some?
  {
    if r.w.disk.journal.None? { assert Find(Kids(r.w.disk.journal), MergedName(e)).None?; }
  }

  /** A clean-up after an installation that was refused or not decided. */
  lemma TidyBothTells(e: Env, r: Ran)
    requires !r.out.Done? && r.w.disk.journal.Some?
    ensures var t := TidyBackup(e, TidyMerged(e, r));
            Tells(t) && t.w.disk.journal.Some?
  {
    TidyMergedTells(e, r);
  }

  lemma BuildKeepsJournal(c: Codec, e: Env, w: World, backup: Option<Tree>)
    requires w.disk.journal.Some?
    ensures BuildMerged(c, e, w, backup).w.disk.journal.Some?
  {
  }

  lemma StageKeepsJournal(c: Codec, e: Env, w: World)
    requires w.disk.journal.Some?
    ensures Stage(c, e, w).w.disk.journal.Some?
  {
    MakeBackupEffect(w, BackupName(e));
    var made := MakeBackup(w, BackupName(e));
    if e.admitted && made.out.Done? {
      var backup := made.w.disk.temp[BackupName(e)];
      var listing := Inventory(backup);
      if listing.Some? {
        var indexed := Attempt(made.w, WithEntry(made.w.disk, INDEX, File(IndexBytes(c, listing.value))));
        BuildKeepsJournal(c, e, indexed.w, Some(backup));
      }
    }
  }

  lemma ProceedTells(e: Env, w: World)
    requires w.disk.journal.Some?
    ensures Tells(Proceed(e, w))
  {
    var begun := Begin(e, w);
    if begun.out.Done? {
      FinishTells(e, begun.w);
      TidyMergedTells(e, Finish(e, begun.w));
    } else {
      TidyBothTells(e, begun);
    }
  }

  lemma InstallTells(c: Codec, e: Env, w: World)
    requires w.disk.journal.Some?
    ensures Tells(Install(c, e, w))
  {
    if Fresh(e, w.disk) {
      StageKeepsJournal(c, e, w);
      var staged := Stage(c, e, w);
      if staged.out.Done? { ProceedTells(e, staged.w); } else { TidyBothTells(e, staged); }
    }
  }

  lemma ConcludeTells(i: Ran)
    requires Tells(i)
    ensures Tells(Conclude(i))
  {
    if i.out.Failed? && i.w.manifest.state.Installing? { UndoTells(i.w); }
  }

  /** Whatever the disk, the environment and the fates: the application goes on
      after a startup exactly when no transaction is left. */
  lemma GoesOnExactly(c: Codec, e: Env, d: Disk, fates: seq<Fate>)
    ensures Recover(c, e, d, fates).out.Done? <==> Recover(c, e, d, fates).w.disk.journal.None?
  {
    if d.journal.Some? && !e.locked && Next(fates).Works? && ManifestOn(d).Some? && ManifestOn(d).value.version == 1 {
      var w := World(d, Later(fates), ManifestOn(d).value);
      match w.manifest.state
      case Installing => UndoTells(w);
      case Committed => RetireTells(w);
      case RolledBack => RetireTells(w);
      case Unknown =>
      case Prepared =>
        InstallTells(c, e, w);
        ConcludeTells(Install(c, e, w));
    }
  }

  /** Without a transaction, a startup goes on at once and touches nothing. */
  lemma NothingToDo(c: Codec, e: Env, d: Disk, fates: seq<Fate>)
    requires d.journal.None?
    ensures Recover(c, e, d, fates).out.Done? && Recover(c, e, d, fates).w.disk == d
  {
    GoesOnExactly(c, e, d, fates);
  }

  /** What a startup refuses without a change: a lock that is held, a journal
      that it cannot read, and one of another version or state. */
  predicate Refused(e: Env, d: Disk) {
    d.journal.Some?
    && (e.locked || ManifestOn(d).None? || ManifestOn(d).value.version != 1 || ManifestOn(d).value.state.Unknown?)
  }

  lemma RefusedStays(c: Codec, e: Env, d: Disk, fates: seq<Fate>)
    requires Refused(e, d)
    ensures !Recover(c, e, d, fates).out.Done? && Recover(c, e, d, fates).w.disk == d
  {
    GoesOnExactly(c, e, d, fates);
  }
}
