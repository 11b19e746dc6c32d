/** Safety and progress of the profile import together: after any crashes and
    failures, two quiet startups end the transaction. */
module ImportLiveness {
  import opened Wrappers
  import opened Strings
  import opened FileTrees
  import opened ImportSteps
  import opened ImportTheorems
  import opened ImportOutcomes
  import opened ImportSchedules
  import opened ImportSafety
  import opened ImportProgress

  /** Sizes and depths of this import within which nothing is refused for good. */
  ghost predicate Limits(c: Codec, o: Live, imports: Option<Tree>, incoming: Option<Tree>) {
    && IndexFits(c, o)
    && Removable(BackupTree(o), 0)
    && Removable(Dir(c.store(BackupObjects(Some(BackupTree(o))), imports, "torrents.db" in o.data)), 1)
    && Removable(Dir(MergedOf(c, o, imports, incoming)), 1)
  }

  /** A journal directory that can be removed, its manifest last. */
  ghost predicate Tame(d: Disk) {
    && d.journal.Some? && d.journal.value.Dir? && Sorted(Kids(d.journal))
    && forall n :: Find(Kids(d.journal), n).Some? ==>
         Removable(Find(Kids(d.journal), n).value, 1) && !Less(MANIFEST, n)
  }

  lemma TameIsRemovable(d: Disk)
    requires Tame(d)
    ensures JournalRemovable(d)
  {
    KidsRemovable(Kids(d.journal), 1);
  }

  /** The import is over, or in the one window that stops it for good, or in a
      state that two quiet startups end. */
  ghost predicate Ending(c: Codec, d: Disk, o: Live) {
    d.journal.None? || d.journal == Some(Dir(Nil)) || (Tame(d) && Recoverable(c, d, o))
  }

  lemma TameEntry(d: Disk, name: string, t: Tree)
    requires Tame(d) && Removable(t, 1) && !Less(MANIFEST, name)
    ensures Tame(WithEntry(d, name, t))
  {
    WithEntryEffect(d, name, t);
  }

  lemma TameManifest(w: World)
    requires Tame(w.disk)
    ensures Tame(WriteManifest(w).w.disk)
  {
    LessIrreflexive(MANIFEST);
    TameEntry(w.disk, MANIFEST, File(Bytes(0, Journal(w.manifest))));
  }

  /** What a step in the middle of an installation leaves. */
  ghost predicate Continues(c: Codec, w: World, o: Live) {
    && Ending(c, w.disk, o)
    && (w.manifest.state.Installing? ==> MidInstall(c, w, o) && Intact(c, w.disk, w.manifest, o) && Tame(w.disk))
  }

  // ----- Rollback and retirement -----

  lemma StillInstalling(c: Codec, d: Disk, m: Manifest, o: Live)
    requires Tame(d) && ManifestOn(d) == Some(m.(state := Installing)) && Intact(c, d, m, o)
    ensures Ending(c, d, o)
  {
    assert Intact(c, d, m.(state := Installing), o);
  }

  lemma UndoEnds(c: Codec, w: World, o: Live, imports: Option<Tree>, incoming: Option<Tree>)
    requires MidInstall(c, w, o) && Intact(c, w.disk, w.manifest, o) && Tame(w.disk)
    requires Removable(BackupTree(o), 0)
    ensures Continues(c, Undo(w).w, o)
  {
    RestoreExact(c, w, o);
    UndoKeeps(c, w, o, imports, incoming);
    var r := Restore(w);
    if r.out.Done? {
      TameIsRemovable(w.disk);
      RolledBackEnds(c, w, o, r);
    } else {
      assert BackupOf(r.w.disk, w.manifest) == BackupOf(w.disk, w.manifest);
      assert ManifestOn(r.w.disk) == ManifestOn(w.disk);
      StillInstalling(c, r.w.disk, w.manifest, o);
    }
  }

  lemma RolledBackEnds(c: Codec, w: World, o: Live, r: Ran)
    requires MidInstall(c, w, o) && Intact(c, w.disk, w.manifest, o) && Tame(w.disk) && JournalRemovable(w.disk)
    requires Removable(BackupTree(o), 0) && Restored(w, o, r) && r.out.Done?
    ensures Tame(r.w.disk) && Recoverable(c, r.w.disk, o)
  {
    LessIrreflexive(MANIFEST);
    forall n | Find(Kids(r.w.disk.journal), n).Some?
      ensures Removable(Find(Kids(r.w.disk.journal), n).value, 1) && !Less(MANIFEST, n)
    {
      if n != MANIFEST { assert Find(Kids(w.disk.journal), n).Some?; }
    }
    TameIsRemovable(r.w.disk);
  }

  lemma {:induction false} RemovalNames(fates: seq<Fate>, f: Forest, depth: nat, name: string)
    requires Sorted(f)
    ensures Find(RemoveKids(fates, f, depth).kids, name).Some? ==> Find(f, name).Some?
    decreases f
  {
    if f.Cons? && f.name != name {
      RemovalNames(RemoveTree(fates, f.tree, depth).fates, f.rest, depth, name);
    }
  }

  lemma FinalEnds(c: Codec, d: Disk, m: Manifest, o: Live)
    requires Tame(d) && ManifestOn(d) == Some(m) && (m.state.Committed? || m.state.RolledBack?) && Retirable(d, m)
    ensures Ending(c, d, o)
  {
  }

  lemma RemovalTame(w: World)
    requires Tame(w.disk) && RetireJournal(w).w.disk.journal.Some?
    ensures Tame(RetireJournal(w).w.disk)
  {
    var d := RetireJournal(w).w.disk;
    TameIsRemovable(w.disk);
    RetireJournalKeeps(w);
    RemoveObjectExact(w.fates, w.disk.journal);
    KidsRemovable(Kids(d.journal), 1);
    forall n | Find(Kids(d.journal), n).Some? ensures Find(Kids(w.disk.journal), n).Some? {
      RemovalNames(w.fates, w.disk.journal.value.kids, 1, n);
    }
  }

  lemma RetireJournalEnds(c: Codec, w: World, o: Live)
    requires Tame(w.disk) && ManifestOn(w.disk) == Some(w.manifest) && Retirable(w.disk, w.manifest)
    requires w.manifest.state.Committed? || w.manifest.state.RolledBack?
    ensures Ending(c, RetireJournal(w).w.disk, o)
  {
    var d := RetireJournal(w).w.disk;
    OnlyEmptyWindow(w);
    if d.journal.Some? && d.journal != Some(Dir(Nil)) {
      RemovalTame(w);
      TameIsRemovable(d);
      FinalEnds(c, d, w.manifest, o);
    }
  }

  lemma RetireEnds(c: Codec, w: World, o: Live)
    requires Tame(w.disk) && ManifestOn(w.disk) == Some(w.manifest) && Retirable(w.disk, w.manifest)
    requires w.manifest.state.Committed? || w.manifest.state.RolledBack?
    ensures Ending(c, Retire(w).w.disk, o)
  {
    if w.manifest.backup.None? {
      RetireJournalEnds(c, w, o);
    } else {
      BackupRemoved(c, w, o);
    }
  }

  /** The world once the backup has been removed, or as much of it as went. */
  function WithoutBackup(w: World): Ran
    requires w.manifest.backup.Some?
  {
    var name := w.manifest.backup.value.name;
    var removed := RemoveObject(w.fates, Get(w.disk.temp, name));
    Ran(w.(disk := w.disk.(temp := Set(w.disk.temp, name, removed.tree)), fates := removed.fates), removed.out)
  }

  lemma BackupStaysRetirable(w: World)
    requires w.manifest.backup.Some? && Retirable(w.disk, w.manifest)
    ensures Retirable(WithoutBackup(w).w.disk, w.manifest)
  {
    var name := w.manifest.backup.value.name;
    RemoveObjectExact(w.fates, Get(w.disk.temp, name));
    assert Get(WithoutBackup(w).w.disk.temp, name) == RemoveObject(w.fates, Get(w.disk.temp, name)).tree;
  }

  lemma BackupRemoved(c: Codec, w: World, o: Live)
    requires Tame(w.disk) && ManifestOn(w.disk) == Some(w.manifest) && Retirable(w.disk, w.manifest)
    requires w.manifest.backup.Some? && (w.manifest.state.Committed? || w.manifest.state.RolledBack?)
    ensures Ending(c, Retire(w).w.disk, o)
  {
    var r := WithoutBackup(w);
    BackupStaysRetirable(w);
    if r.out.Done? {
      RetireJournalEnds(c, r.w, o);
    } else {
      FinalEnds(c, r.w.disk, w.manifest, o);
    }
  }

  // ----- Installation -----

  lemma BuildTame(c: Codec, e: Env, w: World, o: Live, imports: Option<Tree>, incoming: Option<Tree>)
    requires Tame(w.disk) && Limits(c, o, imports, incoming)
    requires "torrents.db" in w.disk.data <==> "torrents.db" in o.data
    requires Find(Kids(w.disk.journal), IMPORTS) == imports && Find(Kids(w.disk.journal), SETTINGS) == incoming
    ensures Tame(BuildMerged(c, e, w, Some(BackupTree(o))).w.disk)
  {
    var backup := Some(BackupTree(o));
    var name := MergedName(e);
    JournalNamesPrecede(e);
    TameEntry(w.disk, name, Dir(Nil));
    var made := Attempt(w, WithEntry(w.disk, name, Dir(Nil)));
    if made.out.Done? {
      var store := Dir(c.store(BackupObjects(backup), imports, "torrents.db" in w.disk.data));
      TameEntry(made.w.disk, name, store);
      var stored := Attempt(made.w, WithEntry(made.w.disk, name, store));
      TameEntry(stored.w.disk, name, Dir(MergedOf(c, o, imports, incoming)));
    }
  }

  lemma IndexTame(c: Codec, e: Env, w: World, o: Live, imports: Option<Tree>, incoming: Option<Tree>)
    requires Tame(w.disk) && Limits(c, o, imports, incoming) && LiveOf(w.disk) == o
    requires Find(Kids(w.disk.journal), IMPORTS) == imports && Find(Kids(w.disk.journal), SETTINGS) == incoming
    ensures Tame(IndexAndMerge(c, e, w, BackupTree(o)).w.disk)
  {
    if Inventory(BackupTree(o)).Some? {
      var index := File(IndexBytes(c, Inventory(BackupTree(o)).value));
      JournalNamesPrecede(e);
      TameEntry(w.disk, INDEX, index);
      WithEntryEffect(w.disk, INDEX, index);
      var indexed := Attempt(w, WithEntry(w.disk, INDEX, index));
      if indexed.out.Done? { BuildTame(c, e, indexed.w, o, imports, incoming); }
    }
  }

  lemma StageTame(c: Codec, e: Env, w: World, o: Live, imports: Option<Tree>, incoming: Option<Tree>)
    requires Tame(w.disk) && Limits(c, o, imports, incoming) && LiveOf(w.disk) == o
    requires Find(Kids(w.disk.journal), IMPORTS) == imports && Find(Kids(w.disk.journal), SETTINGS) == incoming
    ensures Tame(Stage(c, e, w).w.disk)
  {
    MakeBackupEffect(w, BackupName(e));
    var made := MakeBackup(w, BackupName(e));
    if e.admitted && made.out.Done? { IndexTame(c, e, made.w, o, imports, incoming); }
  }

  lemma SwapEnds(c: Codec, w: World, o: Live, imports: Option<Tree>, incoming: Option<Tree>)
    requires MidInstall(c, w, o) && LiveOf(w.disk) == o && Intact(c, w.disk, w.manifest, o) && Tame(w.disk)
    ensures var r := Swap(w, MergedOf(c, o, imports, incoming));
            MidInstall(c, r.w, o) && Intact(c, r.w.disk, r.w.manifest, o) && Tame(r.w.disk)
            && r.w.manifest == w.manifest && Ending(c, r.w.disk, o)
  {
    SwapEffect(c, w, o, imports, incoming);
    SwapKeepsJournal(c, w, o, imports, incoming);
    StillInstalling(c, Swap(w, MergedOf(c, o, imports, incoming)).w.disk, w.manifest, o);
  }

  lemma FinishEnds(c: Codec, e: Env, w: World, o: Live, imports: Option<Tree>, incoming: Option<Tree>)
    requires MidInstall(c, w, o) && LiveOf(w.disk) == o && w.manifest.state.Installing?
    requires Find(Kids(w.disk.journal), MergedName(e)) == Some(Dir(MergedOf(c, o, imports, incoming)))
    requires Intact(c, w.disk, w.manifest, o) && Tame(w.disk) && Limits(c, o, imports, incoming)
    ensures Continues(c, Finish(e, w).w, o)
  {
    var swapped := Swap(w, MergedOf(c, o, imports, incoming));
    SwapEnds(c, w, o, imports, incoming);
    FinishCases(e, w, MergedOf(c, o, imports, incoming));
    if swapped.out.Failed? {
      UndoEnds(c, swapped.w, o, imports, incoming);
    } else if swapped.out.Done? {
      CommitEnds(c, swapped.w, o, imports, incoming);
    }
  }

  /** The world with the other final state in memory. */
  function Decided(w: World): World { w.(manifest := w.manifest.(state := Committed)) }

  lemma WrittenEnds(c: Codec, w: World, o: Live, imports: Option<Tree>, incoming: Option<Tree>)
    requires MidInstall(c, w, o) && Intact(c, w.disk, w.manifest, o) && Tame(w.disk)
    requires Removable(BackupTree(o), 0)
    ensures var written := WriteManifest(Decided(w));
            && (written.out.Crashed? ==> Continues(c, written.w, o))
            && (written.out.Failed? ==> Continues(c, Undo(written.w).w, o))
            && (written.out.Done? ==> Continues(c, Retire(written.w).w, o))
  {
    var written := WriteManifest(Decided(w));
    WriteManifestEffect(Decided(w));
    if written.out.Done? {
      CommitWritten(c, w, o);
    } else {
      StillInstalling(c, w.disk, w.manifest, o);
      if written.out.Failed? { UndoDecided(c, written.w, w, o, imports, incoming); }
    }
  }

  lemma CommitEnds(c: Codec, w: World, o: Live, imports: Option<Tree>, incoming: Option<Tree>)
    requires MidInstall(c, w, o) && Intact(c, w.disk, w.manifest, o) && Tame(w.disk)
    requires Removable(BackupTree(o), 0)
    ensures Continues(c, Commit(w).w, o)
  {
    WrittenEnds(c, w, o, imports, incoming);
  }

  lemma UndoDecided(c: Codec, d: World, w: World, o: Live, imports: Option<Tree>, incoming: Option<Tree>)
    requires MidInstall(c, w, o) && Intact(c, w.disk, w.manifest, o) && Tame(w.disk)
    requires Removable(BackupTree(o), 0) && d.disk == w.disk && d.manifest == Decided(w).manifest
    ensures Continues(c, Undo(d).w, o)
  {
    assert MidInstall(c, d, o);
    UndoEnds(c, d, o, imports, incoming);
  }

  lemma CommitWritten(c: Codec, w: World, o: Live)
    requires MidInstall(c, w, o) && Intact(c, w.disk, w.manifest, o) && Tame(w.disk)
    requires Removable(BackupTree(o), 0) && WriteManifest(Decided(w)).out.Done?
    ensures Continues(c, Retire(WriteManifest(Decided(w)).w).w, o)
  {
    var written := WriteManifest(Decided(w)).w;
    WriteManifestEffect(Decided(w));
    TameManifest(Decided(w));
    TameIsRemovable(written.disk);
    assert Retirable(written.disk, written.manifest);
    RetireEnds(c, written, o);
    RetireManifest(written);
  }

  lemma RetireManifest(w: World)
    ensures Retire(w).w.manifest == w.manifest
  {
  }

  lemma TidyEnds(c: Codec, e: Env, r: Ran, o: Live, imports: Option<Tree>, incoming: Option<Tree>)
    requires Inv(c, r.w.disk, o, imports, incoming) && Continues(c, r.w, o)
    ensures Continues(c, TidyMerged(e, r).w, o)
  {
    if Find(Kids(r.w.disk.journal), MergedName(e)).Some? {
      EntryNames(e);
      TidyMergedKeeps(c, e, r, o, imports, incoming);
      var d := TidyMerged(e, r).w.disk;
      forall n | Find(Kids(d.journal), n).Some? ensures Find(Kids(d.journal), n) == Find(Kids(r.w.disk.journal), n) {
        if n == MergedName(e) { assert Find(Kids(d.journal), n) == Find(Kids(r.w.disk.journal), n); }
      }
      TidiedTame(c, r.w.disk, d, o);
    }
  }

  lemma TidiedTame(c: Codec, d: Disk, d': Disk, o: Live)
    requires Tame(d) && Recoverable(c, d, o)
    requires d'.journal.Some? && d'.journal.value.Dir? && Sorted(Kids(d'.journal))
    requires forall n | Find(Kids(d'.journal), n).Some? :: Find(Kids(d'.journal), n) == Find(Kids(d.journal), n)
    requires ManifestOn(d') == ManifestOn(d) && d'.temp == d.temp
    requires Find(Kids(d'.journal), INDEX) == Find(Kids(d.journal), INDEX)
    ensures Tame(d') && Recoverable(c, d', o)
    ensures forall m | Intact(c, d, m, o) :: Intact(c, d', m, o)
  {
    TameIsRemovable(d');
    forall m | Intact(c, d, m, o) ensures Intact(c, d', m, o) {
      assert BackupOf(d', m) == BackupOf(d, m);
    }
  }

  /** What Install hands to the tail of recover(). */
  ghost predicate Handed(c: Codec, r: Ran, o: Live) {
    && Ending(c, r.w.disk, o)
    && (r.out.Failed? && r.w.manifest.state.Prepared? ==> Tame(r.w.disk) && r.w.manifest == PREPARED)
    && (r.out.Failed? && r.w.manifest.state.Installing? ==>
          (MidInstall(c, r.w, o) && Intact(c, r.w.disk, r.w.manifest, o) && Tame(r.w.disk))
          || (ManifestOn(r.w.disk) == Some(PREPARED) && Tame(r.w.disk)))
  }

  lemma PreparedEnds(c: Codec, d: Disk, o: Live)
    requires Tame(d) && ManifestOn(d) == Some(PREPARED)
    ensures Ending(c, d, o)
  {
  }

  lemma PreparedTidy(c: Codec, e: Env, r: Ran, o: Live, imports: Option<Tree>, incoming: Option<Tree>)
    requires Inv(c, r.w.disk, o, imports, incoming) && LiveOf(r.w.disk) == o
    requires ManifestOn(r.w.disk) == Some(PREPARED) && Tame(r.w.disk)
    requires r.w.manifest.state.Prepared? ==> r.w.manifest == PREPARED
    ensures Handed(c, TidyBackup(e, TidyMerged(e, r)), o)
  {
    EntryNames(e);
    TidyMergedKeeps(c, e, r, o, imports, incoming);
    var tidied := TidyMerged(e, r);
    TidyBackupKeeps(c, e, tidied, o, imports, incoming);
    forall n | Find(Kids(tidied.w.disk.journal), n).Some?
      ensures Find(Kids(tidied.w.disk.journal), n) == Find(Kids(r.w.disk.journal), n)
    {
      if n == MergedName(e) { assert Find(Kids(tidied.w.disk.journal), n) == Find(Kids(r.w.disk.journal), n); }
    }
    var d := TidyBackup(e, tidied).w.disk;
    assert Kids(d.journal) == Kids(tidied.w.disk.journal);
    assert Tame(d);
    PreparedEnds(c, d, o);
  }

  lemma BegunEnds(c: Codec, e: Env, w: World, staged: Ran, o: Live, imports: Option<Tree>, incoming: Option<Tree>)
    requires CanonicalLive(o) && Inv(c, w.disk, o, imports, incoming)
    requires w.manifest == PREPARED && ManifestOn(w.disk) == Some(PREPARED) && Limits(c, o, imports, incoming)
    requires Staged(c, e, w, staged) && staged.out.Done? && Tame(staged.w.disk)
    ensures Handed(c, Proceed(e, staged.w), o)
  {
    EntryNames(e);
    StagedKeeps(c, e, w.disk, staged.w.disk, o, imports, incoming);
    BeginEffect(c, e, staged.w, o, imports, incoming);
    var begin := staged.w.(manifest := staged.w.manifest.(state := Installing,
                                                          backup := Some(Location(TEMP, BackupName(e))),
                                                          digest := IndexDigest(staged.w.disk)));
    WriteManifestEffect(begin);
    TameManifest(begin);
    var begun := Begin(e, staged.w);
    if begun.out.Done? {
      assert Intact(c, begun.w.disk, begun.w.manifest, o);
      FinishKeeps(c, e, begun.w, o, imports, incoming);
      FinishEnds(c, e, begun.w, o, imports, incoming);
      TidyMergedKeeps(c, e, Finish(e, begun.w), o, imports, incoming);
      TidyEnds(c, e, Finish(e, begun.w), o, imports, incoming);
    } else {
      PreparedTidy(c, e, begun, o, imports, incoming);
    }
  }

  lemma InstallEnds(c: Codec, e: Env, w: World, o: Live, imports: Option<Tree>, incoming: Option<Tree>)
    requires CanonicalLive(o) && Inv(c, w.disk, o, imports, incoming)
    requires w.manifest == PREPARED && ManifestOn(w.disk) == Some(PREPARED)
    requires Tame(w.disk) && Limits(c, o, imports, incoming)
    ensures Handed(c, Install(c, e, w), o)
  {
    PreparedEnds(c, w.disk, o);
    if Fresh(e, w.disk) {
      StageEffect(c, e, w);
      StageTame(c, e, w, o, imports, incoming);
      var staged := Stage(c, e, w);
      StagedKeeps(c, e, w.disk, staged.w.disk, o, imports, incoming);
      if staged.out.Done? {
        BegunEnds(c, e, w, staged, o, imports, incoming);
      } else {
        PreparedTidy(c, e, staged, o, imports, incoming);
      }
    }
  }

  lemma ConcludeEnds(c: Codec, i: Ran, o: Live, imports: Option<Tree>, incoming: Option<Tree>)
    requires Handed(c, i, o) && !InGap(i) && Removable(BackupTree(o), 0)
    ensures Ending(c, Conclude(i).w.disk, o)
  {
    if i.out.Failed? && i.w.manifest.state.Installing? {
      if ManifestOn(i.w.disk) == Some(PREPARED) {
        assert Restore(i.w).w.disk == i.w.disk;
      } else {
        UndoEnds(c, i.w, o, imports, incoming);
      }
    } else if i.out.Failed? && i.w.manifest.state.Prepared? {
      var w := i.w.(manifest := PREPARED.(state := RolledBack));
      WriteManifestEffect(w);
      TameManifest(w);
      TameIsRemovable(WriteManifest(w).w.disk);
    }
  }

  lemma GapEnds(c: Codec, w: World, o: Live, imports: Option<Tree>, incoming: Option<Tree>)
    requires NothingLive(o) && LiveOf(w.disk) == o && BackupOf(w.disk, w.manifest) == Some(BackupTree(o))
    requires w.manifest.version == 1 && ManifestOn(w.disk) == Some(PREPARED) && Tame(w.disk)
    requires Removable(BackupTree(o), 0)
    ensures Ending(c, Undo(w).w.disk, o)
  {
    var after := w.(fates := [], manifest := w.manifest.(state := RolledBack));
    UndoNothing(w, o);
    PreparedEnds(c, w.disk, o);
    WriteManifestEffect(after);
    TameManifest(after);
    TameIsRemovable(WriteManifest(after).w.disk);
    FinalEnds(c, WriteManifest(after).w.disk, after.manifest, o);
  }

  // ----- Every run -----

  /** A startup, cut short anywhere, leaves a transaction that is over, in the
      empty window, or still ends by itself. */
  lemma RecoverEnds(c: Codec, e: Env, d: Disk, fates: seq<Fate>, o: Live, imports: Option<Tree>, incoming: Option<Tree>)
    requires CanonicalLive(o) && Inv(c, d, o, imports, incoming) && Limits(c, o, imports, incoming)
    requires Ending(c, d, o) && !Exposed(c, e, d, fates)
    ensures Ending(c, Recover(c, e, d, fates).w.disk, o)
  {
    if d.journal.Some? && !e.locked && Next(fates).Works? && ManifestOn(d).Some? {
      if ManifestOn(d).value.state.Prepared? {
        PreparedRecovers(c, e, d, fates, o, imports, incoming);
      } else {
        DecidedRecovers(c, e, d, fates, o, imports, incoming);
      }
      RecoverCases(c, e, d, fates);
    }
  }

  lemma DecidedRecovers(c: Codec, e: Env, d: Disk, fates: seq<Fate>, o: Live, imports: Option<Tree>, incoming: Option<Tree>)
    requires CanonicalLive(o) && Inv(c, d, o, imports, incoming) && Limits(c, o, imports, incoming)
    requires Ending(c, d, o) && ManifestOn(d).Some? && d.journal.Some?
    ensures var w := World(d, Later(fates), ManifestOn(d).value);
            match w.manifest.state
            case Installing => Ending(c, Undo(w).w.disk, o)
            case Committed => Ending(c, Retire(w).w.disk, o)
            case RolledBack => Ending(c, Retire(w).w.disk, o)
            case Prepared => true
            case Unknown => true
  {
    var w := World(d, Later(fates), ManifestOn(d).value);
    match w.manifest.state
    case Installing => UndoEnds(c, w, o, imports, incoming);
    case Committed => RetireEnds(c, w, o);
    case RolledBack => RetireEnds(c, w, o);
    case Prepared =>
    case Unknown =>
  }

  lemma PreparedRecovers(c: Codec, e: Env, d: Disk, fates: seq<Fate>, o: Live,
                         imports: Option<Tree>, incoming: Option<Tree>)
    requires CanonicalLive(o) && Inv(c, d, o, imports, incoming) && Limits(c, o, imports, incoming)
    requires Tame(d) && ManifestOn(d) == Some(PREPARED)
    requires GapSchedule(c, e, d, Later(fates)) ==> NothingLive(o)
    ensures Ending(c, Conclude(Install(c, e, World(d, Later(fates), PREPARED))).w.disk, o)
  {
    var w := World(d, Later(fates), PREPARED);
    var i := Install(c, e, w);
    InstallEnds(c, e, w, o, imports, incoming);
    GapScheduleExact(c, e, w, o, imports, incoming);
    if InGap(i) {
      GapEnds(c, i.w, o, imports, incoming);
    } else {
      ConcludeEnds(c, i, o, imports, incoming);
    }
  }

  lemma RecoverCases(c: Codec, e: Env, d: Disk, fates: seq<Fate>)
    requires d.journal.Some? && !e.locked && Next(fates).Works? && ManifestOn(d).Some? && ManifestOn(d).value.version == 1
    ensures var w := World(d, Later(fates), ManifestOn(d).value);
            Recover(c, e, d, fates).w.disk == match w.manifest.state
                                              case Installing => Undo(w).w.disk
                                              case Committed => Retire(w).w.disk
                                              case RolledBack => Retire(w).w.disk
                                              case Unknown => d
                                              case Prepared => Conclude(Install(c, e, w)).w.disk
  {
  }

  /** No startup of the run is exposed. */
  predicate Spared(c: Codec, d: Disk, startups: seq<(Env, seq<Fate>)>)
    decreases |startups|
  {
    startups != [] ==>
      !Exposed(c, startups[0].0, d, startups[0].1)
      && Spared(c, Recover(c, startups[0].0, d, startups[0].1).w.disk, startups[1..])
  }

  lemma {:induction false} RunEnds(c: Codec, d: Disk, startups: seq<(Env, seq<Fate>)>, o: Live,
                                   imports: Option<Tree>, incoming: Option<Tree>)
    requires CanonicalLive(o) && Inv(c, d, o, imports, incoming) && Limits(c, o, imports, incoming)
    requires Ending(c, d, o) && Spared(c, d, startups)
    ensures Inv(c, Unattended(c, d, startups), o, imports, incoming)
    ensures Ending(c, Unattended(c, d, startups), o)
    decreases |startups|
  {
    if startups != [] {
      RecoverKeeps(c, startups[0].0, d, startups[0].1, o, imports, incoming);
      RecoverEnds(c, startups[0].0, d, startups[0].1, o, imports, incoming);
      RunEnds(c, Recover(c, startups[0].0, d, startups[0].1).w.disk, startups[1..], o, imports, incoming);
    }
  }

  /** However many startups crash or fail in whatever way, and unless the last
      one died between the last unlink and rmdir, two quiet startups leave no
      transaction, and either the original profile or the complete import. */
  lemma CrashesThenQuiet(c: Codec, d: Disk, crashes: seq<(Env, seq<Fate>)>,
                         first: (Env, seq<Fate>), second: (Env, seq<Fate>), o: Live,
                         imports: Option<Tree>, incoming: Option<Tree>)
    requires CanonicalLive(o) && Inv(c, d, o, imports, incoming) && Limits(c, o, imports, incoming)
    requires Ending(c, d, o) && Spared(c, d, crashes)
    requires Reliable(first.1) && Reliable(second.1) && !first.0.locked && !second.0.locked
    ensures var after := Unattended(c, d, crashes);
            var last := Unattended(c, after, [first, second]);
            && LiveOf(last) in {o, Goal(c, o, imports, incoming)}
            && (if after.journal == Some(Dir(Nil)) then last == after else last.journal.None?)
            && (after.journal != Some(Dir(Nil)) <==>
                Recover(c, second.0, Recover(c, first.0, after, first.1).w.disk, second.1).out.Done?)
  {
    RunEnds(c, d, crashes, o, imports, incoming);
    var after := Unattended(c, d, crashes);
    TwoUnattended(c, first, second, after);
    GoesOnExactly(c, second.0, Recover(c, first.0, after, first.1).w.disk, second.1);
    if after.journal.Some? && after.journal != Some(Dir(Nil)) {
      TameIsRemovable(after);
      TwoStartups(c, first, second, after, o, imports, incoming);
    }
  }

  /** A published import starts such a run. */
  lemma PublishedEnds(c: Codec, d: Disk, fates: seq<Fate>, order: Order, imports: Tree, chosen: map<string, string>)
    requires Removable(imports, 1)
    requires Publish(c, d, fates, order, imports, chosen).out.Done?
    ensures Ending(c, Publish(c, d, fates, order, imports, chosen).w.disk, LiveOf(d))
  {
    PublishStarts(c, d, fates, order, imports, chosen);
    PreparedJournalHolds(c, imports, chosen);
    PreparedTame(c, imports, chosen);
    PreparedEnds(c, Publish(c, d, fates, order, imports, chosen).w.disk, LiveOf(d));
  }

  lemma PreparedEntry(c: Codec, imports: Tree, chosen: map<string, string>, n: string)
    requires Find(PreparedJournal(c, imports, chosen), n).Some?
    ensures n in {IMPORTS, SETTINGS, MANIFEST}
    ensures var t := Find(PreparedJournal(c, imports, chosen), n).value;
            t == imports || t.File?
  {
    var kids := PreparedJournal(c, imports, chosen);
    var others := kids.rest;
    assert Find(kids, n) == if n == IMPORTS then Some(imports) else Find(others, n);
    assert Find(others, n) == if n == others.name then Some(others.tree) else Find(others.rest, n);
    assert others.rest.Nil? || others.rest == Cons(MANIFEST, PreparedManifest(), Nil);
  }

  lemma PreparedTame(c: Codec, imports: Tree, chosen: map<string, string>)
    requires Removable(imports, 1)
    ensures forall n | Find(PreparedJournal(c, imports, chosen), n).Some? ::
              Removable(Find(PreparedJournal(c, imports, chosen), n).value, 1) && !Less(MANIFEST, n)
  {
    forall n | Find(PreparedJournal(c, imports, chosen), n).Some?
      ensures Removable(Find(PreparedJournal(c, imports, chosen), n).value, 1) && !Less(MANIFEST, n)
    {
      PreparedEntry(c, imports, chosen, n);
      JournalNamesPrecede(Env(false, true, true, ""));
      LessIrreflexive(MANIFEST);
    }
  }
}
