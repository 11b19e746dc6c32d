/** A startup in which no operation fails: exactly when it ends with the import,
    and what it leaves otherwise. */
module ImportQuiet {
  import opened Wrappers
  import opened FileTrees
  import opened ImportSteps
  import opened ImportTheorems
  import opened ImportOutcomes
  import opened ImportSchedules
  import opened ImportProgress

  // ----- Staging and replacement -----

  /** The merged store and settings can be copied into the profile. */
  predicate CopyableMerge(merged: Forest) {
    && (forall n | n in DATA_OBJECTS && Find(merged, n).Some? :: Copyable(Find(merged, n).value, 0))
    && (Find(merged, SETTINGS).Some? ==> Copyable(Find(merged, SETTINGS).value, 0))
  }

  lemma {:induction false} ReliableWorks(fates: seq<Fate>, n: nat)
    requires Reliable(fates)
    ensures AllWork(fates, n)
  {
    if n > 0 {
      ReliableLater(fates);
      ReliableWorks(Later(fates), n - 1);
    }
  }

  lemma QuietSwap(c: Codec, w: World, o: Live, imports: Option<Tree>, incoming: Option<Tree>)
    requires MidInstall(c, w, o) && LiveOf(w.disk) == o && Reliable(w.fates)
    requires CopyableMerge(MergedOf(c, o, imports, incoming))
    ensures var r := Swap(w, MergedOf(c, o, imports, incoming));
            r.out.Done? && Reliable(r.w.fates)
  {
    var merged := MergedOf(c, o, imports, incoming);
    ReplaceDataEffect(w, DATA_OBJECTS, merged);
    var data := ReplaceData(w, DATA_OBJECTS, merged);
    CopySettingsEffect(data.w, false, Find(merged, SETTINGS));
    RemoveSettingsEffect(CopySettings(data.w, false, Find(merged, SETTINGS)).w, true);
  }

  lemma QuietStage(c: Codec, e: Env, w: World)
    requires OnlyStaged(e, w.disk, w.disk) && Accepted(e, w.disk) && Reliable(w.fates)
    ensures Stage(c, e, w).out.Done? && Reliable(Stage(c, e, w).w.fates)
  {
    ReliableWorks(w.fates, StageCost(LiveOf(w.disk)));
    StageSchedule(c, e, w);
    StageEffect(c, e, w);
  }

  // ----- The replacement needs what it copies -----

  lemma {:induction false} ReplaceNeedsCopyable(w: World, names: seq<string>, source: Forest)
    requires ReplaceData(w, names, source).out.Done?
    ensures forall n | n in names && Find(source, n).Some? :: Copyable(Find(source, n).value, 0)
    decreases |names|
  {
    if names != [] {
      var name := names[0];
      var removed := RemoveObject(w.fates, Get(w.disk.data, name));
      CopyObjectExact(removed.fates, Find(source, name));
      ReplaceNeedsCopyable(ReplaceObject(w, name, Find(source, name)).w, names[1..], source);
      assert forall n | n in names :: n == name || n in names[1..];
    }
  }

  /** On a reliable disk the replacement finishes exactly for objects that can
      be copied. */
  lemma QuietSwapExact(c: Codec, w: World, o: Live, imports: Option<Tree>, incoming: Option<Tree>)
    requires MidInstall(c, w, o) && LiveOf(w.disk) == o && Reliable(w.fates)
    ensures var merged := MergedOf(c, o, imports, incoming);
            Swap(w, merged).out.Done? <==> CopyableMerge(merged)
  {
    var merged := MergedOf(c, o, imports, incoming);
    if CopyableMerge(merged) {
      QuietSwap(c, w, o, imports, incoming);
    } else if Swap(w, merged).out.Done? {
      var data := ReplaceData(w, DATA_OBJECTS, merged);
      ReplaceNeedsCopyable(w, DATA_OBJECTS, merged);
      CopyObjectExact(data.w.fates, Find(merged, SETTINGS));
    }
  }

  // ----- The whole startup -----

  lemma QuietCommitEnds(c: Codec, w: World, o: Live)
    requires MidInstall(c, w, o) && Intact(c, w.disk, w.manifest, o)
    requires Reliable(w.fates) && JournalRemovable(w.disk) && Removable(BackupTree(o), 0)
    ensures Commit(w).out.Done? && Commit(w).w.disk.journal.None? && LiveOf(Commit(w).w.disk) == LiveOf(w.disk)
  {
    QuietCommit(c, w, o);
    RetireLive(WriteManifest(w.(manifest := w.manifest.(state := Committed))).w);
  }

  /** The import has been rolled back, the journal says so, and the application
      does not go on. */
  predicate BackedOut(r: Ran, o: Live) {
    && r.out.Failed? && LiveOf(r.w.disk) == o
    && r.w.disk.journal.Some? && ManifestOn(r.w.disk) == Some(r.w.manifest) && r.w.manifest.state.RolledBack?
  }

  lemma QuietFinishExact(c: Codec, e: Env, w: World, o: Live, imports: Option<Tree>, incoming: Option<Tree>)
    requires MidInstall(c, w, o) && LiveOf(w.disk) == o && w.manifest.state.Installing?
    requires Find(Kids(w.disk.journal), MergedName(e)) == Some(Dir(MergedOf(c, o, imports, incoming)))
    requires Reliable(w.fates) && Intact(c, w.disk, w.manifest, o) && Bounded(c, w.disk, o, imports, incoming)
    ensures var r := Finish(e, w);
            if CopyableMerge(MergedOf(c, o, imports, incoming))
            then r.out.Done? && LiveOf(r.w.disk) == Goal(c, o, imports, incoming)
            else BackedOut(r, o)
  {
    var merged := MergedOf(c, o, imports, incoming);
    var swapped := Swap(w, merged);
    QuietSwapExact(c, w, o, imports, incoming);
    SwapEffect(c, w, o, imports, incoming);
    SwapKeepsJournal(c, w, o, imports, incoming);
    FinishCases(e, w, merged);
    if swapped.out.Done? { QuietCommitEnds(c, swapped.w, o); } else { QuietUndo(c, swapped.w, o); }
  }

  lemma QuietProceedExact(c: Codec, e: Env, d: Disk, w: World, o: Live, imports: Option<Tree>, incoming: Option<Tree>)
    requires ReadyToBegin(c, e, w, o, imports, incoming) && Reliable(w.fates)
    requires Inv(c, d, o, imports, incoming) && ManifestOn(d) == Some(PREPARED) && OnlyStaged(e, d, w.disk)
    requires Bounded(c, d, o, imports, incoming)
    ensures var r := Proceed(e, w);
            if CopyableMerge(MergedOf(c, o, imports, incoming))
            then r.out.Done? && LiveOf(r.w.disk) == Goal(c, o, imports, incoming)
            else BackedOut(r, o)
  {
    EntryNames(e);
    BeginEffect(c, e, w, o, imports, incoming);
    BeginReady(c, e, d, w, o, imports, incoming);
    var begun := Begin(e, w);
    QuietFinishExact(c, e, begun.w, o, imports, incoming);
    FinishKeeps(c, e, begun.w, o, imports, incoming);
    QuietFinish(c, e, begun.w, o, imports, incoming);
    TidyMergedKeeps(c, e, Finish(e, begun.w), o, imports, incoming);
  }

  lemma BeginReady(c: Codec, e: Env, d: Disk, w: World, o: Live, imports: Option<Tree>, incoming: Option<Tree>)
    requires ReadyToBegin(c, e, w, o, imports, incoming) && Reliable(w.fates)
    requires Inv(c, d, o, imports, incoming) && ManifestOn(d) == Some(PREPARED) && OnlyStaged(e, d, w.disk)
    requires Bounded(c, d, o, imports, incoming)
    ensures var begun := Begin(e, w);
            && begun.out.Done? && Intact(c, begun.w.disk, begun.w.manifest, o)
            && Bounded(c, begun.w.disk, o, imports, incoming)
  {
    EntryNames(e);
    WriteManifestEffect(w.(manifest := w.manifest.(state := Installing,
                                                    backup := Some(Location(TEMP, BackupName(e))),
                                                    digest := IndexDigest(w.disk))));
    JournalStaysRemovable(e, d, Begin(e, w).w.disk);
  }

  /** The installation was refused before any decision. */
  ghost predicate Untouched(c: Codec, r: Ran, o: Live, imports: Option<Tree>, incoming: Option<Tree>) {
    && r.out.Failed? && r.w.manifest == PREPARED && Reliable(r.w.fates)
    && Inv(c, r.w.disk, o, imports, incoming) && LiveOf(r.w.disk) == o && r.w.disk.journal.Some?
  }

  lemma RefusalBacksOut(c: Codec, i: Ran, o: Live, imports: Option<Tree>, incoming: Option<Tree>)
    requires Untouched(c, i, o, imports, incoming)
    ensures BackedOut(Conclude(i), o)
  {
    WriteManifestEffect(i.w.(manifest := i.w.manifest.(state := RolledBack)));
  }

  lemma QuietInstallExact(c: Codec, e: Env, w: World, o: Live, imports: Option<Tree>, incoming: Option<Tree>)
    requires CanonicalLive(o) && Inv(c, w.disk, o, imports, incoming)
    requires w.manifest == PREPARED && ManifestOn(w.disk) == Some(PREPARED)
    requires Bounded(c, w.disk, o, imports, incoming) && Reliable(w.fates)
    ensures var r := Install(c, e, w);
            if !(Fresh(e, w.disk) && Accepted(e, w.disk))
            then Untouched(c, r, o, imports, incoming)
            else if CopyableMerge(MergedOf(c, o, imports, incoming))
            then r.out.Done? && LiveOf(r.w.disk) == Goal(c, o, imports, incoming)
            else BackedOut(r, o)
  {
    if Fresh(e, w.disk) {
      var staged := Stage(c, e, w);
      StageSchedule(c, e, w);
      StageEffect(c, e, w);
      StagedIsReady(c, e, w, o, imports, incoming);
      if Accepted(e, w.disk) {
        QuietStage(c, e, w);
        QuietProceedExact(c, e, w.disk, staged.w, o, imports, incoming);
      } else {
        QuietlyRefused(c, e, w.disk, staged, o, imports, incoming);
      }
    }
  }

  lemma QuietlyRefused(c: Codec, e: Env, d: Disk, staged: Ran, o: Live, imports: Option<Tree>, incoming: Option<Tree>)
    requires Inv(c, staged.w.disk, o, imports, incoming) && LiveOf(staged.w.disk) == o
    requires ManifestOn(staged.w.disk) == Some(PREPARED) && staged.w.manifest == PREPARED
    requires staged.out.Failed? && Reliable(staged.w.fates)
    ensures var r := TidyBackup(e, TidyMerged(e, staged));
            Untouched(c, r, o, imports, incoming)
  {
    TidyMergedKeeps(c, e, staged, o, imports, incoming);
    TidyBackupKeeps(c, e, TidyMerged(e, staged), o, imports, incoming);
  }

  /** Within the bounds, a startup without a failure ends a prepared import at
      once: with the complete import, and going on, exactly when the profile and
      the import are accepted and the merged store can be copied; otherwise with
      the original profile and a journal that says rolled back. */
  lemma QuietImportExact(c: Codec, e: Env, d: Disk, fates: seq<Fate>, o: Live, imports: Option<Tree>, incoming: Option<Tree>)
    requires CanonicalLive(o) && Inv(c, d, o, imports, incoming) && ManifestOn(d) == Some(PREPARED)
    requires Bounded(c, d, o, imports, incoming) && Reliable(fates) && !e.locked
    ensures var r := Recover(c, e, d, fates);
            if Fresh(e, d) && Accepted(e, d) && CopyableMerge(MergedOf(c, o, imports, incoming))
            then r.out.Done? && r.w.disk.journal.None? && LiveOf(r.w.disk) == Goal(c, o, imports, incoming)
            else BackedOut(r, o)
  {
    ReliableLater(fates);
    var w := World(d, Later(fates), PREPARED);
    QuietInstallExact(c, e, w, o, imports, incoming);
    GoesOnExactly(c, e, d, fates);
    var i := Install(c, e, w);
    assert Recover(c, e, d, fates) == Conclude(i);
    if !(Fresh(e, d) && Accepted(e, d)) { RefusalBacksOut(c, i, o, imports, incoming); }
  }
}
