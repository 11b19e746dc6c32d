/** What the profile import promises over every run, and exactly which schedules
    of failures break the promise. */
module ImportSafety {
  import opened Wrappers
  import opened FileTrees
  import opened ImportSteps
  import opened ImportTheorems
  import opened ImportSchedules

  // ----- One startup -----

  predicate NothingLive(o: Live) {
    (forall n | n in DATA_OBJECTS :: n !in o.data) && o.settings.None? && o.pending.None?
  }

  /** A prepared import that nothing refuses, over a profile with data to lose. */
  predicate Importable(c: Codec, e: Env, d: Disk) {
    && ManifestOn(d) == Some(PREPARED) && !e.locked
    && Fresh(e, d) && Accepted(e, d) && IndexFits(c, LiveOf(d)) && !NothingLive(LiveOf(d))
  }

  /** Such an import, whose staging works and whose decision then fails in the
      one way that leads into the gap. */
  predicate Exposed(c: Codec, e: Env, d: Disk, fates: seq<Fate>) {
    && Importable(c, e, d)
    && Next(fates).Works? && AllWork(Later(fates), StageCost(LiveOf(d)))
    && GapFates(Skip(Later(fates), StageCost(LiveOf(d))))
  }

  lemma ConcludeKeeps(c: Codec, e: Env, i: Ran, o: Live, imports: Option<Tree>, incoming: Option<Tree>)
    requires CanonicalLive(o) && Installed(c, e, i, o, imports, incoming) && !InGap(i)
    ensures var r := Conclude(i);
            && Inv(c, r.w.disk, o, imports, incoming)
            && (r.out.Done? ==> r.w.disk.journal.None?)
  {
    if i.out.Failed? {
      if i.w.manifest.state.Installing? {
        if MidInstall(c, i.w, o) {
          UndoKeeps(c, i.w, o, imports, incoming);
        } else {
          assert Restore(i.w).w.disk == i.w.disk;
        }
      } else if i.w.manifest.state.Prepared? {
        WriteManifestEffect(i.w.(manifest := i.w.manifest.(state := RolledBack)));
      }
    }
  }

  lemma {:induction false} ReplaceNothing(w: World, names: seq<string>, source: Forest)
    requires forall n | n in names :: n !in w.disk.data && Find(source, n).None?
    ensures ReplaceData(w, names, source) == Ran(w, Done)
    decreases |names|
  {
    if names != [] {
      assert w.disk.data - {names[0]} == w.disk.data;
      ReplaceNothing(w, names[1..], source);
    }
  }

  /** With nothing live, a rollback changes the manifest at most. */
  lemma UndoNothing(w: World, o: Live)
    requires NothingLive(o) && LiveOf(w.disk) == o
    requires BackupOf(w.disk, w.manifest) == Some(BackupTree(o))
    ensures var r := Undo(w);
            && !r.out.Done?
            && (r.w.disk == w.disk
                || r.w.disk == WriteManifest(w.(fates := [], manifest := w.manifest.(state := RolledBack))).w.disk)
  {
    BackupHolds(o);
    var read := Attempt(w, w.disk);
    ReplaceNothing(read.w, DATA_OBJECTS, BackupObjects(Some(BackupTree(o))));
    if read.out.Done? && Verified(w.disk, w.manifest) {
      assert Reinstate(read.w, Some(BackupTree(o))) == Ran(read.w, Done);
    }
  }

  lemma UndoNothingKeeps(c: Codec, w: World, o: Live, imports: Option<Tree>, incoming: Option<Tree>)
    requires NothingLive(o) && LiveOf(w.disk) == o && Inv(c, w.disk, o, imports, incoming)
    requires BackupOf(w.disk, w.manifest) == Some(BackupTree(o)) && w.manifest.version == 1
    ensures !Undo(w).out.Done? && Inv(c, Undo(w).w.disk, o, imports, incoming)
  {
    UndoNothing(w, o);
    WriteManifestEffect(w.(fates := [], manifest := w.manifest.(state := RolledBack)));
  }

  lemma PreparedKeeps(c: Codec, e: Env, w: World, o: Live, imports: Option<Tree>, incoming: Option<Tree>)
    requires CanonicalLive(o) && Inv(c, w.disk, o, imports, incoming)
    requires w.manifest == PREPARED && ManifestOn(w.disk) == Some(PREPARED)
    requires GapSchedule(c, e, w.disk, w.fates) ==> NothingLive(o)
    ensures var r := Conclude(Install(c, e, w));
            && Inv(c, r.w.disk, o, imports, incoming)
            && (r.out.Done? ==> r.w.disk.journal.None?)
  {
    var i := Install(c, e, w);
    InstallKeeps(c, e, w, o, imports, incoming);
    GapScheduleExact(c, e, w, o, imports, incoming);
    if InGap(i) {
      UndoNothingKeeps(c, i.w, o, imports, incoming);
    } else {
      ConcludeKeeps(c, e, i, o, imports, incoming);
    }
  }

  /** One startup, cut short anywhere or not, keeps the invariant; it lets the
      application go on only when the transaction is gone. */
  lemma RecoverKeeps(c: Codec, e: Env, d: Disk, fates: seq<Fate>, o: Live, imports: Option<Tree>, incoming: Option<Tree>)
    requires CanonicalLive(o) && Inv(c, d, o, imports, incoming)
    requires !Exposed(c, e, d, fates)
    ensures var r := Recover(c, e, d, fates);
            && Inv(c, r.w.disk, o, imports, incoming)
            && (r.out.Done? ==> r.w.disk.journal.None?)
  {
    if d.journal.Some? && !e.locked && Next(fates).Works? && ManifestOn(d).Some? {
      var w := World(d, Later(fates), ManifestOn(d).value);
      match w.manifest.state
      case Installing => UndoKeeps(c, w, o, imports, incoming);
      case Committed => RetireKeeps(c, w, o, imports, incoming);
      case RolledBack => RetireKeeps(c, w, o, imports, incoming);
      case Prepared =>
        PreparedKeeps(c, e, w, o, imports, incoming);
      case Unknown =>
    }
  }

  // ----- Every run -----

  /** A startup and what the temporary directory has become by then. */
  datatype Startup = Startup(env: Env, fates: seq<Fate>, temp: map<string, Tree>)

  function Boot(d: Disk, s: Startup): Disk {
    d.(temp := s.temp)
  }

  function Run(c: Codec, d: Disk, startups: seq<Startup>): Disk
    decreases |startups|
  {
    if startups == [] then d
    else Run(c, Recover(c, startups[0].env, Boot(d, startups[0]), startups[0].fates).w.disk, startups[1..])
  }

  /** The temporary directory may hold anything at each startup, as long as it
      is a file tree, and no startup is exposed. */
  predicate Sound(c: Codec, d: Disk, startups: seq<Startup>)
    decreases |startups|
  {
    startups != [] ==>
      && (forall n | n in startups[0].temp :: Canonical(startups[0].temp[n]))
      && !Exposed(c, startups[0].env, Boot(d, startups[0]), startups[0].fates)
      && Sound(c, Recover(c, startups[0].env, Boot(d, startups[0]), startups[0].fates).w.disk, startups[1..])
  }

  /** Over every run of startups, each interrupted anywhere, with any tampering
      of the temporary directory in between, a profile without a transaction is
      the original or the complete import. */
  lemma {:induction false} AllOrNothing(c: Codec, d: Disk, startups: seq<Startup>, o: Live,
                                        imports: Option<Tree>, incoming: Option<Tree>)
    requires CanonicalLive(o) && Inv(c, d, o, imports, incoming)
    requires Sound(c, d, startups)
    ensures var last := Run(c, d, startups);
            && Inv(c, last, o, imports, incoming)
            && (last.journal.None? ==> LiveOf(last) in {o, Goal(c, o, imports, incoming)})
    decreases |startups|
  {
    if startups != [] {
      var s := startups[0];
      RecoverKeeps(c, s.env, Boot(d, s), s.fates, o, imports, incoming);
      AllOrNothing(c, Recover(c, s.env, Boot(d, s), s.fates).w.disk, startups[1..], o, imports, incoming);
    }
  }

  // ----- The tail of recover() in the gap -----

  lemma {:induction false} FirstUnlink(t: Tree, depth: nat)
    requires Removable(t, depth)
    ensures var r := RemoveTree([Works, Crashes], t, depth);
            && r.tree != Some(t)
            && (if r.out.Done? then r.tree.None? && r.fates == [Crashes] else r.out.Crashed? && r.tree.Some?)
    decreases t, 1
  {
    if t.Dir? && t.kids.Cons? { FirstUnlinkKids(t.kids, depth + 1); }
  }

  lemma {:induction false} FirstUnlinkKids(f: Forest, depth: nat)
    requires RemovableKids(f, depth) && f.Cons?
    ensures var r := RemoveKids([Works, Crashes], f, depth);
            && r.kids != f
            && (if r.out.Done? then r.kids.Nil? && r.fates == [Crashes] else r.out.Crashed?)
    decreases f, 0
  {
    FirstUnlink(f.tree, depth);
    if RemoveTree([Works, Crashes], f.tree, depth).out.Done? && f.rest.Cons? {
      CrashAtOnce(f.rest, depth);
    }
  }

  lemma {:induction false} CrashAtOnce(f: Forest, depth: nat)
    requires RemovableKids(f, depth) && f.Cons?
    ensures var r := RemoveKids([Crashes], f, depth);
            r.out.Crashed? && r.kids == f
    decreases f
  {
    if f.tree.Dir? && f.tree.kids.Cons? { CrashAtOnce(f.tree.kids, depth + 1); }
  }

  lemma {:induction false} FirstReplaceData(w: World, names: seq<string>, source: Forest)
    requires w.fates == [Works, Crashes]
    requires forall n | n in names :: Find(source, n) == Get(w.disk.data, n)
    requires forall n | n in names && n in w.disk.data :: Copyable(w.disk.data[n], 0)
    ensures var r := ReplaceData(w, names, source);
            if exists n :: n in names && n in w.disk.data then r.out.Crashed? && r.w.disk.data != w.disk.data
            else r == Ran(w, Done)
    decreases |names|
  {
    if names != [] {
      var name := names[0];
      if name in w.disk.data {
        CopyableIsRemovable(w.disk.data[name], 0);
        FirstUnlink(w.disk.data[name], 0);
        var r := ReplaceObject(w, name, Find(source, name));
        assert r.out.Crashed? && Get(r.w.disk.data, name) != Get(w.disk.data, name);
      } else {
        assert w.disk.data - {name} == w.disk.data;
        FirstReplaceData(w, names[1..], source);
        assert forall n | n in names :: n == name || n in names[1..];
      }
    }
  }

  lemma FirstRestoreSettings(w: World, pending: bool)
    requires w.fates == [Works, Crashes]
    requires SettingsFile(w.disk, pending).Some? ==> Copyable(SettingsFile(w.disk, pending).value, 0)
    ensures var o := SettingsFile(w.disk, pending);
            var r := RestoreSettings(w, pending, o);
            if o.Some? then r.out.Crashed? && SettingsFile(r.w.disk, pending) != o else r == Ran(w, Done)
  {
    var o := SettingsFile(w.disk, pending);
    if o.Some? {
      CopyableIsRemovable(o.value, 0);
      FirstUnlink(o.value, 0);
    }
  }

  /** A rollback of an untouched profile that dies after its first unlink. */
  lemma FirstLoss(w: World, o: Live)
    requires w.fates == [Works, Crashes]
    requires LiveOf(w.disk) == o && CopyableLive(o)
    ensures var r := Reinstate(w, Some(BackupTree(o)));
            if NothingLive(o) then r == Ran(w, Done)
            else r.out.Crashed? && LiveOf(r.w.disk) != o && r.w.disk.journal == w.disk.journal
  {
    var backup := Some(BackupTree(o));
    BackupHolds(o);
    FirstReplaceData(w, DATA_OBJECTS, BackupObjects(backup));
    ReplaceDataEffect(w, DATA_OBJECTS, BackupObjects(backup));
    var data := ReplaceData(w, DATA_OBJECTS, BackupObjects(backup));
    if data.out.Done? {
      FirstRestoreSettings(w, false);
      RestoreSettingsEffect(w, false, o.settings);
      if o.settings.None? {
        FirstRestoreSettings(w, true);
        RestoreSettingsEffect(w, true, o.pending);
      }
    }
  }

  predicate Harmless(w: World, o: Live, fates: seq<Fate>) {
    var r := Undo(w.(fates := fates));
    ManifestOn(r.w.disk) == Some(PREPARED) ==> LiveOf(r.w.disk) == o
  }

  lemma AlwaysHarmless(w: World, o: Live)
    requires NothingLive(o) && LiveOf(w.disk) == o
    requires BackupOf(w.disk, w.manifest) == Some(BackupTree(o))
    ensures forall fates :: Harmless(w, o, fates)
  {
    forall fates ensures Harmless(w, o, fates) {
      UndoNothing(w.(fates := fates), o);
    }
  }

  /** In the gap, atomicity survives every further schedule exactly when the
      backup no longer verifies or there was nothing to lose. */
  lemma GapExact(c: Codec, w: World, o: Live)
    requires CanonicalLive(o) && LiveOf(w.disk) == o && Replacing(c, w.disk, w.manifest, o)
    requires w.manifest.state.Installing? && ManifestOn(w.disk) == Some(PREPARED) && Sorted(Kids(w.disk.journal))
    ensures (forall fates :: Harmless(w, o, fates)) <==> !Verified(w.disk, w.manifest) || NothingLive(o)
  {
    if Verified(w.disk, w.manifest) {
      VerifiedBackupIsOriginal(c, w.disk, w.manifest, o);
      if NothingLive(o) {
        AlwaysHarmless(w, o);
      } else {
        GapLoses(w, o);
      }
    }
  }

  lemma GapLoses(w: World, o: Live)
    requires LiveOf(w.disk) == o && CopyableLive(o) && !NothingLive(o)
    requires ManifestOn(w.disk) == Some(PREPARED)
    requires Verified(w.disk, w.manifest) && BackupOf(w.disk, w.manifest) == Some(BackupTree(o))
    ensures !Harmless(w, o, [Works, Works, Crashes])
  {
    FirstLoss(w.(fates := [Works, Crashes]), o);
  }

  // ----- Exactly the exposed startups can lose data -----

  /** The next `n` fates are the same. */
  predicate SameFates(a: seq<Fate>, b: seq<Fate>, n: nat) {
    n == 0 || (Next(a) == Next(b) && SameFates(Later(a), Later(b), n - 1))
  }

  lemma {:induction false} SameSkip(a: seq<Fate>, b: seq<Fate>, m: nat, n: nat)
    requires SameFates(a, b, m + n)
    ensures AllWork(a, m) <==> AllWork(b, m)
    ensures SameFates(Skip(a, m), Skip(b, m), n)
  {
    if m > 0 { SameSkip(Later(a), Later(b), m - 1, n); }
  }

  lemma SameGapFates(a: seq<Fate>, b: seq<Fate>, m: nat)
    requires SameFates(a, b, m + 3)
    ensures AllWork(a, m) && GapFates(Skip(a, m)) <==> AllWork(b, m) && GapFates(Skip(b, m))
  {
    SameSkip(a, b, m, 3);
    var f, g := Skip(a, m), Skip(b, m);
    assert SameFates(Later(f), Later(g), 2) && SameFates(Later(Later(f)), Later(Later(g)), 1);
  }

  function First(fates: seq<Fate>, n: nat): seq<Fate> {
    if n == 0 then [] else [Next(fates)] + First(Later(fates), n - 1)
  }

  /** The first `n` fates as they are, then other ones. */
  function GoingOn(fates: seq<Fate>, n: nat, tail: seq<Fate>): seq<Fate> {
    First(fates, n) + tail
  }

  lemma GoingOnStep(fates: seq<Fate>, n: nat, tail: seq<Fate>)
    requires n > 0
    ensures Next(GoingOn(fates, n, tail)) == Next(fates)
    ensures Later(GoingOn(fates, n, tail)) == GoingOn(Later(fates), n - 1, tail)
  {
    assert GoingOn(fates, n, tail) == [Next(fates)] + GoingOn(Later(fates), n - 1, tail);
  }

  lemma {:induction false} GoingOnSame(fates: seq<Fate>, n: nat, tail: seq<Fate>)
    ensures SameFates(fates, GoingOn(fates, n, tail), n)
    ensures Skip(GoingOn(fates, n, tail), n) == tail
  {
    if n > 0 {
      GoingOnStep(fates, n, tail);
      GoingOnSame(Later(fates), n - 1, tail);
    } else {
      assert GoingOn(fates, n, tail) == tail;
    }
  }

  /** Reading the journal, staging, and the three operations after it. */
  function DecisionCost(o: Live): nat { StageCost(o) + 4 }

  lemma ExposedEarly(c: Codec, e: Env, d: Disk, a: seq<Fate>, b: seq<Fate>)
    requires SameFates(a, b, DecisionCost(LiveOf(d)))
    ensures Exposed(c, e, d, a) <==> Exposed(c, e, d, b)
  {
    SameGapFates(Later(a), Later(b), StageCost(LiveOf(d)));
  }

  /** Whatever happens after the first `n` operations, the disk stays one that
      leads to the original or to the complete import. */
  ghost predicate KeptWhatever(c: Codec, e: Env, d: Disk, fates: seq<Fate>, n: nat, o: Live,
                               imports: Option<Tree>, incoming: Option<Tree>) {
    forall others | SameFates(fates, others, n) :: Inv(c, Recover(c, e, d, others).w.disk, o, imports, incoming)
  }

  const LOSS := [Works, Works, Crashes]

  lemma AfterDecision(fates: seq<Fate>, o: Live)
    ensures AfterGap(Later(GoingOn(fates, DecisionCost(o), LOSS)), o) == LOSS
  {
    GoingOnStep(fates, DecisionCost(o), LOSS);
    LastThree(Later(fates), StageCost(o), LOSS);
  }

  lemma LastThree(fates: seq<Fate>, m: nat, tail: seq<Fate>)
    ensures Later(Later(Later(Skip(GoingOn(fates, m + 3, tail), m)))) == tail
  {
    var all := GoingOn(fates, m + 3, tail);
    GoingOnSame(fates, m + 3, tail);
    SplitWork(all, m, 3);
    var f := Skip(all, m);
    assert Skip(f, 3) == Skip(Later(f), 2) == Skip(Later(Later(f)), 1) == Later(Later(Later(f)));
  }

  /** An exposed startup that goes on like this leaves a journal that says that
      nothing has begun over a profile that has lost data. */
  lemma ExposedLoses(c: Codec, e: Env, d: Disk, fates: seq<Fate>, o: Live, imports: Option<Tree>, incoming: Option<Tree>)
    requires CanonicalLive(o) && Inv(c, d, o, imports, incoming)
    requires Exposed(c, e, d, fates) && AfterGap(Later(fates), o) == LOSS
    ensures var after := Recover(c, e, d, fates).w.disk;
            && ManifestOn(after) == Some(PREPARED) && LiveOf(after) != o
            && !Inv(c, after, o, imports, incoming)
  {
    var w := World(d, Later(fates), PREPARED);
    var i := Install(c, e, w);
    GapScheduleExact(c, e, w, o, imports, incoming);
    assert GapSchedule(c, e, d, w.fates);
    assert Recover(c, e, d, fates) == Undo(i.w);
    GapLoses(i.w, o);
    assert i.w.(fates := LOSS) == i.w;
  }

  /** A startup keeps the profile, however it goes on after the decision, exactly
      when it is not exposed. */
  lemma ExposedExactly(c: Codec, e: Env, d: Disk, fates: seq<Fate>, o: Live, imports: Option<Tree>, incoming: Option<Tree>)
    requires CanonicalLive(o) && Inv(c, d, o, imports, incoming)
    ensures KeptWhatever(c, e, d, fates, DecisionCost(LiveOf(d)), o, imports, incoming) <==> !Exposed(c, e, d, fates)
  {
    var n := DecisionCost(LiveOf(d));
    if Exposed(c, e, d, fates) {
      var others := GoingOn(fates, n, LOSS);
      GoingOnSame(fates, n, LOSS);
      ExposedEarly(c, e, d, fates, others);
      AfterDecision(fates, LiveOf(d));
      ExposedLoses(c, e, d, others, o, imports, incoming);
    } else {
      forall others | SameFates(fates, others, n) ensures Inv(c, Recover(c, e, d, others).w.disk, o, imports, incoming) {
        ExposedEarly(c, e, d, fates, others);
        RecoverKeeps(c, e, d, others, o, imports, incoming);
      }
    }
  }

  function Good(n: nat): seq<Fate> {
    if n == 0 then [] else [Works] + Good(n - 1)
  }

  lemma {:induction false} GoodWorks(n: nat, tail: seq<Fate>)
    ensures AllWork(Good(n) + tail, n) && Skip(Good(n) + tail, n) == tail
  {
    if n > 0 {
      assert Good(n) + tail == [Works] + (Good(n - 1) + tail);
      GoodWorks(n - 1, tail);
    } else {
      assert Good(n) + tail == tail;
    }
  }

  /** The decision and the clean-up of the backup fail, and the rollback dies
      after its first unlink. */
  function LosingSchedule(o: Live): seq<Fate> {
    [Works] + (Good(StageCost(o)) + ([Fails, Works, Fails] + LOSS))
  }

  lemma LosingIsExposed(c: Codec, e: Env, d: Disk, cost: nat)
    requires Importable(c, e, d) && cost == StageCost(LiveOf(d))
    ensures var fates := [Works] + (Good(cost) + ([Fails, Works, Fails] + LOSS));
            Exposed(c, e, d, fates) && Later(Later(Later(Skip(Later(fates), cost)))) == LOSS
  {
    var ending := [Fails, Works, Fails] + LOSS;
    var fates := [Works] + (Good(cost) + ending);
    GoodWorks(cost, ending);
    assert Later(fates) == Good(cost) + ending;
    assert Later(ending) == [Works, Fails] + LOSS && Later(Later(ending)) == [Fails] + LOSS;
    assert Later(Later(Later(ending))) == LOSS;
  }

  /** Every import that nothing refuses has such a schedule: two failures and a
      crash lose part of the profile. */
  lemma LossReachable(c: Codec, e: Env, d: Disk, o: Live, imports: Option<Tree>, incoming: Option<Tree>)
    requires CanonicalLive(o) && Inv(c, d, o, imports, incoming) && Importable(c, e, d)
    ensures var fates := LosingSchedule(o);
            var after := Recover(c, e, d, fates).w.disk;
            && Exposed(c, e, d, fates)
            && ManifestOn(after) == Some(PREPARED) && LiveOf(after) != o
  {
    LosingIsExposed(c, e, d, StageCost(o));
    ExposedLoses(c, e, d, LosingSchedule(o), o, imports, incoming);
  }
}
