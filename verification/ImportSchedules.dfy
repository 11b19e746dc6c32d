/** How many operations an installation takes, and exactly which fates of these
    operations let it begin, and which lead it into the gap between memory and
    journal. */
module ImportSchedules {
  import opened Wrappers
  import opened FileTrees
  import opened ImportSteps
  import opened ImportTheorems

  /** The next `n` operations work. */
  predicate AllWork(fates: seq<Fate>, n: nat) {
    n == 0 || (Next(fates).Works? && AllWork(Later(fates), n - 1))
  }

  /** What is in store after the next `n` operations. */
  function Skip(fates: seq<Fate>, n: nat): seq<Fate> {
    if n == 0 then fates else Skip(Later(fates), n - 1)
  }

  lemma {:induction false} SplitWork(fates: seq<Fate>, a: nat, b: nat)
    ensures Skip(fates, a + b) == Skip(Skip(fates, a), b)
    ensures AllWork(fates, a + b) <==> AllWork(fates, a) && AllWork(Skip(fates, a), b)
  {
    if a > 0 { SplitWork(Later(fates), a - 1, b); }
  }

  lemma {:induction false} ReliableSkip(fates: seq<Fate>, n: nat)
    requires Reliable(fates)
    ensures Reliable(Skip(fates, n))
  {
    if n > 0 {
      ReliableLater(fates);
      ReliableSkip(Later(fates), n - 1);
    }
  }

  /** The step finishes exactly when its checks pass and its operations work. */
  predicate Scheduled(r: Ran, checks: bool, fates: seq<Fate>, cost: nat) {
    && (r.out.Done? <==> checks && AllWork(fates, cost))
    && (r.out.Done? ==> r.w.fates == Skip(fates, cost))
  }

  lemma ScheduledInTurn(first: Ran, second: Ran, a: bool, b: bool, fates: seq<Fate>, m: nat, n: nat)
    requires Scheduled(first, a, fates, m)
    requires first.out.Done? ==> Scheduled(second, b, first.w.fates, n)
    ensures Scheduled(if first.out.Done? then second else first, a && b, fates, m + n)
  {
    SplitWork(fates, m, n);
  }

  lemma InTurn(both: Ran, first: Ran, second: Ran, a: bool, b: bool, checks: bool, fates: seq<Fate>, m: nat, n: nat)
    requires both == (if first.out.Done? then second else first) && checks == (a && b)
    requires Scheduled(first, a, fates, m)
    requires first.out.Done? ==> Scheduled(second, b, first.w.fates, n)
    ensures Scheduled(both, checks, fates, m + n)
  {
    ScheduledInTurn(first, second, a, b, fates, m, n);
  }

  // ----- Operations that a complete copy takes -----

  function CopyCost(t: Tree): nat {
    1 + if t.Dir? then KidsCost(t.kids) else 0
  }

  function KidsCost(f: Forest): nat {
    if f.Nil? then 0 else CopyCost(f.tree) + KidsCost(f.rest)
  }

  function SlotCost(o: Option<Tree>): nat {
    if o.None? then 0 else CopyCost(o.value)
  }

  predicate CopyableSlot(o: Option<Tree>) {
    o.Some? ==> Copyable(o.value, 0)
  }

  lemma {:induction false} CopyTreeSchedule(fates: seq<Fate>, t: Tree, depth: nat)
    ensures var r := CopyTree(fates, t, depth);
            && (r.out.Done? <==> Copyable(t, depth) && AllWork(fates, CopyCost(t)))
            && (r.out.Done? ==> r.fates == Skip(fates, CopyCost(t)))
    decreases t, 1
  {
    assert AllWork(fates, 1 + 0) <==> Next(fates).Works?;
    assert Skip(fates, 1 + 0) == Later(fates);
    if t.Dir? { CopyKidsSchedule(Later(fates), t.kids, depth + 1); }
  }

  lemma {:induction false} CopyKidsSchedule(fates: seq<Fate>, f: Forest, depth: nat)
    ensures var r := CopyKids(fates, f, depth);
            && (r.out.Done? <==> CopyableKids(f, depth) && AllWork(fates, KidsCost(f)))
            && (r.out.Done? ==> r.fates == Skip(fates, KidsCost(f)))
    decreases f, 0
  {
    if f.Cons? {
      SplitWork(fates, CopyCost(f.tree), KidsCost(f.rest));
      CopyTreeSchedule(fates, f.tree, depth);
      CopyKidsSchedule(CopyTree(fates, f.tree, depth).fates, f.rest, depth);
    }
  }

  lemma CopyObjectSchedule(fates: seq<Fate>, o: Option<Tree>)
    ensures var r := CopyObject(fates, o);
            && (r.out.Done? <==> CopyableSlot(o) && AllWork(fates, SlotCost(o)))
            && (r.out.Done? ==> r.fates == Skip(fates, SlotCost(o)))
  {
    if o.Some? { CopyTreeSchedule(fates, o.value, 0); }
  }

  // ----- Operations that a complete removal takes -----

  function RemoveCost(t: Tree): nat {
    1 + if t.Dir? then RemoveKidsCost(t.kids) else 0
  }

  function RemoveKidsCost(f: Forest): nat {
    if f.Nil? then 0 else RemoveCost(f.tree) + RemoveKidsCost(f.rest)
  }

  lemma {:induction false} RemoveTreeSchedule(fates: seq<Fate>, t: Tree, depth: nat)
    ensures var r := RemoveTree(fates, t, depth);
            && (r.out.Done? <==> Removable(t, depth) && AllWork(fates, RemoveCost(t)))
            && (r.out.Done? ==> r.fates == Skip(fates, RemoveCost(t)))
    decreases t, 1
  {
    if t.Dir? {
      var part := RemoveKids(fates, t.kids, depth + 1);
      RemoveKidsSchedule(fates, t.kids, depth + 1);
      SplitWork(fates, RemoveKidsCost(t.kids), 1);
      assert AllWork(part.fates, 1) <==> Next(part.fates).Works?;
      assert Skip(part.fates, 1) == Later(part.fates);
    } else {
      assert AllWork(fates, 1) <==> Next(fates).Works?;
      assert Skip(fates, 1) == Later(fates);
    }
  }

  lemma {:induction false} RemoveKidsSchedule(fates: seq<Fate>, f: Forest, depth: nat)
    ensures var r := RemoveKids(fates, f, depth);
            && (r.out.Done? <==> RemovableKids(f, depth) && AllWork(fates, RemoveKidsCost(f)))
            && (r.out.Done? ==> r.fates == Skip(fates, RemoveKidsCost(f)))
    decreases f, 0
  {
    if f.Cons? {
      SplitWork(fates, RemoveCost(f.tree), RemoveKidsCost(f.rest));
      RemoveTreeSchedule(fates, f.tree, depth);
      RemoveKidsSchedule(RemoveTree(fates, f.tree, depth).fates, f.rest, depth);
    }
  }

  function RemoveSlotCost(o: Option<Tree>): nat {
    if o.None? then 0 else RemoveCost(o.value)
  }

  predicate RemovableSlot(o: Option<Tree>) {
    o.Some? ==> Removable(o.value, 0)
  }

  lemma RemoveObjectSchedule(fates: seq<Fate>, o: Option<Tree>)
    ensures var r := RemoveObject(fates, o);
            && (r.out.Done? <==> RemovableSlot(o) && AllWork(fates, RemoveSlotCost(o)))
            && (r.out.Done? ==> r.fates == Skip(fates, RemoveSlotCost(o)))
  {
    if o.Some? { RemoveTreeSchedule(fates, o.value, 0); }
  }

  // ----- Operations that the staging takes -----

  function ObjectsCost(data: map<string, Tree>, names: seq<string>): nat {
    if names == [] then 0 else SlotCost(Get(data, names[0])) + ObjectsCost(data, names[1..])
  }

  predicate CopyableObjects(data: map<string, Tree>, names: seq<string>) {
    forall n | n in names && n in data :: Copyable(data[n], 0)
  }

  lemma {:induction false} ObjectsSchedule(w: World, dir: string, names: seq<string>)
    requires dir in w.disk.temp
    ensures var r := BackUpObjects(w, dir, names);
            && (r.out.Done? <==> CopyableObjects(w.disk.data, names) && AllWork(w.fates, ObjectsCost(w.disk.data, names)))
            && (r.out.Done? ==> r.w.fates == Skip(w.fates, ObjectsCost(w.disk.data, names)))
    decreases |names|
  {
    if names != [] {
      var o := Get(w.disk.data, names[0]);
      var copied := CopyObject(w.fates, o);
      SplitWork(w.fates, SlotCost(o), ObjectsCost(w.disk.data, names[1..]));
      CopyObjectSchedule(w.fates, o);
      assert CopyableObjects(w.disk.data, names) <==> CopyableSlot(o) && CopyableObjects(w.disk.data, names[1..]) by {
        assert forall n :: n in names <==> n == names[0] || n in names[1..];
      }
      if copied.out.Done? {
        ObjectsSchedule(w.(disk := w.disk.(temp := w.disk.temp[dir := AddObject(w.disk.temp[dir], names[0], copied.tree)]),
                           fates := copied.fates), dir, names[1..]);
      }
    }
  }

  function BackupCost(o: Live): nat {
    1 + (ObjectsCost(o.data, DATA_OBJECTS) + (SlotCost(o.settings) + SlotCost(o.pending)))
  }

  /** The copies into the new directory. */
  function FillBackup(w: World, dir: string): Ran
    requires dir in w.disk.temp
  {
    BackUpObjectsKeepsDir(w, dir, DATA_OBJECTS);
    var data := BackUpObjects(w, dir, DATA_OBJECTS);
    if data.out != Done then data else
    var settings := BackUpSettings(data.w, dir, false);
    if settings.out != Done then settings else
    BackUpSettings(settings.w, dir, true)
  }

  function BothSettings(w: World, dir: string): Ran
    requires dir in w.disk.temp
  {
    var settings := BackUpSettings(w, dir, false);
    if settings.out != Done then settings else BackUpSettings(settings.w, dir, true)
  }

  lemma FillParts(w: World, dir: string, data: Ran)
    requires dir in w.disk.temp && data == BackUpObjects(w, dir, DATA_OBJECTS) && dir in data.w.disk.temp
    ensures FillBackup(w, dir) == if data.out.Done? then BothSettings(data.w, dir) else data
  {
  }

  lemma CopyableParts(d: Disk)
    ensures CopyableLive(LiveOf(d))
       <==> CopyableObjects(d.data, DATA_OBJECTS) && (CopyableSlot(d.settings) && CopyableSlot(d.pending))
  {
  }

  lemma FillSchedule(w: World, dir: string, objects: nat, settings: nat)
    requires dir in w.disk.temp && objects == ObjectsCost(w.disk.data, DATA_OBJECTS)
    requires settings == SlotCost(w.disk.settings) + SlotCost(w.disk.pending)
    ensures Scheduled(FillBackup(w, dir), CopyableLive(LiveOf(w.disk)), w.fates, objects + settings)
  {
    var data := BackUpObjects(w, dir, DATA_OBJECTS);
    ObjectsSchedule(w, dir, DATA_OBJECTS);
    BackUpObjectsEffect(w, dir, DATA_OBJECTS);
    if data.out.Done? { SettingsSchedule(data.w, dir); }
    FillParts(w, dir, data);
    CopyableParts(w.disk);
    InTurn(FillBackup(w, dir), data, BothSettings(data.w, dir), CopyableObjects(w.disk.data, DATA_OBJECTS),
           CopyableSlot(w.disk.settings) && CopyableSlot(w.disk.pending), CopyableLive(LiveOf(w.disk)),
           w.fates, objects, settings);
  }

  lemma BackupSchedule(w: World, dir: string)
    ensures Scheduled(MakeBackup(w, dir), CopyableLive(LiveOf(w.disk)), w.fates, BackupCost(LiveOf(w.disk)))
  {
    var o := LiveOf(w.disk);
    var objects, settings := ObjectsCost(o.data, DATA_OBJECTS), SlotCost(o.settings) + SlotCost(o.pending);
    var made := Attempt(w, w.disk.(temp := w.disk.temp[dir := Dir(Nil)]));
    var filled := if made.out.Done? then FillBackup(made.w, dir) else made;
    assert MakeBackup(w, dir) == filled;
    if made.out.Done? { FillSchedule(made.w, dir, objects, settings); }
    OneOperation(made, w.fates);
    ScheduledInTurn(made, filled, true, CopyableLive(o), w.fates, 1, objects + settings);
  }

  lemma OneOperation(made: Ran, fates: seq<Fate>)
    requires made.out == After(Next(fates)) && made.w.fates == Later(fates)
    ensures Scheduled(made, true, fates, 1)
  {
    assert AllWork(fates, 1) <==> Next(fates).Works? && AllWork(Later(fates), 0);
    assert Skip(fates, 1) == Skip(Later(fates), 0);
  }

  lemma SettingsSchedule(w: World, dir: string)
    requires dir in w.disk.temp
    ensures Scheduled(BothSettings(w, dir), CopyableSlot(w.disk.settings) && CopyableSlot(w.disk.pending),
                      w.fates, SlotCost(w.disk.settings) + SlotCost(w.disk.pending))
  {
    var first := BackUpSettings(w, dir, false);
    CopyObjectSchedule(w.fates, w.disk.settings);
    CopyObjectSchedule(first.w.fates, w.disk.pending);
    ScheduledInTurn(first, BackUpSettings(first.w, dir, true), CopyableSlot(w.disk.settings), CopyableSlot(w.disk.pending),
                    w.fates, SlotCost(w.disk.settings), SlotCost(w.disk.pending));
  }

  predicate IntactSettings(backup: Option<Tree>, incoming: Option<Tree>) {
    IniIntact(Find(Kids(backup), PENDING)) && IniIntact(PreviousSettings(backup)) && IniIntact(incoming)
  }

  lemma MergeSchedule(c: Codec, e: Env, w: World, backup: Option<Tree>)
    ensures Scheduled(BuildMerged(c, e, w, backup),
                      e.verified && IntactSettings(backup, Find(Kids(w.disk.journal), SETTINGS)), w.fates, 3)
  {
    var second, third := Later(w.fates), Later(Later(w.fates));
    assert AllWork(w.fates, 3) <==> Next(w.fates).Works? && AllWork(second, 2);
    assert AllWork(second, 2) <==> Next(second).Works? && AllWork(third, 1);
    assert AllWork(third, 1) <==> Next(third).Works?;
    assert Skip(w.fates, 3) == Skip(second, 2) == Skip(third, 1) == Later(third);
    var made := Attempt(w, WithEntry(w.disk, MergedName(e), Dir(Nil)));
    assert made.w.fates == second;
  }

  /** What is checked after the backup has been made. */
  predicate Mergeable(e: Env, backup: Tree, incoming: Option<Tree>) {
    Inventory(backup).Some? && e.verified && IntactSettings(Some(backup), incoming)
  }

  lemma IndexSchedule(c: Codec, e: Env, w: World, backup: Tree)
    requires OnlyStaged(e, w.disk, w.disk)
    ensures Scheduled(IndexAndMerge(c, e, w, backup), Mergeable(e, backup, Find(Kids(w.disk.journal), SETTINGS)), w.fates, 4)
  {
    EntryNames(e);
    if Inventory(backup).Some? {
      var index := File(IndexBytes(c, Inventory(backup).value));
      StageEntry(e, w.disk, w, INDEX, index);
      MergeSchedule(c, e, Attempt(w, WithEntry(w.disk, INDEX, index)).w, Some(backup));
    }
  }

  function StageCost(o: Live): nat { BackupCost(o) + 4 }

  /** A profile and an import that every check before the decision accepts. */
  predicate Accepted(e: Env, d: Disk) {
    && e.admitted && CopyableLive(LiveOf(d))
    && Mergeable(e, BackupTree(LiveOf(d)), Find(Kids(d.journal), SETTINGS))
  }

  lemma BackupMade(w: World, dir: string, copyable: bool, backup: Tree, cost: nat)
    requires copyable == CopyableLive(LiveOf(w.disk)) && backup == BackupTree(LiveOf(w.disk))
    requires cost == BackupCost(LiveOf(w.disk))
    ensures var made := MakeBackup(w, dir);
            && Scheduled(made, copyable, w.fates, cost)
            && made.w.disk == w.disk.(temp := made.w.disk.temp)
            && (made.out.Done? ==> Get(made.w.disk.temp, dir) == Some(backup))
  {
    BackupSchedule(w, dir);
    MakeBackupEffect(w, dir);
  }

  /** The staging finishes exactly for an accepted import and on a disk that
      does every one of its operations. */
  lemma StageSchedule(c: Codec, e: Env, w: World)
    requires OnlyStaged(e, w.disk, w.disk)
    ensures Scheduled(Stage(c, e, w), Accepted(e, w.disk), w.fates, StageCost(LiveOf(w.disk)))
  {
    var o := LiveOf(w.disk);
    AcceptedParts(e, w.disk, CopyableLive(o), BackupTree(o), Find(Kids(w.disk.journal), SETTINGS));
    StageIsScheduled(c, e, w, CopyableLive(o), BackupTree(o), BackupCost(o), Accepted(e, w.disk), StageCost(o));
  }

  lemma AcceptedParts(e: Env, d: Disk, copyable: bool, backup: Tree, incoming: Option<Tree>)
    requires copyable == CopyableLive(LiveOf(d)) && backup == BackupTree(LiveOf(d))
    requires incoming == Find(Kids(d.journal), SETTINGS)
    ensures Accepted(e, d) == (e.admitted && copyable && Mergeable(e, backup, incoming))
  {
  }

  lemma StageIsScheduled(c: Codec, e: Env, w: World, copyable: bool, backup: Tree, cost: nat, accepted: bool, total: nat)
    requires OnlyStaged(e, w.disk, w.disk)
    requires copyable == CopyableLive(LiveOf(w.disk)) && backup == BackupTree(LiveOf(w.disk))
    requires cost == BackupCost(LiveOf(w.disk)) && total == cost + 4
    requires accepted == (e.admitted && copyable && Mergeable(e, backup, Find(Kids(w.disk.journal), SETTINGS)))
    ensures Scheduled(Stage(c, e, w), accepted, w.fates, total)
  {
    if e.admitted {
      BackupMade(w, BackupName(e), copyable, backup, cost);
      StageScheduled(c, e, w, MakeBackup(w, BackupName(e)), copyable, backup, cost,
                     Mergeable(e, backup, Find(Kids(w.disk.journal), SETTINGS)));
    }
  }

  lemma StageScheduled(c: Codec, e: Env, w: World, made: Ran, copyable: bool, backup: Tree, cost: nat, mergeable: bool)
    requires OnlyStaged(e, w.disk, w.disk) && e.admitted && made == MakeBackup(w, BackupName(e))
    requires Scheduled(made, copyable, w.fates, cost)
    requires made.w.disk == w.disk.(temp := made.w.disk.temp)
    requires made.out.Done? ==> Get(made.w.disk.temp, BackupName(e)) == Some(backup)
    requires mergeable == Mergeable(e, backup, Find(Kids(w.disk.journal), SETTINGS))
    ensures Scheduled(Stage(c, e, w), copyable && mergeable, w.fates, cost + 4)
  {
    var merged := IndexAndMerge(c, e, made.w, backup);
    StageParts(c, e, w, made, merged, backup);
    if made.out.Done? { IndexSchedule(c, e, made.w, backup); }
    InTurn(Stage(c, e, w), made, merged, copyable, mergeable, copyable && mergeable, w.fates, cost, 4);
  }

  lemma StageParts(c: Codec, e: Env, w: World, made: Ran, merged: Ran, backup: Tree)
    requires e.admitted && made == MakeBackup(w, BackupName(e)) && merged == IndexAndMerge(c, e, made.w, backup)
    requires made.out.Done? ==> Get(made.w.disk.temp, BackupName(e)) == Some(backup)
    ensures Stage(c, e, w) == if made.out.Done? then merged else made
  {
  }

  // ----- The gap, as a condition on the schedule -----

  /** Memory has decided to install, the journal on disk has not heard of it,
      and the backup would pass its checks. */
  predicate InGap(r: Ran) {
    && r.out.Failed? && r.w.manifest.state.Installing?
    && ManifestOn(r.w.disk) == Some(PREPARED)
    && Verified(r.w.disk, r.w.manifest)
  }

  /** The write of the decision fails, the process outlives the clean-up of the
      merged store, and the clean-up of the backup fails. */
  predicate GapFates(fates: seq<Fate>) {
    Next(fates).Fails? && !Next(Later(fates)).Crashes? && Next(Later(Later(fates))).Fails?
  }

  /** What is still in store then. */
  function AfterGap(fates: seq<Fate>, o: Live): seq<Fate> {
    Later(Later(Later(Skip(fates, StageCost(o)))))
  }

  /** The staging finishes and these fates follow. */
  predicate GapSchedule(c: Codec, e: Env, d: Disk, fates: seq<Fate>) {
    && Fresh(e, d) && Accepted(e, d) && IndexFits(c, LiveOf(d))
    && AllWork(fates, StageCost(LiveOf(d)))
    && GapFates(Skip(fates, StageCost(LiveOf(d))))
  }

  lemma FinishLeavesNoGap(c: Codec, e: Env, w: World, o: Live, imports: Option<Tree>, incoming: Option<Tree>)
    requires MidInstall(c, w, o) && LiveOf(w.disk) == o && w.manifest.state.Installing?
    requires Find(Kids(w.disk.journal), MergedName(e)) == Some(Dir(MergedOf(c, o, imports, incoming)))
    ensures !InGap(TidyMerged(e, Finish(e, w)))
  {
    FinishKeeps(c, e, w, o, imports, incoming);
    TidyMergedKeeps(c, e, Finish(e, w), o, imports, incoming);
  }

  ghost predicate ReadyToBegin(c: Codec, e: Env, w: World, o: Live, imports: Option<Tree>, incoming: Option<Tree>) {
    && CanonicalLive(o) && Inv(c, w.disk, o, imports, incoming) && CopyableLive(o)
    && w.manifest == PREPARED && ManifestOn(w.disk) == Some(PREPARED) && w.disk.journal.Some?
    && Get(w.disk.temp, BackupName(e)) == Some(BackupTree(o)) && Inventory(BackupTree(o)).Some?
    && Find(Kids(w.disk.journal), INDEX) == Some(File(IndexBytes(c, Inventory(BackupTree(o)).value)))
    && Find(Kids(w.disk.journal), MergedName(e)) == Some(Dir(MergedOf(c, o, imports, incoming)))
  }

  lemma ProceedSchedule(c: Codec, e: Env, w: World, o: Live, imports: Option<Tree>, incoming: Option<Tree>)
    requires ReadyToBegin(c, e, w, o, imports, incoming)
    ensures var i := Proceed(e, w);
            && (InGap(i) <==> IndexFits(c, o) && GapFates(w.fates))
            && (InGap(i) ==> GapLeft(i, Later(Later(Later(w.fates))), o))
  {
    BeginEffect(c, e, w, o, imports, incoming);
    var begun := Begin(e, w);
    if begun.out.Done? {
      FinishLeavesNoGap(c, e, begun.w, o, imports, incoming);
    } else if begun.out.Failed? {
      TidyMergedKeeps(c, e, begun, o, imports, incoming);
      var tidied := TidyMerged(e, begun);
      EntryNames(e);
      TidyBackupSchedule(e, tidied);
      if tidied.out.Failed? && Next(tidied.w.fates).Fails? {
        assert Intact(c, tidied.w.disk, tidied.w.manifest, o);
        IntactVerifies(c, tidied.w.disk, tidied.w.manifest, o);
      }
    }
  }

  lemma TidyBackupSchedule(e: Env, tidied: Ran)
    requires tidied.w.manifest.backup == Some(Location(TEMP, BackupName(e)))
    requires BackupName(e) in tidied.w.disk.temp
    ensures var i := TidyBackup(e, tidied);
            && (InGap(i) ==> tidied.out.Failed? && Next(tidied.w.fates).Fails?)
            && (tidied.out.Failed? && Next(tidied.w.fates).Fails? ==> i == Ran(tidied.w.(fates := Later(tidied.w.fates)), Failed))
  {
  }

  /** What the gap leaves to the tail of recover(). */
  predicate GapLeft(i: Ran, fates: seq<Fate>, o: Live) {
    && i.w.fates == fates && LiveOf(i.w.disk) == o
    && i.w.manifest.version == 1 && BackupOf(i.w.disk, i.w.manifest) == Some(BackupTree(o))
  }

  lemma RejectionLeavesNoGap(c: Codec, e: Env, staged: Ran, o: Live, imports: Option<Tree>, incoming: Option<Tree>)
    requires Inv(c, staged.w.disk, o, imports, incoming) && staged.w.manifest == PREPARED
    ensures !InGap(TidyBackup(e, TidyMerged(e, staged)))
  {
    TidyMergedKeeps(c, e, staged, o, imports, incoming);
  }

  lemma StagedIsReady(c: Codec, e: Env, w: World, o: Live, imports: Option<Tree>, incoming: Option<Tree>)
    requires CanonicalLive(o) && Inv(c, w.disk, o, imports, incoming)
    requires w.manifest == PREPARED && ManifestOn(w.disk) == Some(PREPARED)
    ensures var staged := Stage(c, e, w);
            && Inv(c, staged.w.disk, o, imports, incoming) && staged.w.manifest == PREPARED
            && (staged.out.Done? ==> ReadyToBegin(c, e, staged.w, o, imports, incoming))
  {
    StageEffect(c, e, w);
    StagedKeeps(c, e, w.disk, Stage(c, e, w).w.disk, o, imports, incoming);
  }

  /** An installation that enters the gap exactly if `schedule` says so. */
  predicate GapDecided(i: Ran, schedule: bool, fates: seq<Fate>, o: Live) {
    (InGap(i) <==> schedule) && (InGap(i) ==> GapLeft(i, fates, o))
  }

  lemma InstallGap(c: Codec, e: Env, w: World, o: Live, imports: Option<Tree>, incoming: Option<Tree>)
    requires CanonicalLive(o) && Inv(c, w.disk, o, imports, incoming)
    requires w.manifest == PREPARED && ManifestOn(w.disk) == Some(PREPARED)
    ensures var staged := Stage(c, e, w);
            GapDecided(Install(c, e, w), Fresh(e, w.disk) && staged.out.Done? && IndexFits(c, o) && GapFates(staged.w.fates),
                       Later(Later(Later(staged.w.fates))), o)
  {
    var staged := Stage(c, e, w);
    StagedIsReady(c, e, w, o, imports, incoming);
    if Fresh(e, w.disk) {
      if staged.out.Done? {
        ProceedSchedule(c, e, staged.w, o, imports, incoming);
      } else {
        RejectionLeavesNoGap(c, e, staged, o, imports, incoming);
      }
    }
  }

  /** The gap, exactly: an installation enters it exactly on these schedules. */
  lemma GapScheduleExact(c: Codec, e: Env, w: World, o: Live, imports: Option<Tree>, incoming: Option<Tree>)
    requires CanonicalLive(o) && Inv(c, w.disk, o, imports, incoming)
    requires w.manifest == PREPARED && ManifestOn(w.disk) == Some(PREPARED)
    ensures GapDecided(Install(c, e, w), GapSchedule(c, e, w.disk, w.fates), AfterGap(w.fates, o), o)
  {
    StageDecides(c, e, w, o);
    var staged := Stage(c, e, w);
    InstallGap(c, e, w, o, imports, incoming);
    SameDecision(Install(c, e, w), GapSchedule(c, e, w.disk, w.fates), Later(Later(Later(staged.w.fates))),
                 AfterGap(w.fates, o), o);
  }

  lemma SameDecision(i: Ran, schedule: bool, a: seq<Fate>, b: seq<Fate>, o: Live)
    requires GapDecided(i, schedule, a, o) && (schedule ==> a == b)
    ensures GapDecided(i, schedule, b, o)
  {
  }

  lemma StageDecides(c: Codec, e: Env, w: World, o: Live)
    requires OnlyStaged(e, w.disk, w.disk) && o == LiveOf(w.disk)
    ensures var staged := Stage(c, e, w);
            && GapSchedule(c, e, w.disk, w.fates) == (Fresh(e, w.disk) && staged.out.Done? && IndexFits(c, o) && GapFates(staged.w.fates))
            && (staged.out.Done? ==> staged.w.fates == Skip(w.fates, StageCost(o)))
  {
    StageSchedule(c, e, w);
  }
}
