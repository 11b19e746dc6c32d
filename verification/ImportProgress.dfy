/** When the profile import comes to an end, and when it cannot. */
module ImportProgress {
  import opened Wrappers
  import opened Strings
  import opened FileTrees
  import opened ImportSteps
  import opened ImportTheorems
  import opened ImportOutcomes
  import opened ImportSchedules
  import opened ImportSafety

  // ----- Retirement -----

  predicate Retirable(d: Disk, m: Manifest) {
    && (m.backup.Some? ==>
        && ValidLocation(m.backup.value)
        && (Get(d.temp, m.backup.value.name).Some? ==> Removable(Get(d.temp, m.backup.value.name).value, 0)))
    && (d.journal.Some? ==> Removable(d.journal.value, 0))
  }

  /** On a reliable disk retirement succeeds exactly for retirable transactions. */
  lemma RetireExact(w: World)
    requires Reliable(w.fates)
    ensures var r := Retire(w);
            && (r.out.Done? <==> Retirable(w.disk, w.manifest))
            && (r.out.Done? ==> r.w.disk.journal.None?)
            && !r.out.Crashed?
  {
    if w.manifest.backup.None? {
      RemoveObjectExact(w.fates, w.disk.journal);
    } else if ValidLocation(w.manifest.backup.value) {
      var target := Get(w.disk.temp, w.manifest.backup.value.name);
      RemoveObjectExact(w.fates, target);
      RemoveObjectExact(RemoveObject(w.fates, target).fates, w.disk.journal);
    }
  }

  /** A retirement cut short anywhere leaves a transaction that is as retirable
      as it was, so it can be repeated, or never. */
  lemma RetireRepeatable(w: World)
    requires w.disk.journal.Some?
    ensures var d := Retire(w).w.disk;
            && (Retirable(w.disk, w.manifest) ==> Retirable(d, w.manifest))
            && (!Retirable(w.disk, w.manifest) ==> d.journal.Some? && !Retirable(d, w.manifest))
  {
    if w.manifest.backup.None? {
      RemoveObjectExact(w.fates, w.disk.journal);
    } else if ValidLocation(w.manifest.backup.value) {
      var target := Get(w.disk.temp, w.manifest.backup.value.name);
      RemoveObjectExact(w.fates, target);
      RemoveObjectExact(RemoveObject(w.fates, target).fates, w.disk.journal);
    }
  }

  function Unattended(c: Codec, d: Disk, startups: seq<(Env, seq<Fate>)>): Disk
    decreases |startups|
  {
    if startups == [] then d
    else Unattended(c, Recover(c, startups[0].0, d, startups[0].1).w.disk, startups[1..])
  }

  /** A finished transaction that is not retirable stops every later startup:
      no schedule of any length ever removes it. */
  lemma {:induction false} StuckForever(c: Codec, d: Disk, m: Manifest, startups: seq<(Env, seq<Fate>)>)
    requires Sorted(Kids(d.journal)) && d.journal.Some? && d.journal.value.Dir?
    requires ManifestOn(d) in {None, Some(m)} && m.version == 1 && (m.state.Committed? || m.state.RolledBack?)
    requires !Retirable(d, m)
    ensures Unattended(c, d, startups).journal.Some?
    decreases |startups|
  {
    if startups != [] {
      var fates := startups[0].1;
      var next := Recover(c, startups[0].0, d, fates).w.disk;
      if next != d {
        var w := World(d, Later(fates), m);
        RetireRepeatable(w);
        if w.manifest.backup.None? {
          RetireJournalKeeps(w);
        } else if ValidLocation(m.backup.value) {
          var removed := RemoveObject(w.fates, Get(d.temp, m.backup.value.name));
          RetireJournalKeeps(w.(disk := d.(temp := Set(d.temp, m.backup.value.name, removed.tree)), fates := removed.fates));
        }
        assert ManifestOn(next) in {None, Some(m)};
        RemainsDirectory(w);
      }
      StuckForever(c, next, m, startups[1..]);
    }
  }

  lemma RemainsDirectory(w: World)
    requires w.disk.journal.Some? && w.disk.journal.value.Dir? && Sorted(Kids(w.disk.journal))
    ensures var j := Retire(w).w.disk.journal;
            Sorted(Kids(j)) && (j.Some? ==> j.value.Dir?)
  {
    RemovalSorted(w.fates, w.disk.journal.value.kids, 1);
    if w.manifest.backup.Some? {
      var removed := RemoveObject(w.fates, Get(w.disk.temp, w.manifest.backup.value.name));
      RemovalSorted(removed.fates, w.disk.journal.value.kids, 1);
    }
  }

  // ----- The window after the journal file is gone -----

  /** A journal directory without its manifest refuses every startup, with no
      change to the disk. */
  lemma {:induction false} LostManifestStops(c: Codec, d: Disk, startups: seq<(Env, seq<Fate>)>)
    requires d.journal.Some? && ManifestOn(d).None?
    ensures Unattended(c, d, startups) == d
    ensures forall e, fates :: !Recover(c, e, d, fates).out.Done?
    decreases |startups|
  {
    if startups != [] { LostManifestStops(c, d, startups[1..]); }
  }

  /** Every other entry of the directory precedes transaction.json, so the only
      such leftover of an interrupted retirement is the empty directory: the
      process died, or rmdir failed, between the last unlink and rmdir. */
  lemma OnlyEmptyWindow(w: World)
    requires Sorted(Kids(w.disk.journal)) && w.disk.journal.Some? && w.disk.journal.value.Dir?
    requires ManifestOn(w.disk).Some?
    requires forall n :: Find(Kids(w.disk.journal), n).Some? ==> !Less(MANIFEST, n)
    ensures var j := RetireJournal(w).w.disk.journal;
            j.None? || ManifestOn(RetireJournal(w).w.disk) == ManifestOn(w.disk) || j == Some(Dir(Nil))
  {
    LastFileGoesLast(w.fates, w.disk.journal.value.kids, 1, MANIFEST);
  }

  /** All entries of the directory go, and then rmdir fails or the process dies. */
  predicate WindowFates(kids: Forest, fates: seq<Fate>) {
    && RemovableKids(kids, 1) && AllWork(fates, RemoveKidsCost(kids))
    && !Next(Skip(fates, RemoveKidsCost(kids))).Works?
  }

  /** Exactly then the removal of the directory leaves it empty. */
  lemma EmptyWindowExact(w: World, kids: Forest)
    requires w.disk.journal == Some(Dir(kids)) && kids.Cons?
    ensures RetireJournal(w).w.disk.journal == Some(Dir(Nil)) <==> WindowFates(kids, w.fates)
  {
    var part := RemoveKids(w.fates, kids, 1);
    RemoveKidsSchedule(w.fates, kids, 1);
    if !part.out.Done? { UnfinishedKids(w.fates, kids, 1); }
  }

  /** A removal that stops leaves the entry at which it stopped. */
  lemma {:induction false} UnfinishedKids(fates: seq<Fate>, f: Forest, depth: nat)
    requires !RemoveKids(fates, f, depth).out.Done?
    ensures RemoveKids(fates, f, depth).kids.Cons?
    decreases f
  {
    var first := RemoveTree(fates, f.tree, depth);
    RemoveTreeExact(fates, f.tree, depth);
    if first.out.Done? { UnfinishedKids(first.fates, f.rest, depth); }
  }

  /** The backup of a finished transaction as retirement finds it. */
  function RetiredBackup(d: Disk, m: Manifest): Option<Tree> {
    if m.backup.Some? then Get(d.temp, m.backup.value.name) else None
  }

  /** A startup over a finished transaction enters the window exactly when it
      reads the journal, removes the backup, and then meets those fates. */
  lemma WindowExact(c: Codec, e: Env, d: Disk, fates: seq<Fate>, kids: Forest)
    requires d.journal == Some(Dir(kids)) && kids.Cons? && ManifestOn(d).Some?
    requires var m := ManifestOn(d).value; m.version == 1 && (m.state.Committed? || m.state.RolledBack?)
    ensures var m := ManifestOn(d).value;
            var backup := RetiredBackup(d, m);
            var cost := RemoveSlotCost(backup);
            Recover(c, e, d, fates).w.disk.journal == Some(Dir(Nil))
            <==> && !e.locked && Next(fates).Works?
                 && (m.backup.Some? ==> ValidLocation(m.backup.value))
                 && RemovableSlot(backup) && AllWork(Later(fates), cost)
                 && WindowFates(kids, Skip(Later(fates), cost))
  {
    if !e.locked && Next(fates).Works? {
      var w := World(d, Later(fates), ManifestOn(d).value);
      assert Recover(c, e, d, fates) == Retire(w);
      RetireWindow(w, kids);
    }
  }

  lemma RetireWindow(w: World, kids: Forest)
    requires w.disk.journal == Some(Dir(kids)) && kids.Cons?
    ensures var backup := RetiredBackup(w.disk, w.manifest);
            var cost := RemoveSlotCost(backup);
            Retire(w).w.disk.journal == Some(Dir(Nil))
            <==> && (w.manifest.backup.Some? ==> ValidLocation(w.manifest.backup.value))
                 && RemovableSlot(backup) && AllWork(w.fates, cost) && WindowFates(kids, Skip(w.fates, cost))
  {
    if w.manifest.backup.None? {
      EmptyWindowExact(w, kids);
    } else if ValidLocation(w.manifest.backup.value) {
      var name := w.manifest.backup.value.name;
      var removed := RemoveObject(w.fates, Get(w.disk.temp, name));
      RemoveObjectSchedule(w.fates, Get(w.disk.temp, name));
      if removed.out.Done? {
        EmptyWindowExact(w.(disk := w.disk.(temp := Set(w.disk.temp, name, removed.tree)), fates := removed.fates), kids);
      }
    }
  }

  /** So every finished transaction that could be retired can also be stopped
      there, and then no later startup ever gets past it. */
  lemma WindowReachable(c: Codec, e: Env, d: Disk, kids: Forest, later: seq<(Env, seq<Fate>)>)
    requires d.journal == Some(Dir(kids)) && kids.Cons? && ManifestOn(d).Some? && !e.locked
    requires var m := ManifestOn(d).value; m.version == 1 && (m.state.Committed? || m.state.RolledBack?)
    requires Retirable(d, ManifestOn(d).value)
    ensures var fates := [Works] + (Good(RemoveSlotCost(RetiredBackup(d, ManifestOn(d).value)))
                                    + (Good(RemoveKidsCost(kids)) + [Crashes]));
            var after := Recover(c, e, d, fates).w.disk;
            after.journal == Some(Dir(Nil)) && Unattended(c, after, later) == after
  {
    var backup, ending := RemoveSlotCost(RetiredBackup(d, ManifestOn(d).value)), Good(RemoveKidsCost(kids)) + [Crashes];
    var fates := [Works] + (Good(backup) + ending);
    GoodWorks(backup, ending);
    GoodWorks(RemoveKidsCost(kids), [Crashes]);
    assert Later(fates) == Good(backup) + ending;
    WindowExact(c, e, d, fates, kids);
    LostManifestStops(c, Recover(c, e, d, fates).w.disk, later);
  }

  /** Every name the import itself puts into the directory precedes it. */
  lemma JournalNamesPrecede(e: Env)
    ensures !Less(MANIFEST, INDEX) && !Less(MANIFEST, IMPORTS) && !Less(MANIFEST, SETTINGS)
    ensures !Less(MANIFEST, MergedName(e))
  {
    assert MergedName(e)[0] == 'm';
  }

  // ----- Nesting -----

  function Height(t: Tree): nat {
    if t.Dir? && t.kids.Cons? then 1 + KidsHeight(t.kids) else 0
  }

  function KidsHeight(f: Forest): nat {
    if f.Nil? then 0
    else
      var first, others := Height(f.tree), KidsHeight(f.rest);
      if first > others then first else others
  }

  lemma {:induction false} RemovableHeight(t: Tree, depth: nat)
    requires Removable(t, 0)
    ensures Removable(t, depth) <==> depth + Height(t) <= MAX_DEPTH
    decreases t, 1
  {
    RemovableAnywhere(t, 0, depth);
  }

  lemma {:induction false} RemovableAnywhere(t: Tree, shallow: nat, depth: nat)
    requires Removable(t, shallow)
    ensures Removable(t, depth) <==> depth + Height(t) <= MAX_DEPTH
    decreases t, 1
  {
    if t.Dir? && t.kids.Cons? { KidsRemovableAnywhere(t.kids, shallow + 1, depth + 1); }
  }

  lemma {:induction false} KidsRemovableAnywhere(f: Forest, shallow: nat, depth: nat)
    requires RemovableKids(f, shallow) && f.Cons?
    ensures RemovableKids(f, depth) <==> depth + KidsHeight(f) <= MAX_DEPTH
    decreases f, 0
  {
    RemovableAnywhere(f.tree, shallow, depth);
    if f.rest.Cons? { KidsRemovableAnywhere(f.rest, shallow, depth); }
  }

  ghost predicate AllRemovable(f: Forest, depth: nat) {
    forall n :: Find(f, n).Some? ==> Removable(Find(f, n).value, depth)
  }

  lemma {:induction false} KidsRemovable(f: Forest, depth: nat)
    requires Sorted(f)
    ensures RemovableKids(f, depth) <==> AllRemovable(f, depth)
  {
    if f.Cons? {
      KidsRemovable(f.rest, depth);
      RestLacksHead(f);
      assert Find(f, f.name) == Some(f.tree);
      assert forall n | Find(f.rest, n).Some? :: Find(f, n) == Find(f.rest, n);
    }
  }

  lemma {:induction false} AddObjectsDirectory(backup: Tree, data: map<string, Tree>, names: seq<string>)
    requires backup.Dir? && (Find(backup.kids, DATA).Some? ==> Find(backup.kids, DATA).value.Dir?)
    ensures var r := AddObjects(backup, data, names);
            r.Dir? && (Find(r.kids, DATA).Some? ==> Find(r.kids, DATA).value.Dir?)
    decreases |names|
  {
    if names != [] {
      var o := Get(data, names[0]);
      if o.Some? {
        FindPut(backup.kids, DATA, Dir(Put(BackupObjects(Some(backup)), names[0], o.value)), DATA);
      }
      AddObjectsDirectory(AddObject(backup, names[0], o), data, names[1..]);
    }
  }

  lemma BackupEntry(o: Live, n: string)
    ensures var backup := BackupTree(o);
            && backup.Dir?
            && (if n == PENDING then Find(backup.kids, n) == o.pending
                else if n == SETTINGS then Find(backup.kids, n) == o.settings
                else if n == DATA then Find(backup.kids, n).Some? ==> Find(backup.kids, n).value.Dir?
                else Find(backup.kids, n).None?)
  {
    var t0 := AddObjects(Dir(Nil), o.data, DATA_OBJECTS);
    AddObjectsFind(Dir(Nil), o.data, DATA_OBJECTS, "");
    AddObjectsDirectory(Dir(Nil), o.data, DATA_OBJECTS);
    AddFileFind(t0, SETTINGS, o.settings, n);
    AddFileFind(AddFile(t0, SETTINGS, o.settings), PENDING, o.pending, n);
  }

  lemma BackupObject(o: Live, n: string)
    ensures Find(BackupObjects(Some(BackupTree(o))), n) == if n in DATA_OBJECTS then Get(o.data, n) else None
  {
    var t0 := AddObjects(Dir(Nil), o.data, DATA_OBJECTS);
    AddObjectsFind(Dir(Nil), o.data, DATA_OBJECTS, n);
    AddFileFind(t0, SETTINGS, o.settings, DATA);
    AddFileFind(AddFile(t0, SETTINGS, o.settings), PENDING, o.pending, DATA);
  }

  predicate Shallow(o: Live) {
    forall n | n in DATA_OBJECTS && n in o.data :: Height(o.data[n]) <= 6
  }

  lemma BackupObjectsExact(o: Live)
    requires CanonicalLive(o) && CopyableLive(o)
    ensures AllRemovable(BackupObjects(Some(BackupTree(o))), 2) <==> Shallow(o)
  {
    var objects := BackupObjects(Some(BackupTree(o)));
    forall n ensures Find(objects, n) == if n in DATA_OBJECTS then Get(o.data, n) else None {
      BackupObject(o, n);
    }
    forall n | n in DATA_OBJECTS && n in o.data
      ensures Removable(o.data[n], 2) <==> Height(o.data[n]) <= 6
    {
      CopyableIsRemovable(o.data[n], 0);
      RemovableHeight(o.data[n], 2);
    }
    if AllRemovable(objects, 2) {
      forall n | n in DATA_OBJECTS && n in o.data ensures Height(o.data[n]) <= 6 {
        assert Find(objects, n) == Some(o.data[n]);
      }
    }
  }

  /** copyObject counts nesting from the object, removeObject from the backup
      directory two levels above it: an import of a profile with an object nested
      deeper than six commits and can then never be retired. */
  lemma BackupRemovableExact(o: Live)
    requires CanonicalLive(o) && CopyableLive(o)
    requires (o.settings.Some? ==> o.settings.value.File?) && (o.pending.Some? ==> o.pending.value.File?)
    ensures Removable(BackupTree(o), 0) <==> Shallow(o)
  {
    BackupCanonical(o);
    var kids := BackupTree(o).kids;
    BackupObjectsExact(o);
    KidsRemovable(kids, 1);
    FindCanonical(kids, DATA);
    KidsRemovable(BackupObjects(Some(BackupTree(o))), 2);
    DataDecides(o);
  }

  lemma DataDecides(o: Live)
    requires (o.settings.Some? ==> o.settings.value.File?) && (o.pending.Some? ==> o.pending.value.File?)
    ensures var kids := BackupTree(o).kids;
            BackupTree(o).Dir? && (AllRemovable(kids, 1) <==> RemovableKids(Kids(Find(kids, DATA)), 2))
  {
    var kids := BackupTree(o).kids;
    BackupEntry(o, DATA);
    forall n | Find(kids, n).Some? && n != DATA ensures Removable(Find(kids, n).value, 1) {
      BackupEntry(o, n);
    }
    if Find(kids, DATA).Some? {
      assert Removable(Find(kids, DATA).value, 1) <==> RemovableKids(Kids(Find(kids, DATA)), 2);
    }
  }

  function Nested(levels: nat): Tree {
    if levels == 0 then File(Bytes(0, Opaque(0))) else Dir(Cons("d", Nested(levels - 1), Nil))
  }

  lemma NestedKids(levels: nat)
    requires levels > 0
    ensures Nested(levels) == Dir(Cons("d", Nested(levels - 1), Nil))
    ensures Entries(Nested(levels).kids) == 1
    ensures KidsHeight(Nested(levels).kids) == Height(Nested(levels - 1))
  {
    var kids := Cons("d", Nested(levels - 1), Nil);
    assert KidsHeight(kids.rest) == 0 && Entries(kids.rest) == 0;
  }

  lemma {:induction false} NestedHeight(levels: nat)
    ensures Canonical(Nested(levels)) && Height(Nested(levels)) == levels
  {
    if levels > 0 {
      NestedHeight(levels - 1);
      NestedKids(levels);
    }
  }

  lemma {:induction false} NestedCopyable(levels: nat, depth: nat)
    ensures Copyable(Nested(levels), depth) <==> levels + depth <= MAX_DEPTH
  {
    if levels > 0 {
      NestedCopyable(levels - 1, depth + 1);
      NestedKids(levels);
      var kids := Nested(levels).kids;
      assert CopyableKids(kids, depth + 1) <==> Copyable(kids.tree, depth + 1) && CopyableKids(kids.rest, depth + 1);
    }
  }

  // ----- Two quiet startups -----

  /** install() writes a backup index of any size, restore() refuses one above
      16 MiB: on a reliable disk an interrupted import rolls back exactly when
      its index fits, and otherwise every startup leaves the mixture in place. */
  lemma RollbackExact(c: Codec, e: Env, d: Disk, fates: seq<Fate>, o: Live, imports: Option<Tree>, incoming: Option<Tree>)
    requires CanonicalLive(o) && Inv(c, d, o, imports, incoming)
    requires ManifestOn(d).Some? && ManifestOn(d).value.state.Installing? && Intact(c, d, ManifestOn(d).value, o)
    requires Reliable(fates) && !e.locked
    ensures var r := Recover(c, e, d, fates);
            var m := ManifestOn(d).value;
            if IndexFits(c, o) then LiveOf(r.w.disk) == o && ManifestOn(r.w.disk) == Some(m.(state := RolledBack))
            else r.w.disk == d
  {
    ReliableLater(fates);
    var w := World(d, Later(fates), ManifestOn(d).value);
    RestoreExact(c, w, o);
    IntactVerifies(c, d, w.manifest, o);
  }

  /** One more reliable startup ends it. */
  predicate Settled(d: Disk) {
    d.journal.None?
    || (ManifestOn(d).Some? && ManifestOn(d).value.version == 1
        && (ManifestOn(d).value.state.Committed? || ManifestOn(d).value.state.RolledBack?)
        && Retirable(d, ManifestOn(d).value))
  }

  predicate JournalRemovable(d: Disk) {
    d.journal.Some? ==> Removable(d.journal.value, 0)
  }

  /** The sizes and depths within which the import always ends. */
  ghost predicate Bounded(c: Codec, d: Disk, o: Live, imports: Option<Tree>, incoming: Option<Tree>) {
    && IndexFits(c, o)
    && Removable(BackupTree(o), 0)
    && Removable(Dir(MergedOf(c, o, imports, incoming)), 1)
    && JournalRemovable(d)
  }

  lemma JournalStaysRemovable(e: Env, d: Disk, d': Disk)
    requires Sorted(Kids(d.journal)) && Sorted(Kids(d'.journal))
    requires d.journal.Some? && d.journal.value.Dir? && d'.journal.Some? && d'.journal.value.Dir?
    requires JournalRemovable(d)
    requires forall n | n !in {INDEX, MANIFEST, MergedName(e)} :: Find(Kids(d'.journal), n) in {None, Find(Kids(d.journal), n)}
    requires forall n | n in {INDEX, MANIFEST, MergedName(e)} && Find(Kids(d'.journal), n).Some? ::
      Removable(Find(Kids(d'.journal), n).value, 1)
    ensures JournalRemovable(d')
  {
    KidsRemovable(Kids(d.journal), 1);
    KidsRemovable(Kids(d'.journal), 1);
    forall n | Find(Kids(d'.journal), n).Some? ensures Removable(Find(Kids(d'.journal), n).value, 1) {
      if n !in {INDEX, MANIFEST, MergedName(e)} {
        assert Find(Kids(d.journal), n).Some?;
      }
    }
  }

  lemma QuietUndo(c: Codec, w: World, o: Live)
    requires MidInstall(c, w, o) && Intact(c, w.disk, w.manifest, o) && IndexFits(c, o)
    requires Reliable(w.fates) && JournalRemovable(w.disk) && Removable(BackupTree(o), 0)
    ensures var r := Undo(w);
            && r.out.Failed? && r.w.manifest.state.RolledBack? && Settled(r.w.disk)
            && ManifestOn(r.w.disk) == Some(r.w.manifest)
            && Reliable(r.w.fates) && r.w.disk.journal.Some?
            && r.w.disk.temp == w.disk.temp && LiveOf(r.w.disk) == o
  {
    RestoreExact(c, w, o);
    IntactVerifies(c, w.disk, w.manifest, o);
    RolledBackIsSettled(c, w, o, Restore(w));
  }

  lemma RolledBackIsSettled(c: Codec, w: World, o: Live, r: Ran)
    requires MidInstall(c, w, o) && Intact(c, w.disk, w.manifest, o)
    requires JournalRemovable(w.disk) && Removable(BackupTree(o), 0)
    requires Restored(w, o, r) && r.out.Done?
    ensures Settled(r.w.disk)
  {
    KidsRemovable(Kids(w.disk.journal), 1);
    KidsRemovable(Kids(r.w.disk.journal), 1);
    forall n | Find(Kids(r.w.disk.journal), n).Some? ensures Removable(Find(Kids(r.w.disk.journal), n).value, 1) {
      if n != MANIFEST { assert Find(Kids(w.disk.journal), n).Some?; }
    }
  }

  lemma QuietFinish(c: Codec, e: Env, w: World, o: Live, imports: Option<Tree>, incoming: Option<Tree>)
    requires MidInstall(c, w, o) && LiveOf(w.disk) == o && w.manifest.state.Installing?
    requires Find(Kids(w.disk.journal), MergedName(e)) == Some(Dir(MergedOf(c, o, imports, incoming)))
    requires Reliable(w.fates) && Intact(c, w.disk, w.manifest, o) && Bounded(c, w.disk, o, imports, incoming)
    ensures var r := Finish(e, w);
            && Settled(r.w.disk) && Reliable(r.w.fates) && !r.out.Crashed?
            && (r.w.disk.journal.None? || (r.out.Failed? && r.w.manifest.state.RolledBack?))
  {
    var swapped := Swap(w, MergedOf(c, o, imports, incoming));
    SwapEffect(c, w, o, imports, incoming);
    SwapKeepsJournal(c, w, o, imports, incoming);
    if swapped.out.Failed? {
      QuietUndo(c, swapped.w, o);
    } else {
      QuietCommit(c, swapped.w, o);
    }
  }

  lemma SwapFrame(w: World, merged: Forest)
    requires var data := ReplaceData(w, DATA_OBJECTS, merged);
             data.w.disk == w.disk.(data := data.w.disk.data) && data.w.manifest == w.manifest
    ensures var r := Swap(w, merged);
            r.w.disk.journal == w.disk.journal && r.w.disk.temp == w.disk.temp && r.w.manifest == w.manifest
  {
  }

  lemma SwapKeepsJournal(c: Codec, w: World, o: Live, imports: Option<Tree>, incoming: Option<Tree>)
    requires MidInstall(c, w, o) && LiveOf(w.disk) == o
    ensures var r := Swap(w, MergedOf(c, o, imports, incoming));
            && r.w.disk.journal == w.disk.journal && r.w.disk.temp == w.disk.temp
            && (Intact(c, w.disk, w.manifest, o) ==> Intact(c, r.w.disk, r.w.manifest, o))
  {
    var merged := MergedOf(c, o, imports, incoming);
    ReplaceDataEffect(w, DATA_OBJECTS, merged);
    SwapFrame(w, merged);
    assert BackupOf(Swap(w, merged).w.disk, w.manifest) == BackupOf(w.disk, w.manifest);
  }

  lemma QuietCommit(c: Codec, w: World, o: Live)
    requires MidInstall(c, w, o) && Intact(c, w.disk, w.manifest, o)
    requires Reliable(w.fates) && JournalRemovable(w.disk) && Removable(BackupTree(o), 0)
    ensures var written := WriteManifest(w.(manifest := w.manifest.(state := Committed)));
            written.out.Done? && Retire(written.w).out.Done? && Retire(written.w).w.disk.journal.None?
            && Reliable(Retire(written.w).w.fates)
  {
    var decided := w.(manifest := w.manifest.(state := Committed));
    WriteManifestEffect(decided);
    var written := WriteManifest(decided);
    KidsRemovable(Kids(w.disk.journal), 1);
    KidsRemovable(Kids(written.w.disk.journal), 1);
    forall n | Find(Kids(written.w.disk.journal), n).Some? ensures Removable(Find(Kids(written.w.disk.journal), n).value, 1) {
      if n != MANIFEST { assert Find(Kids(w.disk.journal), n).Some?; }
    }
    assert Retirable(written.w.disk, written.w.manifest);
    RetireExact(written.w);
    RetireReliable(written.w);
  }

  lemma RetireReliable(w: World)
    requires Reliable(w.fates)
    ensures Reliable(Retire(w).w.fates)
  {
    RemoveObjectExact(w.fates, w.disk.journal);
    if w.manifest.backup.Some? {
      var target := Get(w.disk.temp, w.manifest.backup.value.name);
      RemoveObjectExact(w.fates, target);
      RemoveObjectExact(RemoveObject(w.fates, target).fates, w.disk.journal);
    }
  }

  ghost predicate QuietlyInstalled(r: Ran) {
    && Reliable(r.w.fates) && !r.out.Crashed?
    && (if r.w.disk.journal.None? then true
        else && r.out.Failed?
             && (if r.w.manifest.state.RolledBack? then Settled(r.w.disk)
                 else r.w.manifest == PREPARED && JournalRemovable(r.w.disk)))
  }

  /** Cleaning up never makes the journal harder to retire. */
  lemma TidiedStaysRemovable(e: Env, d: Disk, d': Disk)
    requires d'.journal.Some? ==> d.journal.Some?
    requires Sorted(Kids(d.journal)) && (d.journal.Some? ==> d.journal.value.Dir?) && JournalRemovable(d)
    requires Sorted(Kids(d'.journal)) && (d'.journal.Some? ==> d'.journal.value.Dir?)
    requires forall n :: Find(Kids(d'.journal), n) in {None, Find(Kids(d.journal), n)}
    ensures JournalRemovable(d')
  {
    KidsRemovable(Kids(d.journal), 1);
    KidsRemovable(Kids(d'.journal), 1);
    forall n | Find(Kids(d'.journal), n).Some? ensures Removable(Find(Kids(d'.journal), n).value, 1) {
      assert Find(Kids(d.journal), n).Some?;
    }
  }

  lemma QuietRejection(c: Codec, e: Env, w: World, staged: Ran, o: Live, imports: Option<Tree>, incoming: Option<Tree>)
    requires Inv(c, w.disk, o, imports, incoming) && w.manifest == PREPARED && ManifestOn(w.disk) == Some(PREPARED)
    requires JournalRemovable(w.disk)
    requires Staged(c, e, w, staged) && staged.out.Failed? && Reliable(staged.w.fates)
    ensures QuietlyInstalled(TidyBackup(e, TidyMerged(e, staged)))
  {
    EntryNames(e);
    StagedKeeps(c, e, w.disk, staged.w.disk, o, imports, incoming);
    TidyMergedKeeps(c, e, staged, o, imports, incoming);
    var tidied := TidyMerged(e, staged);
    TidyBackupKeeps(c, e, tidied, o, imports, incoming);
    KidsRemovable(Kids(w.disk.journal), 1);
    JournalStaysRemovable(e, w.disk, tidied.w.disk);
  }

  lemma QuietAccept(c: Codec, e: Env, w: World, staged: Ran, o: Live, imports: Option<Tree>, incoming: Option<Tree>)
    requires CanonicalLive(o)
    requires Inv(c, w.disk, o, imports, incoming) && w.manifest == PREPARED && ManifestOn(w.disk) == Some(PREPARED)
    requires Bounded(c, w.disk, o, imports, incoming)
    requires Staged(c, e, w, staged) && staged.out.Done? && Reliable(staged.w.fates)
    ensures var begun := Begin(e, staged.w);
            begun.out.Done? && QuietlyInstalled(TidyMerged(e, Finish(e, begun.w)))
  {
    EntryNames(e);
    StagedKeeps(c, e, w.disk, staged.w.disk, o, imports, incoming);
    BeginEffect(c, e, staged.w, o, imports, incoming);
    WriteManifestEffect(staged.w.(manifest := staged.w.manifest.(state := Installing,
                                                                 backup := Some(Location(TEMP, BackupName(e))),
                                                                 digest := IndexDigest(staged.w.disk))));
    var begun := Begin(e, staged.w);
    JournalStaysRemovable(e, w.disk, begun.w.disk);
    assert Intact(c, begun.w.disk, begun.w.manifest, o);
    FinishKeeps(c, e, begun.w, o, imports, incoming);
    QuietFinish(c, e, begun.w, o, imports, incoming);
    QuietTidy(c, e, Finish(e, begun.w), o, imports, incoming);
  }

  lemma QuietTidy(c: Codec, e: Env, r: Ran, o: Live, imports: Option<Tree>, incoming: Option<Tree>)
    requires Inv(c, r.w.disk, o, imports, incoming)
    requires Settled(r.w.disk) && Reliable(r.w.fates) && !r.out.Crashed?
    requires r.w.disk.journal.None? || (r.out.Failed? && r.w.manifest.state.RolledBack?)
    ensures QuietlyInstalled(TidyMerged(e, r))
  {
    TidyMergedKeeps(c, e, r, o, imports, incoming);
    if r.w.disk.journal.Some? {
      TidiedStaysRemovable(e, r.w.disk, TidyMerged(e, r).w.disk);
    }
  }

  lemma QuietInstall(c: Codec, e: Env, w: World, o: Live, imports: Option<Tree>, incoming: Option<Tree>)
    requires CanonicalLive(o)
    requires Inv(c, w.disk, o, imports, incoming) && w.manifest == PREPARED && ManifestOn(w.disk) == Some(PREPARED)
    requires Bounded(c, w.disk, o, imports, incoming) && Reliable(w.fates)
    ensures QuietlyInstalled(Install(c, e, w))
  {
    if Fresh(e, w.disk) {
      StageEffect(c, e, w);
      var staged := Stage(c, e, w);
      if staged.out.Failed? {
        QuietRejection(c, e, w, staged, o, imports, incoming);
      } else {
        QuietAccept(c, e, w, staged, o, imports, incoming);
      }
    }
  }

  lemma QuietConclude(c: Codec, e: Env, i: Ran, o: Live, imports: Option<Tree>, incoming: Option<Tree>)
    requires Installed(c, e, i, o, imports, incoming) && QuietlyInstalled(i)
    ensures Settled(Conclude(i).w.disk)
  {
    if i.out.Failed? && i.w.disk.journal.Some? && i.w.manifest == PREPARED {
      var w := i.w.(manifest := i.w.manifest.(state := RolledBack));
      WriteManifestEffect(w);
      RejectedIsSettled(w);
    }
  }

  lemma RejectedIsSettled(w: World)
    requires Sorted(Kids(w.disk.journal)) && w.disk.journal.Some? && w.disk.journal.value.Dir?
    requires JournalRemovable(w.disk) && Reliable(w.fates)
    requires w.manifest == PREPARED.(state := RolledBack)
    ensures Settled(WriteManifest(w).w.disk)
  {
    WriteManifestEffect(w);
    KidsRemovable(Kids(w.disk.journal), 1);
    var d := WriteManifest(w).w.disk;
    KidsRemovable(Kids(d.journal), 1);
    forall n | Find(Kids(d.journal), n).Some? ensures Removable(Find(Kids(d.journal), n).value, 1) {
      if n != MANIFEST { assert Find(Kids(w.disk.journal), n).Some?; }
    }
  }

  lemma QuietPrepared(c: Codec, e: Env, w: World, o: Live, imports: Option<Tree>, incoming: Option<Tree>)
    requires CanonicalLive(o) && Inv(c, w.disk, o, imports, incoming) && Bounded(c, w.disk, o, imports, incoming)
    requires w.manifest == PREPARED && ManifestOn(w.disk) == Some(PREPARED) && Reliable(w.fates)
    ensures Settled(Conclude(Install(c, e, w)).w.disk)
  {
    InstallKeeps(c, e, w, o, imports, incoming);
    QuietInstall(c, e, w, o, imports, incoming);
    QuietConclude(c, e, Install(c, e, w), o, imports, incoming);
  }

  /** What a startup needs of the state an earlier one left, beside the bounds. */
  ghost predicate Recoverable(c: Codec, d: Disk, o: Live) {
    && ManifestOn(d).Some?
    && var m := ManifestOn(d).value;
       && (m.state.Installing? ==> Intact(c, d, m, o))
       && (m.state.Committed? || m.state.RolledBack? ==> Retirable(d, m))
  }

  lemma QuietFirst(c: Codec, e: Env, d: Disk, fates: seq<Fate>, o: Live, imports: Option<Tree>, incoming: Option<Tree>)
    requires CanonicalLive(o) && Inv(c, d, o, imports, incoming) && Bounded(c, d, o, imports, incoming)
    requires Recoverable(c, d, o) && Reliable(fates) && !e.locked
    ensures Settled(Recover(c, e, d, fates).w.disk)
  {
    ReliableLater(fates);
    var w := World(d, Later(fates), ManifestOn(d).value);
    if w.manifest.state.Prepared? {
      QuietPrepared(c, e, w, o, imports, incoming);
    } else if w.manifest.state.Installing? {
      QuietUndo(c, w, o);
    } else {
      RetireExact(w);
    }
  }

  lemma QuietSecond(c: Codec, e: Env, d: Disk, fates: seq<Fate>)
    requires Settled(d) && Reliable(fates) && !e.locked
    ensures var last := Recover(c, e, d, fates).w.disk;
            last.journal.None? && LiveOf(last) == LiveOf(d)
  {
    if d.journal.Some? {
      ReliableLater(fates);
      RetireExact(World(d, Later(fates), ManifestOn(d).value));
    }
  }

  /** Two reliable startups end any import within the bounds, whatever state an
      earlier crash left, with the original or the complete profile. */
  lemma TwoStartups(c: Codec, first: (Env, seq<Fate>), second: (Env, seq<Fate>), d: Disk, o: Live,
                    imports: Option<Tree>, incoming: Option<Tree>)
    requires CanonicalLive(o) && Inv(c, d, o, imports, incoming) && Bounded(c, d, o, imports, incoming)
    requires Recoverable(c, d, o)
    requires Reliable(first.1) && Reliable(second.1) && !first.0.locked && !second.0.locked
    ensures var last := Unattended(c, d, [first, second]);
            last.journal.None? && LiveOf(last) in {o, Goal(c, o, imports, incoming)}
    ensures Recover(c, second.0, Recover(c, first.0, d, first.1).w.disk, second.1).out.Done?
  {
    var d1 := Recover(c, first.0, d, first.1).w.disk;
    QuietFirst(c, first.0, d, first.1, o, imports, incoming);
    QuietNotExposed(c, first.0, d, first.1);
    RecoverKeeps(c, first.0, d, first.1, o, imports, incoming);
    QuietSecond(c, second.0, d1, second.1);
    GoesOnExactly(c, second.0, d1, second.1);
    SettledLive(c, d1, o, imports, incoming);
    TwoUnattended(c, first, second, d);
  }

  lemma SettledLive(c: Codec, d: Disk, o: Live, imports: Option<Tree>, incoming: Option<Tree>)
    requires Settled(d) && Inv(c, d, o, imports, incoming)
    ensures LiveOf(d) in {o, Goal(c, o, imports, incoming)}
  {
  }

  lemma TwoUnattended(c: Codec, first: (Env, seq<Fate>), second: (Env, seq<Fate>), d: Disk)
    ensures Unattended(c, d, [first, second])
            == Recover(c, second.0, Recover(c, first.0, d, first.1).w.disk, second.1).w.disk
  {
    assert [first, second][1..] == [second];
    assert [second][1..] == [];
    var d1 := Recover(c, first.0, d, first.1).w.disk;
    assert Unattended(c, d1, [second]) == Unattended(c, Recover(c, second.0, d1, second.1).w.disk, []);
  }

  /** A startup on a reliable disk is not exposed. */
  lemma QuietNotExposed(c: Codec, e: Env, d: Disk, fates: seq<Fate>)
    requires Reliable(fates)
    ensures !Exposed(c, e, d, fates)
  {
    ReliableLater(fates);
    ReliableSkip(Later(fates), StageCost(LiveOf(d)));
    ReliableLater(Skip(Later(fates), StageCost(LiveOf(d))));
  }
}
