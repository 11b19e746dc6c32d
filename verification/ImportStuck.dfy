/** Imports that no startup can finish: profiles that nest too deep to be
    retired, and profiles whose index is too large to be rolled back. */
module ImportStuck {
  import opened Wrappers
  import opened Strings
  import opened FileTrees
  import opened ImportSteps
  import opened ImportTheorems
  import opened ImportSchedules
  import opened ImportSafety
  import opened ImportProgress
  import opened ImportQuiet

  // ----- Imports that commit and never retire -----

  /** A committed import whose backup cannot be removed. */
  ghost predicate CommittedForGood(c: Codec, w: World, o: Live, imports: Option<Tree>, incoming: Option<Tree>) {
    && Inv(c, w.disk, o, imports, incoming)
    && w.manifest.version == 1 && w.manifest.state.Committed? && ManifestOn(w.disk) == Some(w.manifest)
    && LiveOf(w.disk) == Goal(c, o, imports, incoming)
    && w.disk.journal.Some? && BackupStays(w.disk, w.manifest)
  }

  predicate BackupStays(d: Disk, m: Manifest) {
    && m.backup.Some? && ValidLocation(m.backup.value)
    && Get(d.temp, m.backup.value.name).Some? && !Removable(Get(d.temp, m.backup.value.name).value, 0)
  }

  lemma RetireStays(c: Codec, w: World, o: Live, imports: Option<Tree>, incoming: Option<Tree>)
    requires CommittedForGood(c, w, o, imports, incoming) && Reliable(w.fates)
    ensures var r := Retire(w);
            CommittedForGood(c, r.w, o, imports, incoming) && r.out.Failed? && Reliable(r.w.fates)
  {
    var name := w.manifest.backup.value.name;
    RemoveObjectExact(w.fates, Get(w.disk.temp, name));
    RetireKeeps(c, w, o, imports, incoming);
    RetireExact(w);
    RetireReliable(w);
  }

  lemma CommitStays(c: Codec, w: World, o: Live, imports: Option<Tree>, incoming: Option<Tree>)
    requires MidInstall(c, w, o) && LiveOf(w.disk) == Goal(c, o, imports, incoming) && Reliable(w.fates)
    requires BackupStays(w.disk, w.manifest)
    ensures var written := WriteManifest(w.(manifest := w.manifest.(state := Committed)));
            && written.out.Done? && Reliable(written.w.fates)
            && CommittedForGood(c, written.w, o, imports, incoming)
  {
    WriteManifestEffect(w.(manifest := w.manifest.(state := Committed)));
  }

  lemma FinishStays(c: Codec, e: Env, w: World, o: Live, imports: Option<Tree>, incoming: Option<Tree>)
    requires MidInstall(c, w, o) && LiveOf(w.disk) == o && Reliable(w.fates)
    requires Find(Kids(w.disk.journal), MergedName(e)) == Some(Dir(MergedOf(c, o, imports, incoming)))
    requires CopyableMerge(MergedOf(c, o, imports, incoming)) && BackupStays(w.disk, w.manifest)
    ensures var r := Finish(e, w);
            CommittedForGood(c, r.w, o, imports, incoming) && r.out.Failed? && Reliable(r.w.fates)
  {
    QuietSwap(c, w, o, imports, incoming);
    SwapEffect(c, w, o, imports, incoming);
    SwapKeepsJournal(c, w, o, imports, incoming);
    var swapped := Swap(w, MergedOf(c, o, imports, incoming));
    CommitStays(c, swapped.w, o, imports, incoming);
    RetireStays(c, WriteManifest(swapped.w.(manifest := swapped.w.manifest.(state := Committed))).w, o, imports, incoming);
  }

  lemma ProceedStays(c: Codec, e: Env, w: World, o: Live, imports: Option<Tree>, incoming: Option<Tree>)
    requires ReadyToBegin(c, e, w, o, imports, incoming) && Reliable(w.fates)
    requires CopyableMerge(MergedOf(c, o, imports, incoming)) && !Removable(BackupTree(o), 0)
    ensures var r := Proceed(e, w);
            CommittedForGood(c, r.w, o, imports, incoming) && r.out.Failed?
  {
    EntryNames(e);
    BeginEffect(c, e, w, o, imports, incoming);
    var begun := Begin(e, w);
    FinishStays(c, e, begun.w, o, imports, incoming);
    TidyMergedKeeps(c, e, Finish(e, begun.w), o, imports, incoming);
  }

  lemma InstallStays(c: Codec, e: Env, w: World, o: Live, imports: Option<Tree>, incoming: Option<Tree>)
    requires CanonicalLive(o) && Inv(c, w.disk, o, imports, incoming)
    requires w.manifest == PREPARED && ManifestOn(w.disk) == Some(PREPARED)
    requires Fresh(e, w.disk) && Accepted(e, w.disk) && Reliable(w.fates)
    requires CopyableMerge(MergedOf(c, o, imports, incoming)) && !Removable(BackupTree(o), 0)
    ensures var r := Install(c, e, w);
            CommittedForGood(c, r.w, o, imports, incoming) && r.out.Failed?
  {
    QuietStage(c, e, w);
    StagedIsReady(c, e, w, o, imports, incoming);
    ProceedStays(c, e, Stage(c, e, w).w, o, imports, incoming);
  }

  /** Nothing ever removes the transaction of an accepted import with an object
      nested deeper than six: a quiet startup commits it, fails to retire it, and
      so does every later startup, whatever happens during it. */
  lemma DeepImportSticks(c: Codec, e: Env, d: Disk, fates: seq<Fate>, later: seq<(Env, seq<Fate>)>, o: Live,
                         imports: Option<Tree>, incoming: Option<Tree>)
    requires CanonicalLive(o) && Inv(c, d, o, imports, incoming) && ManifestOn(d) == Some(PREPARED)
    requires !e.locked && Fresh(e, d) && Accepted(e, d) && Reliable(fates)
    requires (o.settings.Some? ==> o.settings.value.File?) && (o.pending.Some? ==> o.pending.value.File?)
    requires CopyableMerge(MergedOf(c, o, imports, incoming)) && !Shallow(o)
    ensures var after := Recover(c, e, d, fates).w.disk;
            && ManifestOn(after).Some? && ManifestOn(after).value.state.Committed?
            && LiveOf(after) == Goal(c, o, imports, incoming)
            && Unattended(c, after, later).journal.Some?
  {
    var w := World(d, Later(fates), PREPARED);
    ReliableLater(fates);
    BackupRemovableExact(o);
    InstallStays(c, e, w, o, imports, incoming);
    var i := Install(c, e, w);
    assert Recover(c, e, d, fates) == Conclude(i) == i;
    StuckForever(c, i.w.disk, i.w.manifest, later);
  }

  lemma {:induction false} NestedMeasures(levels: nat)
    ensures var t := Nested(levels);
            t.Dir? ==> !Linked(t.kids) && AllEntries(t.kids) == levels && TotalSize(t.kids) == 0
  {
    if levels > 0 { NestedMeasures(levels - 1); }
  }

  lemma DeepBackup(t: Tree)
    ensures BackupTree(Live(map["BT_backup" := t], None, None)) == Dir(Cons(DATA, Dir(Cons("BT_backup", t, Nil)), Nil))
  {
    var data := map["BT_backup" := t];
    var backup := AddObject(Dir(Nil), "BT_backup", Some(t));
    assert DATA_OBJECTS[0] == "BT_backup" && Get(data, "BT_backup") == Some(t);
    assert AddObjects(backup, data, DATA_OBJECTS[1..]) == backup by {
      AbsentObjects(backup, data, DATA_OBJECTS[1..]);
    }
  }

  lemma {:induction false} AbsentObjects(backup: Tree, data: map<string, Tree>, names: seq<string>)
    requires forall n | n in names :: n !in data
    ensures AddObjects(backup, data, names) == backup
    decreases |names|
  {
    if names != [] { AbsentObjects(backup, data, names[1..]); }
  }

  function AddAll(f: Forest, records: Forest): Forest
    decreases records
  {
    if records.Nil? then f else AddAll(Put(f, records.name, records.tree), records.rest)
  }

  function FileStore(objects: Forest, imports: Option<Tree>, sqlite: bool): Forest {
    Put(objects, "BT_backup",
        Dir(AddAll(Kids(Find(objects, "BT_backup")), Kids(Find(Kids(imports), "BT_backup")))))
  }

  /** A store of one file for each record, new ones beside those it finds. */
  ghost predicate StoresFiles(c: Codec) {
    forall objects, imports, sqlite :: c.store(objects, imports, sqlite) == FileStore(objects, imports, sqlite)
  }

  /** An import of one record. */
  function OneRecord(record: string): Tree {
    Dir(Cons("BT_backup", Dir(Cons(record, File(Bytes(0, Opaque(1))), Nil)), Nil))
  }

  /** Its publication over a profile with one object. */
  function PublishedOver(c: Codec, t: Tree, imports: Tree): Disk {
    Disk(map["BT_backup" := t], None, None, Some(Dir(PreparedJournal(c, imports, map[]))), map[], map[])
  }

  const QUIET_ENV := Env(false, true, true, "")

  /** One object, too deep for the removal of its backup. */
  predicate TooDeep(t: Tree) {
    && t.Dir? && Canonical(t) && Copyable(t, 0) && Height(t) > 6 && Entries(t.kids) < 100
    && !Linked(t.kids) && AllEntries(t.kids) < 100 && TotalSize(t.kids) == 0
  }

  lemma NestedTooDeep(levels: nat)
    requires levels == 7
    ensures TooDeep(Nested(levels))
  {
    NestedHeight(levels);
    NestedCopyable(levels, 0);
    NestedMeasures(levels);
    NestedKids(levels);
  }

  lemma OneDirectory(name: string, t: Tree)
    requires t.Dir?
    ensures var f := Cons(name, t, Nil);
            (Linked(f) <==> Linked(t.kids)) && AllEntries(f) == 1 + AllEntries(t.kids) && TotalSize(f) == TotalSize(t.kids)
  {
    var none := Forest.Nil;
    assert !Linked(none) && AllEntries(none) == 0 && TotalSize(none) == 0;
  }

  lemma DeepProfile(t: Tree)
    requires TooDeep(t)
    ensures var o := Live(map["BT_backup" := t], None, None);
            CanonicalLive(o) && CopyableLive(o) && !Shallow(o) && Inventory(BackupTree(o)).Some?
  {
    DeepBackup(t);
    OneDirectory("BT_backup", t);
    OneDirectory(DATA, Dir(Cons("BT_backup", t, Nil)));
    assert "BT_backup" == DATA_OBJECTS[0];
  }

  lemma {:induction false} PutCopyable(f: Forest, name: string, t: Tree, depth: nat)
    requires CopyableKids(f, depth) && Copyable(t, depth)
    ensures CopyableKids(Put(f, name, t), depth) && Entries(Put(f, name, t)) <= Entries(f) + 1
  {
    if f.Cons? && f.name != name && !Less(name, f.name) { PutCopyable(f.rest, name, t, depth); }
  }

  /** What the merged store of such a profile holds. */
  lemma DeepMerge(c: Codec, t: Tree, record: string, o: Live, merged: Forest)
    requires StoresFiles(c) && TooDeep(t) && o == Live(map["BT_backup" := t], None, None)
    requires merged == MergedOf(c, o, Some(OneRecord(record)), None)
    ensures CopyableMerge(merged)
    ensures Find(Kids(Find(merged, "BT_backup")), record).Some?
  {
    var objects, file := Cons("BT_backup", t, Nil), File(Bytes(0, Opaque(1)));
    var stored := Dir(Put(t.kids, record, file));
    DeepBackup(t);
    BackupHolds(o);
    OneRecordStored(t, record, objects);
    assert merged == Put(objects, "BT_backup", stored);
    PutCopyable(t.kids, record, file, 1);
    FindPut(t.kids, record, file, record);
    forall n ensures Find(merged, n) == if n == "BT_backup" then Some(stored) else None {
      FindPut(objects, "BT_backup", stored, n);
    }
  }

  lemma OneRecordStored(t: Tree, record: string, objects: Forest)
    requires t.Dir? && objects == Cons("BT_backup", t, Nil)
    ensures FileStore(objects, Some(OneRecord(record)), false)
         == Put(objects, "BT_backup", Dir(Put(t.kids, record, File(Bytes(0, Opaque(1))))))
  {
    var file := File(Bytes(0, Opaque(1)));
    var records := Cons(record, file, Nil);
    assert Kids(Find(Kids(Some(OneRecord(record))), "BT_backup")) == records;
    assert AddAll(t.kids, records) == AddAll(Put(t.kids, record, file), Nil) == Put(t.kids, record, file);
  }

  lemma PublishedJournal(c: Codec, t: Tree, imports: Tree)
    ensures var d := PublishedOver(c, t, imports);
            var kids := Kids(d.journal);
            && Sorted(kids) && Find(kids, SETTINGS).None? && Find(kids, IMPORTS) == Some(imports)
            && ManifestOn(d) == Some(PREPARED)
            && (forall n | n !in {IMPORTS, MANIFEST} :: Find(kids, n).None?)
  {
    PreparedJournalHolds(c, imports, map[]);
    var kids := Kids(PublishedOver(c, t, imports).journal);
    assert SafeOf(map[]) == map[];
    var manifest := Cons(MANIFEST, PreparedManifest(), Nil);
    assert kids == Cons(IMPORTS, imports, manifest);
    assert Find(manifest, SETTINGS).None? && forall n | n != MANIFEST :: Find(manifest, n).None?;
  }

  lemma PublishedAccepted(c: Codec, t: Tree, imports: Tree)
    requires var o := Live(map["BT_backup" := t], None, None);
             CopyableLive(o) && Inventory(BackupTree(o)).Some?
    ensures var d := PublishedOver(c, t, imports);
            Fresh(QUIET_ENV, d) && Accepted(QUIET_ENV, d)
  {
    var o := Live(map["BT_backup" := t], None, None);
    BackupHolds(o);
    EntryNames(QUIET_ENV);
    PublishedJournal(c, t, imports);
    assert IntactSettings(Some(BackupTree(o)), None);
  }

  /** An import of one record over such an object ends with the record in the
      profile, and with its transaction there for good. */
  lemma DeepProfileSticks(c: Codec, t: Tree, record: string, fates: seq<Fate>, later: seq<(Env, seq<Fate>)>)
    requires StoresFiles(c) && TooDeep(t) && Reliable(fates)
    ensures var after := Recover(c, QUIET_ENV, PublishedOver(c, t, OneRecord(record)), fates).w.disk;
            && ManifestOn(after).Some? && ManifestOn(after).value.state.Committed?
            && Find(Kids(Get(after.data, "BT_backup")), record).Some?
            && Unattended(c, after, later).journal.Some?
  {
    var imports := OneRecord(record);
    var d := PublishedOver(c, t, imports);
    var o := LiveOf(d);
    var merged := MergedOf(c, o, Some(imports), None);
    PublishedJournal(c, t, imports);
    DeepProfile(t);
    DeepMerge(c, t, record, o, merged);
    PublishedAccepted(c, t, imports);
    assert Inv(c, d, o, Some(imports), None);
    DeepImportSticks(c, QUIET_ENV, d, fates, later, o, Some(imports), None);
    ReplacedGet(o.data, DATA_OBJECTS, merged, "BT_backup");
    assert "BT_backup" == DATA_OBJECTS[0];
  }

  function FileCodec(): Codec {
    Codec(FileStore, (values: map<string, string>) => 0, (listing: map<Path, Mark>) => 0)
  }

  /** There are such a store and such an object. */
  lemma DeepProfileExists()
    ensures StoresFiles(FileCodec()) && TooDeep(Nested(7))
  {
    NestedTooDeep(7);
  }

  // ----- Imports that are interrupted and never roll back -----

  /** While the backup does not verify, every startup leaves the disk as it is. */
  lemma {:induction false} UnfitForever(c: Codec, d: Disk, m: Manifest, startups: seq<(Env, seq<Fate>)>)
    requires d.journal.Some? && ManifestOn(d) == Some(m) && m.version == 1 && m.state.Installing? && !Verified(d, m)
    ensures Unattended(c, d, startups) == d
    decreases |startups|
  {
    if startups != [] {
      assert Recover(c, startups[0].0, d, startups[0].1).w.disk == d;
      UnfitForever(c, d, m, startups[1..]);
    }
  }

  /** A swap that dies after its first unlink. */
  lemma FirstSwap(w: World, merged: Forest)
    requires w.fates == [Works, Crashes] && "BT_backup" in w.disk.data
    requires var t := w.disk.data["BT_backup"]; t.Dir? && t.kids.Cons? && Removable(t, 0)
    ensures var r := Swap(w, merged);
            && r.out.Crashed? && r.w.manifest == w.manifest
            && r.w.disk == w.disk.(data := r.w.disk.data) && r.w.disk.data != w.disk.data
  {
    var t := w.disk.data["BT_backup"];
    assert DATA_OBJECTS[0] == "BT_backup";
    FirstUnlink(t, 0);
    FirstUnlinkKids(t.kids, 1);
    var removed := RemoveObject(w.fates, Get(w.disk.data, "BT_backup"));
    assert removed.out.Crashed?;
    var r := ReplaceObject(w, "BT_backup", Find(merged, "BT_backup"));
    assert Get(r.w.disk.data, "BT_backup") != Get(w.disk.data, "BT_backup");
    assert ReplaceData(w, DATA_OBJECTS, merged) == r;
  }

  ghost predicate Sunk(c: Codec, w: World, o: Live) {
    && w.manifest.state.Installing? && w.manifest.version == 1
    && w.disk.journal.Some? && ManifestOn(w.disk) == Some(w.manifest)
    && LiveOf(w.disk) != o && !Verified(w.disk, w.manifest)
  }

  lemma ProceedSinks(c: Codec, e: Env, w: World, o: Live, imports: Option<Tree>, incoming: Option<Tree>)
    requires ReadyToBegin(c, e, w, o, imports, incoming) && w.fates == [Works, Works, Crashes]
    requires "BT_backup" in o.data && o.data["BT_backup"].Dir? && o.data["BT_backup"].kids.Cons? && !IndexFits(c, o)
    ensures var r := Proceed(e, w);
            r.out.Crashed? && Sunk(c, r.w, o)
  {
    EntryNames(e);
    BeginEffect(c, e, w, o, imports, incoming);
    var begun := Begin(e, w);
    assert begun.w.fates == [Works, Crashes];
    assert "BT_backup" == DATA_OBJECTS[0];
    CopyableIsRemovable(o.data["BT_backup"], 0);
    FirstSwap(begun.w, MergedOf(c, o, imports, incoming));
    BeginIntact(c, e, w, o, imports, incoming);
    var swapped := Swap(begun.w, MergedOf(c, o, imports, incoming));
    assert Intact(c, swapped.w.disk, swapped.w.manifest, o);
    IntactVerifies(c, swapped.w.disk, swapped.w.manifest, o);
  }

  lemma BeginIntact(c: Codec, e: Env, w: World, o: Live, imports: Option<Tree>, incoming: Option<Tree>)
    requires ReadyToBegin(c, e, w, o, imports, incoming) && Begin(e, w).out.Done?
    ensures var begun := Begin(e, w);
            && Intact(c, begun.w.disk, begun.w.manifest, o) && begun.w.manifest.digest == OriginalDigest(c, o)
            && begun.w.manifest.version == 1
  {
    EntryNames(e);
    WriteManifestEffect(w.(manifest := w.manifest.(state := Installing,
                                                    backup := Some(Location(TEMP, BackupName(e))),
                                                    digest := IndexDigest(w.disk))));
  }

  /** The staging and the decision work, and the replacement dies after its first
      unlink. */
  function SinkingSchedule(o: Live): seq<Fate> {
    [Works] + (Good(StageCost(o)) + [Works, Works, Crashes])
  }

  /** When the index of an accepted import does not fit, one crash leaves a
      profile that has lost data, and no startup ever changes it again. */
  lemma UnfitImportSticks(c: Codec, e: Env, d: Disk, later: seq<(Env, seq<Fate>)>, o: Live,
                          imports: Option<Tree>, incoming: Option<Tree>)
    requires CanonicalLive(o) && Inv(c, d, o, imports, incoming) && ManifestOn(d) == Some(PREPARED)
    requires !e.locked && Fresh(e, d) && Accepted(e, d) && !IndexFits(c, o)
    requires "BT_backup" in o.data && o.data["BT_backup"].Dir? && o.data["BT_backup"].kids.Cons?
    ensures var after := Recover(c, e, d, SinkingSchedule(o)).w.disk;
            && ManifestOn(after).Some? && ManifestOn(after).value.state.Installing?
            && LiveOf(after) != o && Unattended(c, after, later) == after
  {
    var ending := [Works, Works, Crashes];
    var w := World(d, Good(StageCost(o)) + ending, PREPARED);
    GoodWorks(StageCost(o), ending);
    assert Later(SinkingSchedule(o)) == w.fates;
    StageDecides(c, e, w, o);
    StageSchedule(c, e, w);
    StagedIsReady(c, e, w, o, imports, incoming);
    var staged := Stage(c, e, w);
    ProceedSinks(c, e, staged.w, o, imports, incoming);
    var i := Proceed(e, staged.w);
    assert Recover(c, e, d, SinkingSchedule(o)) == Conclude(Install(c, e, w)) == i;
    UnfitForever(c, i.w.disk, i.w.manifest, later);
  }

  // ----- An index of more than 16 MiB -----

  function PathSize(p: Path): nat {
    if p == [] then 0 else |p[0]| + PathSize(p[1..])
  }

  ghost function Pick(m: map<Path, Mark>): (p: Path)
    requires m.Keys != {}
    ensures p in m
  {
    var p :| p in m;
    p
  }

  /** The names in the paths of a JSON object, one byte for each character. */
  ghost function JsonSize(m: map<Path, Mark>): nat
    decreases |m.Keys|
  {
    if m.Keys == {} then 0
    else
      var rest := m - {Pick(m)};
      assert rest.Keys == m.Keys - {Pick(m)};
      PathSize(Pick(m)) + JsonSize(rest)
  }

  /** An index spells all its paths. */
  ghost predicate SpellsPaths(c: Codec) {
    forall m :: c.indexSize(m) >= JsonSize(m)
  }

  ghost function SpellingCodec(): Codec {
    Codec(FileStore, (values: map<string, string>) => 0, (listing: map<Path, Mark>) => JsonSize(listing))
  }

  lemma SpellingCodecSpells()
    ensures SpellsPaths(SpellingCodec()) && StoresFiles(SpellingCodec())
  {
  }

  function Times(n: nat, size: nat): nat {
    if n == 0 then 0 else Times(n - 1, size) + size
  }

  lemma {:induction false} TimesIs(n: nat, size: nat)
    ensures Times(n, size) == n * size
  {
    if n > 0 {
      TimesIs(n - 1, size);
      assert n * size == (n - 1) * size + size;
    }
  }

  lemma {:induction false} JsonAtLeast(m: map<Path, Mark>, paths: set<Path>, size: nat)
    requires paths <= m.Keys && forall p | p in paths :: PathSize(p) >= size
    ensures JsonSize(m) >= Times(|paths|, size)
    decreases |m.Keys|
  {
    if m.Keys == {} {
      assert paths == {};
    } else {
      var p := Pick(m);
      var rest := m - {p};
      assert rest.Keys == m.Keys - {p};
      if p in paths {
        assert |paths| == |paths - {p}| + 1;
        JsonAtLeast(rest, paths - {p}, size);
      } else {
        JsonAtLeast(rest, paths, size);
      }
    }
  }

  /** Files with long names that differ in their first character. */
  function NameOf(i: nat, long: string): string
    requires i < 30000
  {
    [(256 + i) as char] + long
  }

  function Wide(i: nat, n: nat, long: string): Forest
    requires i <= n <= 30000
    decreases n - i
  {
    if i == n then Nil else Cons(NameOf(i, long), File(Bytes(0, Opaque(0))), Wide(i + 1, n, long))
  }

  lemma {:induction false} WideMeasures(i: nat, n: nat, long: string, depth: nat)
    requires i <= n <= 30000 && depth <= MAX_DEPTH
    ensures var f := Wide(i, n, long);
            && CanonicalKids(f) && CopyableKids(f, depth) && !Linked(f) && KidsHeight(f) == 0
            && Entries(f) == AllEntries(f) == n - i && TotalSize(f) == 0
    decreases n - i
  {
    if i < n { WideMeasures(i + 1, n, long, depth); }
  }

  lemma {:induction false} WideFind(i: nat, n: nat, long: string, k: nat)
    requires i <= k < n <= 30000
    ensures Find(Wide(i, n, long), NameOf(k, long)) == Some(File(Bytes(0, Opaque(0))))
    decreases n - i
  {
    if i < k {
      assert NameOf(i, long)[0] != NameOf(k, long)[0];
      WideFind(i + 1, n, long, k);
    }
  }

  /** `n` files in two nested directories with a long name. */
  function WideTree(n: nat, long: string): Tree
    requires n <= 30000
  {
    Dir(Cons(long, Dir(Cons(long, Dir(Wide(0, n, long)), Nil)), Nil))
  }

  function WidePath(k: nat, long: string): Path
    requires k < 30000
  {
    [DATA, "BT_backup", long, long, NameOf(k, long)]
  }

  function WidePaths(n: nat, long: string): (paths: set<Path>)
    requires n <= 30000
    ensures forall p | p in paths :: exists k: nat :: k < n && p == WidePath(k, long)
  {
    if n == 0 then {} else WidePaths(n - 1, long) + {WidePath(n - 1, long)}
  }

  lemma WidePathsDiffer(i: nat, k: nat, long: string)
    requires i < k < 30000
    ensures WidePath(i, long) != WidePath(k, long)
  {
    assert NameOf(i, long)[0] != NameOf(k, long)[0];
    assert WidePath(i, long)[4] != WidePath(k, long)[4];
  }

  lemma {:induction false} WidePathCount(n: nat, long: string)
    requires n <= 30000
    ensures |WidePaths(n, long)| == n
  {
    if n > 0 {
      WidePathCount(n - 1, long);
      forall k: nat | k < n - 1 ensures WidePath(k, long) != WidePath(n - 1, long) {
        WidePathsDiffer(k, n - 1, long);
      }
    }
  }

  lemma WidePathSize(k: nat, long: string)
    requires k < 30000 && |long| == 250
    ensures PathSize(WidePath(k, long)) >= 750
  {
    var p := WidePath(k, long);
    assert p[1..][1..] == [long, long, NameOf(k, long)];
    LongNames(long, NameOf(k, long));
    assert PathSize(p) == |p[0]| + PathSize(p[1..]) && PathSize(p[1..]) == |p[1]| + PathSize(p[1..][1..]);
  }

  lemma LongNames(long: string, name: string)
    ensures PathSize([long, long, name]) == |long| + (|long| + |name|)
  {
    var p := [long, long, name];
    assert p[1..] == [long, name] && [long, name][1..] == [name] && [name][1..] == [];
    assert PathSize([name]) == |name|;
  }

  lemma WidePathListed(n: nat, long: string, k: nat)
    requires k < n <= 30000
    ensures var f := Cons(DATA, Dir(Cons("BT_backup", WideTree(n, long), Nil)), Nil);
            At(f, WidePath(k, long)).Some?
  {
    WideFind(0, n, long, k);
    var p := WidePath(k, long);
    var files := Wide(0, n, long);
    assert p[1..][1..][1..][1..] == [NameOf(k, long)];
    assert At(files, [NameOf(k, long)]).Some?;
    var inner := Cons(long, Dir(files), Nil);
    assert p[1..][1..][1..] == [long, NameOf(k, long)] && [long, NameOf(k, long)][1..] == [NameOf(k, long)];
    assert At(inner, [long, NameOf(k, long)]).Some?;
    var outer := Cons(long, Dir(inner), Nil);
    var q := p[1..][1..];
    assert At(outer, q).Some?;
    assert At(Cons("BT_backup", Dir(outer), Nil), p[1..]).Some?;
  }

  lemma WideMeasured(n: nat, long: string)
    requires n <= 29990
    ensures var t := WideTree(n, long);
            && Canonical(t) && Copyable(t, 0) && Height(t) <= 6
            && !Linked(t.kids) && AllEntries(t.kids) == n + 2 && TotalSize(t.kids) == 0
  {
    WideMeasures(0, n, long, 3);
    var files := Dir(Wide(0, n, long));
    OneDirectory(long, files);
    OneDirectory(long, Dir(Cons(long, files, Nil)));
    assert Copyable(files, 2) && Canonical(files);
    OneCopyable(long, files, 2);
    OneCopyable(long, Dir(Cons(long, files, Nil)), 1);
    assert Height(files) <= 1;
  }

  lemma OneCopyable(name: string, t: Tree, depth: nat)
    requires 0 < depth && Copyable(t, depth) && Canonical(t)
    ensures var d := Dir(Cons(name, t, Nil));
            Copyable(d, depth - 1) && Canonical(d) && Height(d) == 1 + Height(t)
  {
    var none := Forest.Nil;
    assert CopyableKids(none, depth) && Entries(none) == 0 && KidsHeight(none) == 0 && CanonicalKids(none);
  }

  lemma OneObject(t: Tree)
    requires t.Dir? && Canonical(t) && Copyable(t, 0) && Height(t) <= 6
    requires !Linked(t.kids) && AllEntries(t.kids) <= 29998 && TotalSize(t.kids) == 0
    ensures var o := Live(map["BT_backup" := t], None, None);
            && CanonicalLive(o) && CopyableLive(o) && Shallow(o)
            && Inventory(BackupTree(o)) == Some(Listing(Cons(DATA, Dir(Cons("BT_backup", t, Nil)), Nil)))
  {
    DeepBackup(t);
    OneDirectory("BT_backup", t);
    OneDirectory(DATA, Dir(Cons("BT_backup", t, Nil)));
    assert "BT_backup" == DATA_OBJECTS[0];
  }

  /** Some 23000 files with names of 251 characters, two directories deep: the
      import accepts them, and their index exceeds 16 MiB. */
  lemma WideProfileUnfit(c: Codec, n: nat, long: string)
    requires SpellsPaths(c) && 23000 <= n <= 29990 && |long| == 250
    ensures var o := Live(map["BT_backup" := WideTree(n, long)], None, None);
            && CanonicalLive(o) && CopyableLive(o) && Shallow(o) && Inventory(BackupTree(o)).Some?
            && !IndexFits(c, o)
  {
    WideMeasured(n, long);
    OneObject(WideTree(n, long));
    WideCanonical(n, long);
    WideIndex(c, n, long, Cons(DATA, Dir(Cons("BT_backup", WideTree(n, long), Nil)), Nil));
  }

  lemma WideCanonical(n: nat, long: string)
    requires n <= 29990
    ensures CanonicalKids(Cons(DATA, Dir(Cons("BT_backup", WideTree(n, long), Nil)), Nil))
  {
    WideMeasured(n, long);
    var none := Forest.Nil;
    assert CanonicalKids(none) && CanonicalKids(Cons("BT_backup", WideTree(n, long), none));
  }

  lemma WideIndex(c: Codec, n: nat, long: string, f: Forest)
    requires SpellsPaths(c) && 23000 <= n <= 29990 && |long| == 250
    requires f == Cons(DATA, Dir(Cons("BT_backup", WideTree(n, long), Nil)), Nil) && CanonicalKids(f)
    ensures c.indexSize(Listing(f)) > MAX_INDEX
  {
    var paths := WidePaths(n, long);
    forall p | p in paths ensures p in Listing(f) && PathSize(p) >= 750 {
      var k: nat :| k < n && p == WidePath(k, long);
      WidePathListed(n, long, k);
      ListingAt(f, p);
      WidePathSize(k, long);
    }
    WidePathCount(n, long);
    JsonAtLeast(Listing(f), paths, 750);
    TimesIs(n, 750);
  }

  /** So with it, an interrupted import is never rolled back. */
  lemma WideProfileSticks(c: Codec, n: nat, long: string, record: string, later: seq<(Env, seq<Fate>)>)
    requires SpellsPaths(c) && 23000 <= n <= 29990 && |long| == 250
    ensures var d := PublishedOver(c, WideTree(n, long), OneRecord(record));
            var after := Recover(c, QUIET_ENV, d, SinkingSchedule(LiveOf(d))).w.disk;
            && ManifestOn(after).Some? && ManifestOn(after).value.state.Installing?
            && LiveOf(after) != LiveOf(d) && Unattended(c, after, later) == after
  {
    var t, imports := WideTree(n, long), OneRecord(record);
    var d := PublishedOver(c, t, imports);
    WideProfileUnfit(c, n, long);
    PublishedJournal(c, t, imports);
    PublishedAccepted(c, t, imports);
    assert Inv(c, d, LiveOf(d), Some(imports), None);
    UnfitImportSticks(c, QUIET_ENV, d, later, LiveOf(d), Some(imports), None);
  }
}
