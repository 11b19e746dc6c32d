/** The end points of a profile import, the crash invariant between them, and
    what every step does to it. */
module ImportTheorems {
  import opened Wrappers
  import opened Strings
  import opened FileTrees
  import opened ImportSteps

  // ----- Specification of the two end points -----

  function AddObjects(backup: Tree, data: map<string, Tree>, names: seq<string>): Tree
    decreases |names|
  {
    if names == [] then backup
    else AddObjects(AddObject(backup, names[0], Get(data, names[0])), data, names[1..])
  }

  /** The complete backup of a live profile. */
  function BackupTree(o: Live): Tree {
    AddFile(AddFile(AddObjects(Dir(Nil), o.data, DATA_OBJECTS), SETTINGS, o.settings), PENDING, o.pending)
  }

  function Replaced(data: map<string, Tree>, names: seq<string>, source: Forest): map<string, Tree>
    decreases |names|
  {
    if names == [] then data
    else Replaced(Set(data, names[0], Find(source, names[0])), names[1..], source)
  }

  function MergedOf(c: Codec, o: Live, imports: Option<Tree>, incoming: Option<Tree>): Forest {
    MergedForest(c, Some(BackupTree(o)), "torrents.db" in o.data, imports, incoming)
  }

  /** The profile a completed import leaves. */
  function Goal(c: Codec, o: Live, imports: Option<Tree>, incoming: Option<Tree>): Live {
    var merged := MergedOf(c, o, imports, incoming);
    Live(Replaced(o.data, DATA_OBJECTS, merged),
         if Find(merged, SETTINGS).Some? then Find(merged, SETTINGS) else o.settings,
         None)
  }

  predicate CanonicalLive(o: Live) {
    && (forall n | n in o.data :: Canonical(o.data[n]))
    && (o.settings.Some? ==> Canonical(o.settings.value))
    && (o.pending.Some? ==> Canonical(o.pending.value))
  }

  predicate CopyableLive(o: Live) {
    && (forall n | n in DATA_OBJECTS && n in o.data :: Copyable(o.data[n], 0))
    && (o.settings.Some? ==> Copyable(o.settings.value, 0))
    && (o.pending.Some? ==> Copyable(o.pending.value, 0))
  }

  /** Every live object that a rollback has to clear can be removed. */
  predicate Clearable(o: Live) {
    && (forall n | n in DATA_OBJECTS && n in o.data :: Removable(o.data[n], 0))
    && (o.settings.Some? ==> Removable(o.settings.value, 0))
    && (o.pending.Some? ==> Removable(o.pending.value, 0))
  }

  ghost predicate SameOutside(a: map<string, Tree>, b: map<string, Tree>) {
    forall n | n !in DATA_OBJECTS :: Get(a, n) == Get(b, n)
  }

  // ----- Effects of the steps -----

  lemma {:induction false} CopyObjectExact(fates: seq<Fate>, source: Option<Tree>)
    ensures var r := CopyObject(fates, source);
            && (r.out.Done? ==> r.tree == source && (source.Some? ==> Copyable(source.value, 0)))
            && (Reliable(fates) ==>
                && Reliable(r.fates) && !r.out.Crashed?
                && (r.out.Done? <==> source.None? || Copyable(source.value, 0)))
            && (r.tree.Some? ==> Removable(r.tree.value, 0))
  {
    if source.Some? { CopyTreeExact(fates, source.value, 0); }
  }

  lemma {:induction false} RemoveObjectExact(fates: seq<Fate>, target: Option<Tree>)
    ensures var r := RemoveObject(fates, target);
            && (r.out.Done? <==> r.tree.None?)
            && (Reliable(fates) ==>
                && Reliable(r.fates) && !r.out.Crashed?
                && (r.out.Done? <==> target.None? || Removable(target.value, 0)))
            && (target.None? || Removable(target.value, 0) ==> r.tree.None? || Removable(r.tree.value, 0))
            && (target.Some? && !Removable(target.value, 0) ==> r.tree.Some? && !Removable(r.tree.value, 0))
  {
    if target.Some? { RemoveTreeExact(fates, target.value, 0); }
  }

  ghost predicate DataReplaced(w: World, names: seq<string>, source: Forest, r: Ran) {
    && r.w.manifest == w.manifest
    && r.w.disk == w.disk.(data := r.w.disk.data)
    && (forall n | n !in names :: Get(r.w.disk.data, n) == Get(w.disk.data, n))
    && (r.out.Done? ==> r.w.disk.data == Replaced(w.disk.data, names, source))
    && (Clearable(LiveOf(w.disk)) ==> Clearable(LiveOf(r.w.disk)))
    && (Reliable(w.fates) ==> Reliable(r.w.fates) && !r.out.Crashed?)
    && (Reliable(w.fates) && Clearable(LiveOf(w.disk))
        && (forall n | n in names :: n in DATA_OBJECTS && (Find(source, n).Some? ==> Copyable(Find(source, n).value, 0)))
        ==> r.out.Done?)
  }

  lemma {:induction false} ReplaceDataEffect(w: World, names: seq<string>, source: Forest)
    ensures DataReplaced(w, names, source, ReplaceData(w, names, source))
    decreases |names|
  {
    if names != [] {
      var name := names[0];
      var r := ReplaceObject(w, name, Find(source, name));
      var removed := RemoveObject(w.fates, Get(w.disk.data, name));
      RemoveObjectExact(w.fates, Get(w.disk.data, name));
      CopyObjectExact(removed.fates, Find(source, name));
      assert r.out.Done? ==> r.w.disk.data == Set(w.disk.data, name, Find(source, name));
      if r.out.Done? {
        ReplaceDataEffect(r.w, names[1..], source);
      }
    }
  }

  lemma {:induction false} ReplacedGet(data: map<string, Tree>, names: seq<string>, source: Forest, n: string)
    ensures Get(Replaced(data, names, source), n) == if n in names then Find(source, n) else Get(data, n)
    decreases |names|
  {
    if names != [] {
      ReplacedGet(Set(data, names[0], Find(source, names[0])), names[1..], source, n);
    }
  }

  ghost predicate SettingsReplaced(w: World, pending: bool, source: Option<Tree>, r: Ran) {
    && r.w.manifest == w.manifest
    && r.w.disk == WithSettings(w.disk, pending, SettingsFile(r.w.disk, pending))
    && (r.out.Done? ==> SettingsFile(r.w.disk, pending) == source)
    && (Clearable(LiveOf(w.disk)) ==> Clearable(LiveOf(r.w.disk)))
    && (Reliable(w.fates) ==> Reliable(r.w.fates) && !r.out.Crashed?)
    && (Reliable(w.fates) && Clearable(LiveOf(w.disk)) && (source.Some? ==> Copyable(source.value, 0)) ==> r.out.Done?)
  }

  lemma RemoveSettingsEffect(w: World, pending: bool)
    ensures SettingsReplaced(w, pending, None, RemoveSettings(w, pending))
  {
    RemoveObjectExact(w.fates, SettingsFile(w.disk, pending));
  }

  lemma RestoreSettingsEffect(w: World, pending: bool, source: Option<Tree>)
    ensures SettingsReplaced(w, pending, source, RestoreSettings(w, pending, source))
  {
    RemoveSettingsEffect(w, pending);
    CopyObjectExact(RemoveSettings(w, pending).w.fates, source);
  }

  lemma CopySettingsEffect(w: World, pending: bool, source: Option<Tree>)
    ensures var r := CopySettings(w, pending, source);
            && r.w.manifest == w.manifest
            && r.w.disk == WithSettings(w.disk, pending, SettingsFile(r.w.disk, pending))
            && (r.out.Done? ==> SettingsFile(r.w.disk, pending)
                                == if source.Some? then source else SettingsFile(w.disk, pending))
            && (Clearable(LiveOf(w.disk)) ==> Clearable(LiveOf(r.w.disk)))
            && (Reliable(w.fates) ==> Reliable(r.w.fates) && !r.out.Crashed?)
            && (Reliable(w.fates) && (source.Some? ==> Copyable(source.value, 0)) ==> r.out.Done?)
  {
    CopyObjectExact(w.fates, source);
  }

  // ----- The backup holds exactly the live profile -----

  lemma {:induction false} AddObjectsFind(backup: Tree, data: map<string, Tree>, names: seq<string>, n: string)
    requires backup.Dir?
    ensures var r := AddObjects(backup, data, names);
            && r.Dir?
            && Find(BackupObjects(Some(r)), n)
               == (if n in names && n in data then Some(data[n]) else Find(BackupObjects(Some(backup)), n))
            && (forall k | k != DATA :: Find(r.kids, k) == Find(backup.kids, k))
    decreases |names|
  {
    if names != [] {
      var o := Get(data, names[0]);
      var next := AddObject(backup, names[0], o);
      if o.Some? {
        var objects := BackupObjects(Some(backup));
        FindPut(backup.kids, DATA, Dir(Put(objects, names[0], o.value)), DATA);
        FindPut(objects, names[0], o.value, n);
        forall k | k != DATA ensures Find(next.kids, k) == Find(backup.kids, k) {
          FindPut(backup.kids, DATA, Dir(Put(objects, names[0], o.value)), k);
        }
      }
      AddObjectsFind(next, data, names[1..], n);
    }
  }

  lemma AddFileFind(backup: Tree, name: string, o: Option<Tree>, n: string)
    requires backup.Dir?
    ensures AddFile(backup, name, o).Dir?
    ensures Find(AddFile(backup, name, o).kids, n) == if n == name && o.Some? then o else Find(backup.kids, n)
  {
    if o.Some? { FindPut(backup.kids, name, o.value, n); }
  }

  /** A backup gives back every object and which ones were absent. */
  lemma BackupHolds(o: Live)
    ensures var b := Some(BackupTree(o));
            && b.value.Dir?
            && (forall n | n in DATA_OBJECTS :: Find(BackupObjects(b), n) == Get(o.data, n))
            && Find(Kids(b), SETTINGS) == o.settings
            && Find(Kids(b), PENDING) == o.pending
  {
    var t0 := AddObjects(Dir(Nil), o.data, DATA_OBJECTS);
    AddObjectsFind(Dir(Nil), o.data, DATA_OBJECTS, "");
    var t1 := AddFile(t0, SETTINGS, o.settings);
    forall n ensures t1.Dir? && Find(t1.kids, n) == if n == SETTINGS && o.settings.Some? then o.settings else Find(t0.kids, n)
    {
      AddFileFind(t0, SETTINGS, o.settings, n);
    }
    forall n ensures Find(Kids(Some(BackupTree(o))), n) == if n == PENDING && o.pending.Some? then o.pending else Find(t1.kids, n)
    {
      AddFileFind(t1, PENDING, o.pending, n);
    }
    forall n | n in DATA_OBJECTS ensures Find(BackupObjects(Some(BackupTree(o))), n) == Get(o.data, n) {
      AddObjectsFind(Dir(Nil), o.data, DATA_OBJECTS, n);
    }
  }

  lemma {:induction false} AddObjectsCanonical(backup: Tree, data: map<string, Tree>, names: seq<string>)
    requires backup.Dir? && Canonical(backup)
    requires forall n | n in data :: Canonical(data[n])
    ensures Canonical(AddObjects(backup, data, names))
    decreases |names|
  {
    if names != [] {
      var o := Get(data, names[0]);
      if o.Some? {
        var objects := BackupObjects(Some(backup));
        FindCanonical(backup.kids, DATA);
        PutCanonical(objects, names[0], o.value);
        PutCanonical(backup.kids, DATA, Dir(Put(objects, names[0], o.value)));
      }
      AddObjectsCanonical(AddObject(backup, names[0], o), data, names[1..]);
    }
  }

  lemma BackupCanonical(o: Live)
    requires CanonicalLive(o)
    ensures Canonical(BackupTree(o))
  {
    var t0 := AddObjects(Dir(Nil), o.data, DATA_OBJECTS);
    AddObjectsCanonical(Dir(Nil), o.data, DATA_OBJECTS);
    AddObjectsFind(Dir(Nil), o.data, DATA_OBJECTS, "");
    if o.settings.Some? { PutCanonical(t0.kids, SETTINGS, o.settings.value); }
    var t1 := AddFile(t0, SETTINGS, o.settings);
    if o.pending.Some? { PutCanonical(t1.kids, PENDING, o.pending.value); }
  }

  lemma {:induction false} BackUpObjectsEffect(w: World, dir: string, names: seq<string>)
    requires dir in w.disk.temp
    ensures var r := BackUpObjects(w, dir, names);
            && r.w.manifest == w.manifest
            && dir in r.w.disk.temp
            && r.w.disk == w.disk.(temp := w.disk.temp[dir := r.w.disk.temp[dir]])
            && (r.out.Done? ==>
                && r.w.disk.temp[dir] == AddObjects(w.disk.temp[dir], w.disk.data, names)
                && forall n | n in names && n in w.disk.data :: Copyable(w.disk.data[n], 0))
            && (Reliable(w.fates) ==>
                && Reliable(r.w.fates) && !r.out.Crashed?
                && ((forall n | n in names && n in w.disk.data :: Copyable(w.disk.data[n], 0)) ==> r.out.Done?))
    decreases |names|
  {
    if names != [] {
      var o := Get(w.disk.data, names[0]);
      CopyObjectExact(w.fates, o);
      var copied := CopyObject(w.fates, o);
      if copied.out.Done? {
        var after := w.(disk := w.disk.(temp := w.disk.temp[dir := AddObject(w.disk.temp[dir], names[0], copied.tree)]),
                        fates := copied.fates);
        BackUpObjectsEffect(after, dir, names[1..]);
      }
    }
  }

  lemma BackUpSettingsEffect(w: World, dir: string, pending: bool)
    requires dir in w.disk.temp
    ensures var r := BackUpSettings(w, dir, pending);
            var o := SettingsFile(w.disk, pending);
            && r.w.manifest == w.manifest
            && dir in r.w.disk.temp
            && r.w.disk == w.disk.(temp := w.disk.temp[dir := r.w.disk.temp[dir]])
            && (r.out.Done? ==>
                && (o.Some? ==> Copyable(o.value, 0))
                && r.w.disk.temp[dir] == AddFile(w.disk.temp[dir], if pending then PENDING else SETTINGS, o))
            && (Reliable(w.fates) ==>
                && Reliable(r.w.fates) && !r.out.Crashed?
                && ((o.Some? ==> Copyable(o.value, 0)) ==> r.out.Done?))
  {
    CopyObjectExact(w.fates, SettingsFile(w.disk, pending));
  }

  lemma MakeBackupEffect(w: World, dir: string)
    ensures var r := MakeBackup(w, dir);
            && r.w.manifest == w.manifest
            && r.w.disk == w.disk.(temp := r.w.disk.temp)
            && (r.out.Done? ==>
                && dir in r.w.disk.temp && r.w.disk.temp[dir] == BackupTree(LiveOf(w.disk))
                && CopyableLive(LiveOf(w.disk)))
            && (Reliable(w.fates) ==>
                && Reliable(r.w.fates) && !r.out.Crashed?
                && (CopyableLive(LiveOf(w.disk)) ==> r.out.Done?))
  {
    if Reliable(w.fates) { ReliableLater(w.fates); }
    var made := Attempt(w, w.disk.(temp := w.disk.temp[dir := Dir(Nil)]));
    if made.out.Done? {
      BackUpObjectsEffect(made.w, dir, DATA_OBJECTS);
      var data := BackUpObjects(made.w, dir, DATA_OBJECTS);
      if data.out.Done? {
        BackUpSettingsEffect(data.w, dir, false);
        var settings := BackUpSettings(data.w, dir, false);
        if settings.out.Done? {
          BackUpSettingsEffect(settings.w, dir, true);
        }
      }
    }
  }

  // ----- Journal entries -----

  lemma EntryNames(e: Env)
    ensures MergedName(e) !in {MANIFEST, IMPORTS, SETTINGS, INDEX}
    ensures ValidLocation(Location(TEMP, BackupName(e)))
  {
    assert MergedName(e)[0] == 'm';
  }

  lemma WithEntryEffect(d: Disk, name: string, t: Tree)
    requires Sorted(Kids(d.journal))
    ensures var d' := WithEntry(d, name, t);
            && d' == d.(journal := d'.journal) && d'.journal.Some? && d'.journal.value.Dir?
            && Sorted(Kids(d'.journal))
            && (forall n :: Find(Kids(d'.journal), n) == if n == name then Some(t) else Find(Kids(d.journal), n))
  {
    PutSorted(Kids(d.journal), name, t);
    forall n ensures Find(Kids(WithEntry(d, name, t).journal), n) == if n == name then Some(t) else Find(Kids(d.journal), n) {
      FindPut(Kids(d.journal), name, t, n);
    }
  }

  lemma WriteManifestEffect(w: World)
    requires Sorted(Kids(w.disk.journal))
    ensures var r := WriteManifest(w);
            && r.w.manifest == w.manifest
            && r.w.disk == w.disk.(journal := r.w.disk.journal)
            && (!r.out.Done? ==> r.w.disk == w.disk)
            && (r.out.Done? ==>
                && r.w.disk.journal.Some? && r.w.disk.journal.value.Dir?
                && Sorted(Kids(r.w.disk.journal))
                && ManifestOn(r.w.disk) == Some(w.manifest)
                && forall n | n != MANIFEST :: Find(Kids(r.w.disk.journal), n) == Find(Kids(w.disk.journal), n))
            && (Reliable(w.fates) ==> r.out.Done? && Reliable(r.w.fates))
  {
    WithEntryEffect(w.disk, MANIFEST, File(Bytes(0, Journal(w.manifest))));
    if Reliable(w.fates) { ReliableLater(w.fates); }
  }

  /** Only the temporary directories of this startup differ. */
  ghost predicate OnlyStaged(e: Env, d: Disk, d': Disk) {
    && LiveOf(d') == LiveOf(d)
    && d'.journal.Some? && d'.journal.value.Dir? && Sorted(Kids(d'.journal))
    && (forall n | n != INDEX && n != MergedName(e) :: Find(Kids(d'.journal), n) == Find(Kids(d.journal), n))
    && (Find(Kids(d'.journal), INDEX) == Find(Kids(d.journal), INDEX)
        || (Find(Kids(d'.journal), INDEX).Some? && Find(Kids(d'.journal), INDEX).value.File?))
  }

  lemma StageEntry(e: Env, d0: Disk, w: World, name: string, t: Tree)
    requires OnlyStaged(e, d0, w.disk)
    requires (name == INDEX && t.File?) || name == MergedName(e)
    ensures var r := Attempt(w, WithEntry(w.disk, name, t));
            && r.w.manifest == w.manifest
            && r.w.disk.temp == w.disk.temp
            && OnlyStaged(e, d0, r.w.disk)
            && (forall n | n != name :: Find(Kids(r.w.disk.journal), n) == Find(Kids(w.disk.journal), n))
            && (r.out.Done? ==> Find(Kids(r.w.disk.journal), name) == Some(t))
            && (Reliable(w.fates) ==> Reliable(r.w.fates) && !r.out.Crashed?)
  {
    EntryNames(e);
    WithEntryEffect(w.disk, name, t);
    if Reliable(w.fates) { ReliableLater(w.fates); }
  }

  ghost predicate MergedBuilt(c: Codec, e: Env, w: World, backup: Option<Tree>, r: Ran) {
    && r.w.manifest == w.manifest
    && r.w.disk.temp == w.disk.temp
    && OnlyStaged(e, w.disk, r.w.disk)
    && Find(Kids(r.w.disk.journal), INDEX) == Find(Kids(w.disk.journal), INDEX)
    && (Reliable(w.fates) ==> Reliable(r.w.fates) && !r.out.Crashed?)
    && (r.out.Done? ==>
        && IniIntact(PreviousSettings(backup))
        && Find(Kids(r.w.disk.journal), MergedName(e))
           == Some(Dir(MergedForest(c, backup, "torrents.db" in w.disk.data,
                                    Find(Kids(w.disk.journal), IMPORTS), Find(Kids(w.disk.journal), SETTINGS)))))
  }

  lemma BuildMergedEffect(c: Codec, e: Env, w: World, backup: Option<Tree>)
    requires OnlyStaged(e, w.disk, w.disk)
    ensures MergedBuilt(c, e, w, backup, BuildMerged(c, e, w, backup))
  {
    EntryNames(e);
    var name := MergedName(e);
    var kids := Kids(w.disk.journal);
    var sqlite := "torrents.db" in w.disk.data;
    StageEntry(e, w.disk, w, name, Dir(Nil));
    var made := Attempt(w, WithEntry(w.disk, name, Dir(Nil)));
    if made.out.Done? {
      var stored := Dir(c.store(BackupObjects(backup), Find(kids, IMPORTS), sqlite));
      StageEntry(e, w.disk, made.w, name, stored);
      var second := Attempt(made.w, WithEntry(made.w.disk, name, stored));
      if second.out.Done? {
        var merged := Dir(MergedForest(c, backup, sqlite, Find(kids, IMPORTS), Find(kids, SETTINGS)));
        StageEntry(e, w.disk, second.w, name, merged);
      }
    }
  }

  ghost predicate Indexed(c: Codec, e: Env, w: World, backup: Tree, r: Ran) {
    && r.w.manifest == w.manifest
    && r.w.disk.temp == w.disk.temp
    && OnlyStaged(e, w.disk, r.w.disk)
    && (Reliable(w.fates) ==> Reliable(r.w.fates) && !r.out.Crashed?)
    && (r.out.Done? ==>
        && Inventory(backup).Some?
        && IniIntact(PreviousSettings(Some(backup)))
        && Find(Kids(r.w.disk.journal), INDEX) == Some(File(IndexBytes(c, Inventory(backup).value)))
        && Find(Kids(r.w.disk.journal), MergedName(e))
           == Some(Dir(MergedForest(c, Some(backup), "torrents.db" in w.disk.data,
                                    Find(Kids(w.disk.journal), IMPORTS), Find(Kids(w.disk.journal), SETTINGS)))))
  }

  lemma IndexAndMergeEffect(c: Codec, e: Env, w: World, backup: Tree)
    requires OnlyStaged(e, w.disk, w.disk)
    ensures Indexed(c, e, w, backup, IndexAndMerge(c, e, w, backup))
  {
    EntryNames(e);
    var listing := Inventory(backup);
    if listing.Some? {
      var index := File(IndexBytes(c, listing.value));
      StageEntry(e, w.disk, w, INDEX, index);
      var indexed := Attempt(w, WithEntry(w.disk, INDEX, index));
      if indexed.out.Done? {
        BuildMergedEffect(c, e, indexed.w, Some(backup));
      }
    }
  }

  ghost predicate Staged(c: Codec, e: Env, w: World, r: Ran) {
    var o := LiveOf(w.disk);
    && r.w.manifest == w.manifest
    && OnlyStaged(e, w.disk, r.w.disk)
    && (Reliable(w.fates) ==> Reliable(r.w.fates) && !r.out.Crashed?)
    && (r.out.Done? ==>
        && CopyableLive(o)
        && Get(r.w.disk.temp, BackupName(e)) == Some(BackupTree(o))
        && Inventory(BackupTree(o)).Some?
        && IniIntact(PreviousSettings(Some(BackupTree(o))))
        && Find(Kids(r.w.disk.journal), INDEX) == Some(File(IndexBytes(c, Inventory(BackupTree(o)).value)))
        && Find(Kids(r.w.disk.journal), MergedName(e))
           == Some(Dir(MergedOf(c, o, Find(Kids(w.disk.journal), IMPORTS), Find(Kids(w.disk.journal), SETTINGS)))))
  }

  lemma StageEffect(c: Codec, e: Env, w: World)
    requires OnlyStaged(e, w.disk, w.disk)
    ensures Staged(c, e, w, Stage(c, e, w))
  {
    MakeBackupEffect(w, BackupName(e));
    var made := MakeBackup(w, BackupName(e));
    if e.admitted && made.out.Done? {
      IndexAndMergeEffect(c, e, made.w, made.w.disk.temp[BackupName(e)]);
    }
  }

  // ----- The crash invariant -----

  function OriginalDigest(c: Codec, o: Live): Option<Digest> {
    var listing := Inventory(BackupTree(o));
    if listing.Some? then Some(Sha256(IndexBytes(c, listing.value))) else None
  }

  /** What holds while live objects are being replaced: the journal pins a
      backup whose inventory is that of the original profile. */
  ghost predicate Replacing(c: Codec, d: Disk, m: Manifest, o: Live) {
    && m.version == 1
    && m.backup.Some? && ValidLocation(m.backup.value)
    && m.digest.Some? && m.digest == OriginalDigest(c, o)
    && SameOutside(d.data, o.data)
    && CopyableLive(o)
    && Clearable(LiveOf(d))
    && (BackupOf(d, m).Some? ==> Canonical(BackupOf(d, m).value))
  }

  const PREPARED := Manifest(1, State.Prepared, None, None)

  /** The invariant of the disk at every instant of every run of an import that
      found the profile `o` and carries `imports` and `incoming`. It says
      nothing about the temporary directory of an untrusted age except that it
      is a file tree. */
  ghost predicate Inv(c: Codec, d: Disk, o: Live, imports: Option<Tree>, incoming: Option<Tree>) {
    && Sorted(Kids(d.journal))
    && (d.journal.Some? ==> d.journal.value.Dir?)
    && match ManifestOn(d)
       case None => LiveOf(d) == o || LiveOf(d) == Goal(c, o, imports, incoming)
       case Some(m) =>
         && m.version == 1
         && (m.backup.Some? ==> ValidLocation(m.backup.value))
         && match m.state
            case Prepared =>
              && m == PREPARED && LiveOf(d) == o
              && Find(Kids(d.journal), IMPORTS) == imports && Find(Kids(d.journal), SETTINGS) == incoming
            case Installing => Replacing(c, d, m, o)
            case Committed => LiveOf(d) == Goal(c, o, imports, incoming)
            case RolledBack => LiveOf(d) == o
            case Unknown => false
  }

  /** A backup that passes the digest and the inventory is the original profile,
      whatever happened to the temporary directory since. */
  lemma VerifiedBackupIsOriginal(c: Codec, d: Disk, m: Manifest, o: Live)
    requires CanonicalLive(o)
    requires m.digest.Some? && m.digest == OriginalDigest(c, o)
    requires BackupOf(d, m).Some? ==> Canonical(BackupOf(d, m).value)
    requires Verified(d, m)
    ensures BackupOf(d, m) == Some(BackupTree(o))
  {
    BackupCanonical(o);
    InventoryInjective(BackupOf(d, m).value.kids, BackupTree(o).kids);
  }

  lemma ReinstateEffect(w: World, o: Live)
    requires SameOutside(w.disk.data, o.data) && Clearable(LiveOf(w.disk))
    ensures var r := Reinstate(w, Some(BackupTree(o)));
            && r.w.manifest == w.manifest
            && r.w.disk.journal == w.disk.journal && r.w.disk.temp == w.disk.temp
            && SameOutside(r.w.disk.data, o.data) && Clearable(LiveOf(r.w.disk))
            && (r.out.Done? ==> LiveOf(r.w.disk) == o)
            && (Reliable(w.fates) ==> Reliable(r.w.fates) && !r.out.Crashed?)
            && (Reliable(w.fates) && CopyableLive(o) ==> r.out.Done?)
  {
    var backup := Some(BackupTree(o));
    var objects := BackupObjects(backup);
    BackupHolds(o);
    ReplaceDataEffect(w, DATA_OBJECTS, objects);
    var data := ReplaceData(w, DATA_OBJECTS, objects);
    if data.out.Done? {
      forall n ensures Get(data.w.disk.data, n) == Get(o.data, n) {
        ReplacedGet(w.disk.data, DATA_OBJECTS, objects, n);
      }
      SameGetSameMap(data.w.disk.data, o.data);
      RestoreSettingsEffect(data.w, false, o.settings);
      var settings := RestoreSettings(data.w, false, o.settings);
      if settings.out.Done? {
        RestoreSettingsEffect(settings.w, true, o.pending);
      }
    }
  }

  lemma SameGetSameMap(a: map<string, Tree>, b: map<string, Tree>)
    requires forall n :: Get(a, n) == Get(b, n)
    ensures a == b
  {
    assert forall n :: n in a <==> Get(a, n).Some?;
    assert forall n :: n in b <==> Get(b, n).Some?;
    assert forall n | n in a :: a[n] == Get(a, n).value == Get(b, n).value == b[n];
  }

  /** Rollback touches nothing unless digest and inventory match; when it
      finishes, every object and both settings files are the originals,
      absences included; when it is cut short it can be run again. */
  ghost predicate Restored(w: World, o: Live, r: Ran) {
    var done := w.manifest.(state := RolledBack);
    && (!Verified(w.disk, w.manifest) ==> r.w.disk == w.disk && r.w.manifest == w.manifest && !r.out.Done?)
    && r.w.disk.temp == w.disk.temp
    && SameOutside(r.w.disk.data, o.data) && Clearable(LiveOf(r.w.disk))
    && r.w.manifest in {w.manifest, done}
    && (r.out.Done? ==>
        && LiveOf(r.w.disk) == o && r.w.manifest == done && ManifestOn(r.w.disk) == Some(done)
        && r.w.disk.journal.Some? && r.w.disk.journal.value.Dir? && Sorted(Kids(r.w.disk.journal))
        && forall n | n != MANIFEST :: Find(Kids(r.w.disk.journal), n) == Find(Kids(w.disk.journal), n))
    && (!r.out.Done? ==> r.w.disk.journal == w.disk.journal)
    && (Reliable(w.fates) ==>
        && Reliable(r.w.fates) && !r.out.Crashed?
        && (r.out.Done? <==> Verified(w.disk, w.manifest)))
  }

  lemma RestoreExact(c: Codec, w: World, o: Live)
    requires CanonicalLive(o) && Replacing(c, w.disk, w.manifest, o) && Sorted(Kids(w.disk.journal))
    ensures Restored(w, o, Restore(w))
  {
    if Reliable(w.fates) { ReliableLater(w.fates); }
    var read := Attempt(w, w.disk);
    if read.out.Done? && Verified(w.disk, w.manifest) {
      VerifiedBackupIsOriginal(c, w.disk, w.manifest, o);
      ReinstateEffect(read.w, o);
      var r := Reinstate(read.w, Some(BackupTree(o)));
      if r.out.Done? {
        WriteManifestEffect(r.w.(manifest := w.manifest.(state := RolledBack)));
      }
    }
  }

  // ----- Every step keeps the invariant -----

  /** The world between the decision to install and its end: the journal on
      disk says Installing, whatever state memory has moved on to. */
  ghost predicate MidInstall(c: Codec, w: World, o: Live) {
    && CanonicalLive(o)
    && Sorted(Kids(w.disk.journal)) && w.disk.journal.Some? && w.disk.journal.value.Dir?
    && ManifestOn(w.disk) == Some(w.manifest.(state := Installing))
    && Replacing(c, w.disk, w.manifest, o)
  }

  lemma RetireJournalKeeps(w: World)
    requires Sorted(Kids(w.disk.journal)) && (w.disk.journal.Some? ==> w.disk.journal.value.Dir?)
    ensures var r := RetireJournal(w);
            && r.w == w.(disk := w.disk.(journal := r.w.disk.journal), fates := r.w.fates)
            && Sorted(Kids(r.w.disk.journal)) && (r.w.disk.journal.Some? ==> r.w.disk.journal.value.Dir?)
            && (ManifestOn(w.disk).Some? ==> ManifestOn(r.w.disk) in {None, ManifestOn(w.disk)})
            && (r.out.Done? <==> r.w.disk.journal.None?)
  {
    RemoveObjectExact(w.fates, w.disk.journal);
    if w.disk.journal.Some? {
      RemovalSorted(w.fates, w.disk.journal.value.kids, 1);
      if ManifestOn(w.disk).Some? {
        RemovalKeepsFiles(w.fates, w.disk.journal.value.kids, 1, MANIFEST);
      }
    }
  }

  lemma RetireKeeps(c: Codec, w: World, o: Live, imports: Option<Tree>, incoming: Option<Tree>)
    requires Inv(c, w.disk, o, imports, incoming)
    requires ManifestOn(w.disk) == Some(w.manifest) && (w.manifest.state.Committed? || w.manifest.state.RolledBack?)
    ensures var r := Retire(w);
            && Inv(c, r.w.disk, o, imports, incoming)
            && r.w.manifest == w.manifest
            && (r.out.Done? <==> r.w.disk.journal.None?)
  {
    if w.manifest.backup.None? {
      RetireJournalKeeps(w);
    } else {
      var name := w.manifest.backup.value.name;
      var removed := RemoveObject(w.fates, Get(w.disk.temp, name));
      if removed.out.Done? {
        RetireJournalKeeps(w.(disk := w.disk.(temp := Set(w.disk.temp, name, removed.tree)), fates := removed.fates));
      }
    }
  }

  lemma UndoKeeps(c: Codec, w: World, o: Live, imports: Option<Tree>, incoming: Option<Tree>)
    requires MidInstall(c, w, o)
    ensures Undone(c, w, o, imports, incoming, Undo(w))
  {
    RestoreExact(c, w, o);
    RestoredKeeps(c, w, o, imports, incoming, Restore(w));
  }

  ghost predicate Undone(c: Codec, w: World, o: Live, imports: Option<Tree>, incoming: Option<Tree>, r: Ran) {
    && Inv(c, r.w.disk, o, imports, incoming)
    && !r.out.Done?
    && (r.w.manifest == w.manifest ==> MidInstall(c, r.w, o) || r.w.manifest.state.RolledBack?)
    && (r.w.manifest != w.manifest ==> r.w.manifest.state.RolledBack?)
  }

  lemma RestoredKeeps(c: Codec, w: World, o: Live, imports: Option<Tree>, incoming: Option<Tree>, r: Ran)
    requires MidInstall(c, w, o) && Restored(w, o, r)
    ensures Undone(c, w, o, imports, incoming, Ran(r.w, if r.out.Done? then Failed else r.out))
  {
    if r.out.Done? {
      assert Inv(c, r.w.disk, o, imports, incoming);
    } else {
      StillReplacing(c, w, r.w.disk, o);
    }
  }

  lemma StillReplacing(c: Codec, w: World, d: Disk, o: Live)
    requires MidInstall(c, w, o)
    requires d.journal == w.disk.journal && d.temp == w.disk.temp
    requires SameOutside(d.data, o.data) && Clearable(LiveOf(d))
    ensures Replacing(c, d, w.manifest, o) && Replacing(c, d, w.manifest.(state := Installing), o)
    ensures ManifestOn(d) == Some(w.manifest.(state := Installing))
  {
    assert BackupOf(d, w.manifest) == BackupOf(w.disk, w.manifest.(state := Installing));
  }

  lemma SwapEffect(c: Codec, w: World, o: Live, imports: Option<Tree>, incoming: Option<Tree>)
    requires MidInstall(c, w, o) && LiveOf(w.disk) == o
    ensures var r := Swap(w, MergedOf(c, o, imports, incoming));
            && r.w.manifest == w.manifest
            && MidInstall(c, r.w, o)
            && (r.out.Done? ==> LiveOf(r.w.disk) == Goal(c, o, imports, incoming))
            && (Reliable(w.fates) ==> Reliable(r.w.fates) && !r.out.Crashed?)
  {
    var merged := MergedOf(c, o, imports, incoming);
    ReplaceDataEffect(w, DATA_OBJECTS, merged);
    var data := ReplaceData(w, DATA_OBJECTS, merged);
    if data.out.Done? {
      CopySettingsEffect(data.w, false, Find(merged, SETTINGS));
      var settings := CopySettings(data.w, false, Find(merged, SETTINGS));
      if settings.out.Done? {
        RemoveSettingsEffect(settings.w, true);
      }
    }
  }

  ghost predicate Finished(c: Codec, r: Ran, o: Live, imports: Option<Tree>, incoming: Option<Tree>) {
    && Inv(c, r.w.disk, o, imports, incoming)
    && (r.w.manifest.state.Installing? ==> MidInstall(c, r.w, o))
    && !r.w.manifest.state.Prepared?
    && (r.out.Done? ==> r.w.disk.journal.None? && LiveOf(r.w.disk) == Goal(c, o, imports, incoming))
  }

  /** Committing, and its failure path. */
  function Commit(w: World): Ran {
    var written := WriteManifest(w.(manifest := w.manifest.(state := Committed)));
    if written.out.Crashed? then written
    else if written.out.Failed? then Undo(written.w)
    else Retire(written.w)
  }

  lemma CommitKeeps(c: Codec, w: World, o: Live, imports: Option<Tree>, incoming: Option<Tree>)
    requires MidInstall(c, w, o) && LiveOf(w.disk) == Goal(c, o, imports, incoming)
    ensures Finished(c, Commit(w), o, imports, incoming)
  {
    var decided := w.(manifest := w.manifest.(state := Committed));
    WriteManifestEffect(decided);
    var written := WriteManifest(decided);
    if written.out.Failed? {
      assert MidInstall(c, written.w, o);
      UndoKeeps(c, written.w, o, imports, incoming);
    } else if written.out.Done? {
      RetireKeeps(c, written.w, o, imports, incoming);
      RetireLive(written.w);
    }
  }

  lemma FinishCases(e: Env, w: World, merged: Forest)
    requires Find(Kids(w.disk.journal), MergedName(e)) == Some(Dir(merged))
    ensures var swapped := Swap(w, merged);
            Finish(e, w) == match swapped.out
                            case Crashed => swapped
                            case Failed => Undo(swapped.w)
                            case Done => Commit(swapped.w)
  {
  }

  lemma FinishKeeps(c: Codec, e: Env, w: World, o: Live, imports: Option<Tree>, incoming: Option<Tree>)
    requires MidInstall(c, w, o) && LiveOf(w.disk) == o && w.manifest.state.Installing?
    requires Find(Kids(w.disk.journal), MergedName(e)) == Some(Dir(MergedOf(c, o, imports, incoming)))
    ensures Finished(c, Finish(e, w), o, imports, incoming)
  {
    var swapped := Swap(w, MergedOf(c, o, imports, incoming));
    SwapEffect(c, w, o, imports, incoming);
    FinishCases(e, w, MergedOf(c, o, imports, incoming));
    SwappedKeeps(c, swapped, o, imports, incoming);
  }

  lemma SwappedKeeps(c: Codec, swapped: Ran, o: Live, imports: Option<Tree>, incoming: Option<Tree>)
    requires MidInstall(c, swapped.w, o) && swapped.w.manifest.state.Installing?
    requires swapped.out.Done? ==> LiveOf(swapped.w.disk) == Goal(c, o, imports, incoming)
    ensures match swapped.out
            case Crashed => Finished(c, swapped, o, imports, incoming)
            case Failed => Finished(c, Undo(swapped.w), o, imports, incoming)
            case Done => Finished(c, Commit(swapped.w), o, imports, incoming)
  {
    match swapped.out
    case Crashed =>
    case Failed => UndoKeeps(c, swapped.w, o, imports, incoming);
    case Done => CommitKeeps(c, swapped.w, o, imports, incoming);
  }

  lemma RetireLive(w: World)
    ensures LiveOf(Retire(w).w.disk) == LiveOf(w.disk)
  {
  }

  /** The invariant looks at the live profile, the manifest, the import, and
      nothing else in the journal. */
  lemma InvTransfer(c: Codec, d: Disk, d': Disk, o: Live, imports: Option<Tree>, incoming: Option<Tree>)
    requires Inv(c, d, o, imports, incoming)
    requires LiveOf(d') == LiveOf(d) && d'.temp == d.temp
    requires Sorted(Kids(d'.journal)) && (d'.journal.Some? ==> d'.journal.value.Dir?)
    requires forall n | n in {MANIFEST, IMPORTS, SETTINGS} :: Find(Kids(d'.journal), n) == Find(Kids(d.journal), n)
    ensures Inv(c, d', o, imports, incoming) && ManifestOn(d') == ManifestOn(d)
  {
    assert ManifestOn(d') == ManifestOn(d);
    if ManifestOn(d).Some? {
      assert BackupOf(d', ManifestOn(d).value) == BackupOf(d, ManifestOn(d).value);
    }
  }

  lemma DropMerged(e: Env, d: Disk)
    requires Sorted(Kids(d.journal))
    ensures Sorted(Drop(Kids(d.journal), MergedName(e)))
    ensures forall n | n != MergedName(e) :: Find(Drop(Kids(d.journal), MergedName(e)), n) == Find(Kids(d.journal), n)
  {
    DropSorted(Kids(d.journal), MergedName(e));
    forall n | n != MergedName(e) ensures Find(Drop(Kids(d.journal), MergedName(e)), n) == Find(Kids(d.journal), n) {
      FindDrop(Kids(d.journal), MergedName(e), n);
    }
  }

  lemma TidyMergedFrame(e: Env, r: Ran)
    requires Sorted(Kids(r.w.disk.journal)) && (r.w.disk.journal.Some? ==> r.w.disk.journal.value.Dir?)
    ensures var t := TidyMerged(e, r);
            && t.w.manifest == r.w.manifest && t.w.disk == r.w.disk.(journal := t.w.disk.journal)
            && Sorted(Kids(t.w.disk.journal)) && (t.w.disk.journal.Some? ==> t.w.disk.journal.value.Dir?)
            && (t.w.disk.journal.Some? <==> r.w.disk.journal.Some?)
            && (t.out == r.out || t.out.Crashed?)
            && (Reliable(r.w.fates) ==> t.out == r.out && Reliable(t.w.fates))
            && (forall n | n != MergedName(e) :: Find(Kids(t.w.disk.journal), n) == Find(Kids(r.w.disk.journal), n))
            && (Reliable(r.w.fates) && !r.out.Crashed? ==> Find(Kids(t.w.disk.journal), MergedName(e)).None?)
            && Find(Kids(t.w.disk.journal), MergedName(e)) in {None, Find(Kids(r.w.disk.journal), MergedName(e))}
  {
    FindDrop(Kids(r.w.disk.journal), MergedName(e), MergedName(e));
    DropMerged(e, r.w.disk);
    if Reliable(r.w.fates) { ReliableLater(r.w.fates); }
  }

  lemma TidyMergedKeeps(c: Codec, e: Env, r: Ran, o: Live, imports: Option<Tree>, incoming: Option<Tree>)
    requires Inv(c, r.w.disk, o, imports, incoming)
    ensures var t := TidyMerged(e, r);
            && Inv(c, t.w.disk, o, imports, incoming)
            && t.w.manifest == r.w.manifest && t.w.disk.temp == r.w.disk.temp
            && ManifestOn(t.w.disk) == ManifestOn(r.w.disk) && LiveOf(t.w.disk) == LiveOf(r.w.disk)
            && (t.w.disk.journal.Some? <==> r.w.disk.journal.Some?)
            && (t.out == r.out || t.out.Crashed?)
            && (MidInstall(c, r.w, o) ==> MidInstall(c, t.w, o))
            && (Reliable(r.w.fates) ==> t.out == r.out && Reliable(t.w.fates))
            && (forall n | n != MergedName(e) :: Find(Kids(t.w.disk.journal), n) == Find(Kids(r.w.disk.journal), n))
            && (Reliable(r.w.fates) && !r.out.Crashed? ==> Find(Kids(t.w.disk.journal), MergedName(e)).None?)
            && Find(Kids(t.w.disk.journal), MergedName(e)) in {None, Find(Kids(r.w.disk.journal), MergedName(e))}
  {
    EntryNames(e);
    TidyMergedFrame(e, r);
    InvTransfer(c, r.w.disk, TidyMerged(e, r).w.disk, o, imports, incoming);
    if MidInstall(c, r.w, o) {
      StillMidInstall(c, r.w, TidyMerged(e, r).w, o);
    }
  }

  lemma StillMidInstall(c: Codec, w: World, w': World, o: Live)
    requires MidInstall(c, w, o)
    requires w'.manifest == w.manifest && LiveOf(w'.disk) == LiveOf(w.disk) && w'.disk.temp == w.disk.temp
    requires Sorted(Kids(w'.disk.journal)) && w'.disk.journal.Some? && w'.disk.journal.value.Dir?
    requires ManifestOn(w'.disk) == ManifestOn(w.disk)
    ensures MidInstall(c, w', o)
  {
    assert BackupOf(w'.disk, w.manifest) == BackupOf(w.disk, w.manifest);
  }

  lemma TidyBackupKeeps(c: Codec, e: Env, r: Ran, o: Live, imports: Option<Tree>, incoming: Option<Tree>)
    requires Inv(c, r.w.disk, o, imports, incoming) && LiveOf(r.w.disk) == o
    requires ManifestOn(r.w.disk) == Some(PREPARED)
    ensures var t := TidyBackup(e, r);
            && Inv(c, t.w.disk, o, imports, incoming)
            && t.w.manifest == r.w.manifest
            && t.w.disk == r.w.disk.(temp := t.w.disk.temp)
            && (t.out == r.out || t.out.Crashed?)
            && (Reliable(r.w.fates) ==> t.out == r.out && Reliable(t.w.fates) && (!r.out.Crashed? ==> BackupName(e) !in t.w.disk.temp))
  {
    if Reliable(r.w.fates) { ReliableLater(r.w.fates); }
  }

  /** What Install leaves behind. Memory still says Prepared when nothing was
      decided, and Installing on top of a prepared journal exactly when the
      decision could not be written. */
  ghost predicate Installed(c: Codec, e: Env, r: Ran, o: Live, imports: Option<Tree>, incoming: Option<Tree>) {
    && Inv(c, r.w.disk, o, imports, incoming)
    && (r.out.Done? ==> r.w.disk.journal.None? && LiveOf(r.w.disk) == Goal(c, o, imports, incoming))
    && (r.out.Failed? && r.w.manifest.state.Prepared? ==>
        r.w.manifest == PREPARED && ManifestOn(r.w.disk) == Some(PREPARED))
    && (r.out.Failed? && r.w.manifest.state.Installing? ==>
        MidInstall(c, r.w, o) || ManifestOn(r.w.disk) == Some(PREPARED))
  }

  lemma BeginEffect(c: Codec, e: Env, w: World, o: Live, imports: Option<Tree>, incoming: Option<Tree>)
    requires CanonicalLive(o) && Inv(c, w.disk, o, imports, incoming)
    requires w.manifest == PREPARED && ManifestOn(w.disk) == Some(PREPARED)
    requires w.disk.journal.Some?
    requires Get(w.disk.temp, BackupName(e)) == Some(BackupTree(o)) && Inventory(BackupTree(o)).Some?
    requires Find(Kids(w.disk.journal), INDEX) == Some(File(IndexBytes(c, Inventory(BackupTree(o)).value)))
    requires CopyableLive(o)
    ensures var r := Begin(e, w);
            && Inv(c, r.w.disk, o, imports, incoming)
            && r.w.disk.temp == w.disk.temp && LiveOf(r.w.disk) == o
            && r.w.manifest.state.Installing?
            && (r.out.Done? ==>
                && MidInstall(c, r.w, o)
                && Find(Kids(r.w.disk.journal), MergedName(e)) == Find(Kids(w.disk.journal), MergedName(e)))
            && (!r.out.Done? ==> r.w.disk == w.disk)
            && (Reliable(w.fates) ==> r.out.Done? && Reliable(r.w.fates))
  {
    EntryNames(e);
    BackupCanonical(o);
    CopyableIsClearable(o);
    WriteManifestEffect(w.(manifest := w.manifest.(state := Installing,
                                                    backup := Some(Location(TEMP, BackupName(e))),
                                                    digest := IndexDigest(w.disk))));
  }

  lemma {:induction false} CopyableIsRemovable(t: Tree, depth: nat)
    requires Copyable(t, depth)
    ensures Removable(t, depth)
    decreases t, 1
  {
    if t.Dir? { CopyableKidsAreRemovable(t.kids, depth + 1); }
  }

  lemma {:induction false} CopyableKidsAreRemovable(f: Forest, depth: nat)
    requires CopyableKids(f, depth)
    ensures RemovableKids(f, depth)
    decreases f, 0
  {
    if f.Cons? {
      CopyableIsRemovable(f.tree, depth);
      CopyableKidsAreRemovable(f.rest, depth);
    }
  }

  lemma CopyableIsClearable(o: Live)
    requires CopyableLive(o)
    ensures Clearable(o)
  {
    forall n | n in DATA_OBJECTS && n in o.data ensures Removable(o.data[n], 0) {
      CopyableIsRemovable(o.data[n], 0);
    }
    if o.settings.Some? { CopyableIsRemovable(o.settings.value, 0); }
    if o.pending.Some? { CopyableIsRemovable(o.pending.value, 0); }
  }

  lemma StagedKeeps(c: Codec, e: Env, d: Disk, d': Disk, o: Live, imports: Option<Tree>, incoming: Option<Tree>)
    requires Inv(c, d, o, imports, incoming) && ManifestOn(d) == Some(PREPARED) && OnlyStaged(e, d, d')
    ensures Inv(c, d', o, imports, incoming) && ManifestOn(d') == Some(PREPARED) && LiveOf(d') == o
  {
    EntryNames(e);
  }

  lemma TidiedInstall(c: Codec, e: Env, r: Ran, o: Live, imports: Option<Tree>, incoming: Option<Tree>)
    requires Inv(c, r.w.disk, o, imports, incoming) && LiveOf(r.w.disk) == o && ManifestOn(r.w.disk) == Some(PREPARED)
    requires !r.out.Done? && (r.w.manifest.state.Prepared? ==> r.w.manifest == PREPARED)
    ensures Installed(c, e, TidyBackup(e, TidyMerged(e, r)), o, imports, incoming)
  {
    TidyMergedKeeps(c, e, r, o, imports, incoming);
    TidyBackupKeeps(c, e, TidyMerged(e, r), o, imports, incoming);
  }

  lemma BegunInstall(c: Codec, e: Env, w: World, o: Live, imports: Option<Tree>, incoming: Option<Tree>)
    requires MidInstall(c, w, o) && LiveOf(w.disk) == o && w.manifest.state.Installing?
    requires Find(Kids(w.disk.journal), MergedName(e)) == Some(Dir(MergedOf(c, o, imports, incoming)))
    ensures Installed(c, e, TidyMerged(e, Finish(e, w)), o, imports, incoming)
  {
    FinishKeeps(c, e, w, o, imports, incoming);
    TidyMergedKeeps(c, e, Finish(e, w), o, imports, incoming);
  }

  lemma InstallKeeps(c: Codec, e: Env, w: World, o: Live, imports: Option<Tree>, incoming: Option<Tree>)
    requires CanonicalLive(o) && Inv(c, w.disk, o, imports, incoming)
    requires w.manifest == PREPARED && ManifestOn(w.disk) == Some(PREPARED)
    ensures Installed(c, e, Install(c, e, w), o, imports, incoming)
  {
    if Fresh(e, w.disk) {
      StageEffect(c, e, w);
      var staged := Stage(c, e, w);
      StagedKeeps(c, e, w.disk, staged.w.disk, o, imports, incoming);
      if !staged.out.Done? {
        TidiedInstall(c, e, staged, o, imports, incoming);
      } else {
        BeginEffect(c, e, staged.w, o, imports, incoming);
        var begun := Begin(e, staged.w);
        if !begun.out.Done? {
          TidiedInstall(c, e, begun, o, imports, incoming);
        } else {
          BegunInstall(c, e, begun.w, o, imports, incoming);
        }
      }
    }
  }

  // ----- The backup of an installation in progress -----

  /** Nobody has touched the backup of an installation in progress. */
  ghost predicate Intact(c: Codec, d: Disk, m: Manifest, o: Live) {
    && BackupOf(d, m) == Some(BackupTree(o))
    && Inventory(BackupTree(o)).Some?
    && Find(Kids(d.journal), INDEX) == Some(File(IndexBytes(c, Inventory(BackupTree(o)).value)))
  }

  predicate IndexFits(c: Codec, o: Live) {
    Inventory(BackupTree(o)).Some? ==> c.indexSize(Inventory(BackupTree(o)).value) <= MAX_INDEX
  }

  lemma IntactVerifies(c: Codec, d: Disk, m: Manifest, o: Live)
    requires Intact(c, d, m, o) && m.digest == OriginalDigest(c, o)
    ensures Verified(d, m) <==> IndexFits(c, o)
  {
    BackupHolds(o);
  }

  // ----- Publication -----

  lemma PreparedJournalHolds(c: Codec, imports: Tree, chosen: map<string, string>)
    ensures var kids := PreparedJournal(c, imports, chosen);
            && Sorted(kids)
            && Find(kids, MANIFEST) == Some(File(Bytes(0, Journal(PREPARED))))
            && Find(kids, IMPORTS) == Some(imports)
            && IniIntact(Find(kids, SETTINGS))
            && IniValues(Find(kids, SETTINGS)).Keys == chosen.Keys * SAFE_SETTINGS
            && (forall key | key in chosen && key in SAFE_SETTINGS :: IniValues(Find(kids, SETTINGS))[key] == chosen[key])
  {
    JournalNamesInOrder();
    var kids := PreparedJournal(c, imports, chosen);
    var others := kids.rest;
    assert Find(others, MANIFEST) == if SafeOf(chosen) == map[] then Some(others.tree) else Find(others.rest, MANIFEST);
    assert Find(kids, MANIFEST) == Some(PreparedManifest());
    assert Find(kids, SETTINGS) == if SafeOf(chosen) == map[] then None else Some(ChosenFile(c, chosen));
    assert SafeOf(chosen).Keys == chosen.Keys * SAFE_SETTINGS;
  }

  lemma JournalNamesInOrder()
    ensures Less(IMPORTS, SETTINGS) && Less(SETTINGS, MANIFEST) && Less(IMPORTS, MANIFEST)
  {
    assert IMPORTS[0] < SETTINGS[0] && SETTINGS[0] < MANIFEST[0];
  }

  lemma PutInOrder(f: Forest, name: string, t: Tree)
    requires f.Cons? && Less(f.name, name)
    ensures Put(f, name, t) == Cons(f.name, f.tree, Put(f.rest, name, t))
  {
    LessAsymmetric(f.name, name);
  }

  lemma PutsInOrder(c: Codec, imports: Tree, chosen: map<string, string>)
    ensures var stored := Put(Nil, IMPORTS, imports);
            var settings := if SafeOf(chosen) == map[] then stored else Put(stored, SETTINGS, ChosenFile(c, chosen));
            PreparedJournal(c, imports, chosen) == Put(settings, MANIFEST, PreparedManifest())
  {
    JournalNamesInOrder();
    var stored := Put(Nil, IMPORTS, imports);
    PutInOrder(stored, MANIFEST, PreparedManifest());
    if SafeOf(chosen) != map[] {
      var file := ChosenFile(c, chosen);
      PutInOrder(stored, SETTINGS, file);
      PutInOrder(Cons(SETTINGS, file, Nil), MANIFEST, PreparedManifest());
      PutInOrder(Cons(IMPORTS, imports, Cons(SETTINGS, file, Nil)), MANIFEST, PreparedManifest());
    }
  }

  /** One more entry of the directory `dir` beside the directories of `others`. */
  lemma PrepareEntry(w: World, others: map<string, Tree>, dir: string, kids: Forest, name: string, t: Tree)
    requires w.disk.preparing == others[dir := Dir(kids)]
    ensures var r := Attempt(w, WithPrepared(w.disk, dir, name, t));
            && r.w.disk == w.disk.(preparing := others[dir := Dir(if r.out.Done? then Put(kids, name, t) else kids)])
            && (Reliable(w.fates) ==> r.out.Done? && Reliable(r.w.fates))
  {
    if Reliable(w.fates) { ReliableLater(w.fates); }
    assert others[dir := Dir(kids)][dir := Dir(Put(kids, name, t))] == others[dir := Dir(Put(kids, name, t))];
  }

  /** The directory `dir` is all that differs. */
  predicate OnlyPrepared(d: Disk, dir: string, d': Disk) {
    d' == d || (dir in d'.preparing && d' == d.(preparing := d.preparing[dir := d'.preparing[dir]]))
  }

  ghost predicate Filled(c: Codec, w: World, dir: string, d: Disk, verified: bool, imports: Tree,
                         chosen: map<string, string>, r: Ran) {
    && OnlyPrepared(d, dir, r.w.disk)
    && (r.out.Done? ==> verified && Get(r.w.disk.preparing, dir) == Some(Dir(PreparedJournal(c, imports, chosen))))
    && (Reliable(w.fates) ==> Reliable(r.w.fates) && !r.out.Crashed? && (r.out.Done? <==> verified))
  }

  lemma PrepareSettingsEffect(c: Codec, w: World, dir: string, d: Disk, imports: Tree, chosen: map<string, string>)
    requires w.disk == d.(preparing := d.preparing[dir := Dir(Put(Nil, IMPORTS, imports))])
    ensures Filled(c, w, dir, d, true, imports, chosen, PrepareSettings(c, w, dir, chosen))
  {
    var kids := Put(Nil, IMPORTS, imports);
    PutsInOrder(c, imports, chosen);
    if SafeOf(chosen) == map[] {
      PrepareEntry(w, d.preparing, dir, kids, MANIFEST, PreparedManifest());
    } else {
      PrepareEntry(w, d.preparing, dir, kids, SETTINGS, ChosenFile(c, chosen));
      var settings := Attempt(w, WithPrepared(w.disk, dir, SETTINGS, ChosenFile(c, chosen)));
      if settings.out.Done? {
        PrepareEntry(settings.w, d.preparing, dir, Put(kids, SETTINGS, ChosenFile(c, chosen)), MANIFEST, PreparedManifest());
      }
    }
  }

  lemma PrepareEffect(c: Codec, w: World, dir: string, verified: bool, imports: Tree, chosen: map<string, string>)
    requires dir !in w.disk.preparing
    ensures Filled(c, w, dir, w.disk, verified, imports, chosen, Prepare(c, w, dir, verified, imports, chosen))
  {
    var made := Attempt(w, w.disk.(preparing := w.disk.preparing[dir := Dir(Nil)]));
    if Reliable(w.fates) { ReliableLater(w.fates); }
    if made.out.Done? {
      PrepareEntry(made.w, w.disk.preparing, dir, Nil, IMPORTS, imports);
      var stored := Attempt(made.w, WithPrepared(made.w.disk, dir, IMPORTS, imports));
      if stored.out.Done? && verified {
        PrepareSettingsEffect(c, stored.w, dir, w.disk, imports, chosen);
      }
    }
  }

  lemma PutAndRemove(m: map<string, Tree>, n: string, t: Tree)
    requires n !in m
    ensures m[n := t] - {n} == m
  {
  }

  /** However the preparation ends, other directories are left alone; only a
      finished one makes a journal, and that is the complete one. */
  ghost predicate PreparedOrNot(c: Codec, w: World, dir: string, verified: bool, imports: Tree,
                                chosen: map<string, string>, r: Ran) {
    && (if r.out.Done? then verified && r.w.disk == w.disk.(journal := Some(Dir(PreparedJournal(c, imports, chosen))))
        else OnlyPrepared(w.disk, dir, r.w.disk))
    && (Reliable(w.fates) ==> Reliable(r.w.fates) && !r.out.Crashed? && (r.out.Done? <==> verified))
  }

  lemma PrepareAndRenameEffect(c: Codec, w: World, dir: string, verified: bool, imports: Tree, chosen: map<string, string>)
    requires dir !in w.disk.preparing
    ensures PreparedOrNot(c, w, dir, verified, imports, chosen, PrepareAndRename(c, w, dir, verified, imports, chosen))
  {
    PrepareEffect(c, w, dir, verified, imports, chosen);
    var prepared := Prepare(c, w, dir, verified, imports, chosen);
    PutAndRemove(w.disk.preparing, dir, Dir(PreparedJournal(c, imports, chosen)));
    if Reliable(w.fates) { ReliableLater(prepared.w.fates); }
  }

  lemma TidyPreparedEffect(d: Disk, dir: string, r: Ran)
    requires dir !in d.preparing && OnlyPrepared(d, dir, r.w.disk) && !r.out.Done?
    ensures var t := TidyPrepared(dir, r);
            && OnlyPrepared(d, dir, t.w.disk) && !t.out.Done?
            && (Reliable(r.w.fates) && r.out.Failed? ==> t.out.Failed? && t.w.disk == d)
  {
    if dir in r.w.disk.preparing { PutAndRemove(d.preparing, dir, r.w.disk.preparing[dir]); }
    if Reliable(r.w.fates) { ReliableLater(r.w.fates); }
  }

  /** Publication is one rename: until it there is no journal, whatever is left
      of the directory being prepared; after it the invariant of the run holds
      for the profile as it stands. On a reliable disk a refused preparation
      leaves nothing behind. */
  lemma PublishStarts(c: Codec, d: Disk, fates: seq<Fate>, order: Order, imports: Tree, chosen: map<string, string>)
    ensures var r := Publish(c, d, fates, order, imports, chosen);
            && (!r.out.Done? ==> OnlyPrepared(d, order.dir, r.w.disk))
            && (r.out.Done? ==>
                && order.confirmed && order.admitted && order.verified && d.journal.None?
                && r.w.disk == d.(journal := Some(Dir(PreparedJournal(c, imports, chosen))))
                && Inv(c, r.w.disk, LiveOf(d), Some(imports), Find(Kids(r.w.disk.journal), SETTINGS)))
            && (Reliable(fates) && !r.out.Done? ==> r.out.Failed? && r.w.disk == d)
            && (Reliable(fates) && order.dir !in d.preparing ==>
                (r.out.Done? <==> order.confirmed && order.admitted && order.verified && d.journal.None?))
  {
    if order.confirmed && d.journal.None? && order.admitted && order.dir !in d.preparing {
      var w := World(d, fates, Manifest(0, Unknown, None, None));
      PrepareAndRenameEffect(c, w, order.dir, order.verified, imports, chosen);
      var r := PrepareAndRename(c, w, order.dir, order.verified, imports, chosen);
      if r.out.Done? {
        PreparedJournalHolds(c, imports, chosen);
      } else {
        TidyPreparedEffect(d, order.dir, r);
      }
    }
  }
}
