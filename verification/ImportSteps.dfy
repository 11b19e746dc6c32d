/** The profile import transaction of src/base/profileimport.cpp as a function
    of the disk and of the fates the environment has in store. A result that
    says Crashed is the disk as a dying process leaves it, so quantifying over
    the fates visits every intermediate disk of every run. */
module ImportSteps {
  import opened Wrappers
  import opened FileTrees

  /** `journal` is the transaction directory, `preparing` the directories in
      which transactions are prepared, `temp` the temporary directory. */
  datatype Disk = Disk(
    data: map<string, Tree>,
    settings: Option<Tree>,
    pending: Option<Tree>,
    journal: Option<Tree>,
    preparing: map<string, Tree>,
    temp: map<string, Tree>)

  /** What the application would open if it started now. */
  datatype Live = Live(data: map<string, Tree>, settings: Option<Tree>, pending: Option<Tree>)

  /** The native resume store and the sizes of serialized files. */
  datatype Codec = Codec(
    store: (Forest, Option<Tree>, bool) -> Forest,
    iniSize: map<string, string> -> nat,
    indexSize: map<Path, Mark> -> nat)

  /** One startup: whether another process holds the lock, whether the checks
      before the backup pass, whether the merged store verifies, and the random
      suffix of the temporary directories. */
  datatype Env = Env(locked: bool, admitted: bool, verified: bool, suffix: string)

  /** `manifest` is the copy in memory, which can differ from the one on disk. */
  datatype World = World(disk: Disk, fates: seq<Fate>, manifest: Manifest)

  datatype Ran = Ran(w: World, out: Outcome)

  const DATA_OBJECTS: seq<string> := ["BT_backup", "torrents.db", "torrents.db-wal", "torrents.db-shm"]

  const SAFE_SETTINGS: set<string> := {
    "Preferences/General/Locale",
    "BitTorrent/Session/DownloadSpeedLimit",
    "BitTorrent/Session/UploadSpeedLimit",
    "BitTorrent/Session/MaxConnections",
    "BitTorrent/Session/MaxConnectionsPerTorrent",
    "BitTorrent/Session/MaxUploads",
    "BitTorrent/Session/MaxUploadsPerTorrent",
    "BitTorrent/Session/QueueingSystemEnabled",
    "BitTorrent/Session/MaxActiveDownloads",
    "BitTorrent/Session/MaxActiveUploads",
    "BitTorrent/Session/MaxActiveTorrents"
  }

  const MANIFEST := "transaction.json"
  const INDEX := "backup.json"
  const IMPORTS := "imports"
  const SETTINGS := "settings.ini"
  const PENDING := "settings-new.ini"
  const DATA := "data"
  const TEMP := "temp"
  const BACKUP_PREFIX := "qbutt-profile-migration-"
  const MERGED_PREFIX := "merged-"
  const MAX_INDEX := 16 * 1024 * 1024

  function LiveOf(d: Disk): Live {
    Live(d.data, d.settings, d.pending)
  }

  function BackupName(e: Env): string { BACKUP_PREFIX + e.suffix }

  function MergedName(e: Env): string { MERGED_PREFIX + e.suffix }

  function Get(m: map<string, Tree>, name: string): Option<Tree> {
    if name in m then Some(m[name]) else None
  }

  function Set(m: map<string, Tree>, name: string, o: Option<Tree>): map<string, Tree> {
    if o.Some? then m[name := o.value] else m - {name}
  }

  function Kids(o: Option<Tree>): Forest {
    if o.Some? && o.value.Dir? then o.value.kids else Nil
  }

  function WithEntry(d: Disk, name: string, t: Tree): Disk {
    d.(journal := Some(Dir(Put(Kids(d.journal), name, t))))
  }

  function ManifestOn(d: Disk): Option<Manifest> {
    match Find(Kids(d.journal), MANIFEST)
    case Some(File(Bytes(_, Journal(m)))) => Some(m)
    case _ => None
  }

  /** One atomic operation that would turn the disk into `d`. */
  function Attempt(w: World, d: Disk): Ran {
    Ran(w.(disk := if Next(w.fates).Works? then d else w.disk, fates := Later(w.fates)), After(Next(w.fates)))
  }

  function WriteManifest(w: World): Ran {
    Attempt(w, WithEntry(w.disk, MANIFEST, File(Bytes(0, Journal(w.manifest)))))
  }

  // ----- Replacing the live objects -----

  function ReplaceObject(w: World, name: string, source: Option<Tree>): Ran {
    var removed := RemoveObject(w.fates, Get(w.disk.data, name));
    if removed.out != Done then
      Ran(w.(disk := w.disk.(data := Set(w.disk.data, name, removed.tree)), fates := removed.fates), removed.out)
    else
      var copied := CopyObject(removed.fates, source);
      Ran(w.(disk := w.disk.(data := Set(w.disk.data, name, copied.tree)), fates := copied.fates), copied.out)
  }

  function ReplaceData(w: World, names: seq<string>, source: Forest): Ran
    decreases |names|
  {
    if names == [] then Ran(w, Done)
    else
      var r := ReplaceObject(w, names[0], Find(source, names[0]));
      if r.out != Done then r else ReplaceData(r.w, names[1..], source)
  }

  function SettingsFile(d: Disk, pending: bool): Option<Tree> {
    if pending then d.pending else d.settings
  }

  function WithSettings(d: Disk, pending: bool, o: Option<Tree>): Disk {
    if pending then d.(pending := o) else d.(settings := o)
  }

  function RemoveSettings(w: World, pending: bool): Ran {
    var removed := RemoveObject(w.fates, SettingsFile(w.disk, pending));
    Ran(w.(disk := WithSettings(w.disk, pending, removed.tree), fates := removed.fates), removed.out)
  }

  /** An absent source leaves the target alone; a present one overwrites it. */
  function CopySettings(w: World, pending: bool, source: Option<Tree>): Ran {
    var copied := CopyObject(w.fates, source);
    Ran(w.(disk := if copied.tree.Some? then WithSettings(w.disk, pending, copied.tree) else w.disk,
           fates := copied.fates), copied.out)
  }

  function RestoreSettings(w: World, pending: bool, source: Option<Tree>): Ran {
    var removed := RemoveSettings(w, pending);
    if removed.out != Done then removed else CopySettings(removed.w, pending, source)
  }

  // ----- Rollback and retirement -----

  predicate ValidLocation(l: Location) {
    BACKUP_PREFIX <= l.name && l.folder == TEMP
  }

  function BackupOf(d: Disk, m: Manifest): Option<Tree> {
    if m.backup.Some? && ValidLocation(m.backup.value) then Get(d.temp, m.backup.value.name) else None
  }

  /** Location, digest and inventory of the backup all match. */
  predicate Verified(d: Disk, m: Manifest) {
    var backup := BackupOf(d, m);
    && backup.Some? && backup.value.Dir?
    && match Find(Kids(d.journal), INDEX)
       case Some(File(bytes)) =>
         && bytes.size <= MAX_INDEX
         && m.digest == Some(Sha256(bytes))
         && bytes.text.Index?
         && Inventory(backup.value) == Some(bytes.text.listing)
       case _ => false
  }

  function BackupObjects(backup: Option<Tree>): Forest {
    Kids(Find(Kids(backup), DATA))
  }

  function Reinstate(w: World, backup: Option<Tree>): Ran {
    var data := ReplaceData(w, DATA_OBJECTS, BackupObjects(backup));
    if data.out != Done then data else
    var settings := RestoreSettings(data.w, false, Find(Kids(backup), SETTINGS));
    if settings.out != Done then settings else
    RestoreSettings(settings.w, true, Find(Kids(backup), PENDING))
  }

  function Restore(w: World): Ran {
    var read := Attempt(w, w.disk);
    if read.out != Done then read
    else if !Verified(w.disk, w.manifest) then Ran(read.w, Failed)
    else
      var r := Reinstate(read.w, BackupOf(w.disk, w.manifest));
      if r.out != Done then r
      else WriteManifest(r.w.(manifest := r.w.manifest.(state := RolledBack)))
  }

  function RetireJournal(w: World): Ran {
    var removed := RemoveObject(w.fates, w.disk.journal);
    Ran(w.(disk := w.disk.(journal := removed.tree), fates := removed.fates), removed.out)
  }

  function Retire(w: World): Ran {
    if w.manifest.backup.None? then RetireJournal(w)
    else if !ValidLocation(w.manifest.backup.value) then Ran(w, Failed)
    else
      var name := w.manifest.backup.value.name;
      var removed := RemoveObject(w.fates, Get(w.disk.temp, name));
      var after := w.(disk := w.disk.(temp := Set(w.disk.temp, name, removed.tree)), fates := removed.fates);
      if removed.out != Done then Ran(after, removed.out) else RetireJournal(after)
  }

  // ----- Preparing the replacement -----

  function AddFile(backup: Tree, name: string, o: Option<Tree>): Tree {
    if o.None? then backup else Dir(Put(Kids(Some(backup)), name, o.value))
  }

  function AddObject(backup: Tree, name: string, o: Option<Tree>): Tree {
    if o.None? then backup else
    Dir(Put(Kids(Some(backup)), DATA, Dir(Put(BackupObjects(Some(backup)), name, o.value))))
  }

  function BackUpObjects(w: World, dir: string, names: seq<string>): Ran
    requires dir in w.disk.temp
    decreases |names|
  {
    if names == [] then Ran(w, Done)
    else
      var copied := CopyObject(w.fates, Get(w.disk.data, names[0]));
      var after := w.(disk := w.disk.(temp := w.disk.temp[dir := AddObject(w.disk.temp[dir], names[0], copied.tree)]),
                      fates := copied.fates);
      if copied.out != Done then Ran(after, copied.out) else BackUpObjects(after, dir, names[1..])
  }

  function BackUpSettings(w: World, dir: string, pending: bool): Ran
    requires dir in w.disk.temp
  {
    var copied := CopyObject(w.fates, SettingsFile(w.disk, pending));
    var name := if pending then PENDING else SETTINGS;
    Ran(w.(disk := w.disk.(temp := w.disk.temp[dir := AddFile(w.disk.temp[dir], name, copied.tree)]),
           fates := copied.fates), copied.out)
  }

  function MakeBackup(w: World, dir: string): (r: Ran)
    ensures r.out.Done? ==> dir in r.w.disk.temp
  {
    var made := Attempt(w, w.disk.(temp := w.disk.temp[dir := Dir(Nil)]));
    if made.out != Done then made else
    BackUpObjectsKeepsDir(made.w, dir, DATA_OBJECTS);
    var data := BackUpObjects(made.w, dir, DATA_OBJECTS);
    if data.out != Done then data else
    var settings := BackUpSettings(data.w, dir, false);
    if settings.out != Done then settings else
    BackUpSettings(settings.w, dir, true)
  }

  lemma BackUpObjectsKeepsDir(w: World, dir: string, names: seq<string>)
    requires dir in w.disk.temp
    ensures dir in BackUpObjects(w, dir, names).w.disk.temp
    decreases |names|
  {
  }

  function IniValues(o: Option<Tree>): map<string, string> {
    match o
    case Some(File(Bytes(_, Ini(values, _)))) => values
    case _ => map[]
  }

  predicate IniIntact(o: Option<Tree>) {
    match o
    case None => true
    case Some(File(Bytes(_, Ini(_, intact)))) => intact
    case _ => false
  }

  /** A pending file that holds keys replaces the settings file. */
  function PreviousSettings(backup: Option<Tree>): Option<Tree> {
    var pending := Find(Kids(backup), PENDING);
    if IniValues(pending) != map[] then pending else Find(Kids(backup), SETTINGS)
  }

  function SafeValues(incoming: Option<Tree>): map<string, string> {
    map key | key in IniValues(incoming) && key in SAFE_SETTINGS :: IniValues(incoming)[key]
  }

  /** The staged settings file, absent when there is nothing to write. */
  function MergeSettings(c: Codec, previous: Option<Tree>, incoming: Option<Tree>): Option<Tree> {
    if SafeValues(incoming) == map[] then previous
    else
      var values := IniValues(previous) + SafeValues(incoming);
      Some(File(Bytes(c.iniSize(values), Ini(values, true))))
  }

  function MergedForest(c: Codec, backup: Option<Tree>, sqlite: bool, imports: Option<Tree>, incoming: Option<Tree>): Forest {
    var stored := c.store(BackupObjects(backup), imports, sqlite);
    var settings := MergeSettings(c, PreviousSettings(backup), incoming);
    if settings.Some? then Put(stored, SETTINGS, settings.value) else stored
  }

  function BuildMerged(c: Codec, e: Env, w: World, backup: Option<Tree>): Ran {
    var made := Attempt(w, WithEntry(w.disk, MergedName(e), Dir(Nil)));
    if made.out != Done then made else
    var kids := Kids(w.disk.journal);
    var sqlite := "torrents.db" in w.disk.data;
    var stored := Attempt(made.w, WithEntry(made.w.disk, MergedName(e), Dir(c.store(BackupObjects(backup), Find(kids, IMPORTS), sqlite))));
    if stored.out != Done then stored
    else if !e.verified
      || !IniIntact(Find(Kids(backup), PENDING)) || !IniIntact(PreviousSettings(backup)) || !IniIntact(Find(kids, SETTINGS))
    then Ran(stored.w, Failed)
    else Attempt(stored.w, WithEntry(stored.w.disk, MergedName(e),
                   Dir(MergedForest(c, backup, sqlite, Find(kids, IMPORTS), Find(kids, SETTINGS)))))
  }

  function IndexBytes(c: Codec, listing: map<Path, Mark>): Bytes {
    Bytes(c.indexSize(listing), Index(listing))
  }

  function IndexAndMerge(c: Codec, e: Env, w: World, backup: Tree): Ran {
    var listing := Inventory(backup);
    if listing.None? then Ran(w, Failed) else
    var indexed := Attempt(w, WithEntry(w.disk, INDEX, File(IndexBytes(c, listing.value))));
    if indexed.out != Done then indexed else
    BuildMerged(c, e, indexed.w, Some(backup))
  }

  function Stage(c: Codec, e: Env, w: World): Ran {
    if !e.admitted then Ran(w, Failed) else
    var made := MakeBackup(w, BackupName(e));
    if made.out != Done then made else
    IndexAndMerge(c, e, made.w, made.w.disk.temp[BackupName(e)])
  }

  // ----- Installation -----

  function IndexDigest(d: Disk): Option<Digest> {
    match Find(Kids(d.journal), INDEX)
    case Some(File(bytes)) => Some(Sha256(bytes))
    case _ => None
  }

  /** The decision to install: from here on the journal names the backup. */
  function Begin(e: Env, w: World): Ran {
    WriteManifest(w.(manifest := w.manifest.(state := Installing,
                                             backup := Some(Location(TEMP, BackupName(e))),
                                             digest := IndexDigest(w.disk))))
  }

  function Swap(w: World, merged: Forest): Ran {
    var data := ReplaceData(w, DATA_OBJECTS, merged);
    if data.out != Done then data else
    var settings := CopySettings(data.w, false, Find(merged, SETTINGS));
    if settings.out != Done then settings else
    RemoveSettings(settings.w, true)
  }

  function Undo(w: World): Ran {
    var restored := Restore(w);
    Ran(restored.w, if restored.out.Done? then Failed else restored.out)
  }

  function Finish(e: Env, w: World): Ran {
    var swapped := Swap(w, Kids(Find(Kids(w.disk.journal), MergedName(e))));
    if swapped.out.Crashed? then swapped
    else if swapped.out.Failed? then Undo(swapped.w)
    else
      var written := WriteManifest(swapped.w.(manifest := swapped.w.manifest.(state := Committed)));
      if written.out.Crashed? then written
      else if written.out.Failed? then Undo(written.w)
      else Retire(written.w)
  }

  /** An automatic clean-up whose failure is ignored. */
  function Tidy(r: Ran, d: Disk): Ran {
    var tried := Attempt(r.w, d);
    Ran(tried.w, if tried.out.Crashed? then Crashed else r.out)
  }

  function TidyMerged(e: Env, r: Ran): Ran {
    if r.out.Crashed? || Find(Kids(r.w.disk.journal), MergedName(e)).None? then r
    else Tidy(r, r.w.disk.(journal := Some(Dir(Drop(Kids(r.w.disk.journal), MergedName(e))))))
  }

  function TidyBackup(e: Env, r: Ran): Ran {
    if r.out.Crashed? || BackupName(e) !in r.w.disk.temp then r
    else Tidy(r, r.w.disk.(temp := r.w.disk.temp - {BackupName(e)}))
  }

  predicate Fresh(e: Env, d: Disk) {
    BackupName(e) !in d.temp && Find(Kids(d.journal), MergedName(e)).None?
  }

  /** From the complete staging on. */
  function Proceed(e: Env, w: World): Ran {
    var begun := Begin(e, w);
    if !begun.out.Done? then TidyBackup(e, TidyMerged(e, begun))
    else TidyMerged(e, Finish(e, begun.w))
  }

  function Install(c: Codec, e: Env, w: World): Ran {
    if !Fresh(e, w.disk) then Ran(w, Failed) else
    var staged := Stage(c, e, w);
    if !staged.out.Done? then TidyBackup(e, TidyMerged(e, staged)) else Proceed(e, staged.w)
  }

  function Conclude(installed: Ran): Ran {
    if !installed.out.Failed? then installed
    else if installed.w.manifest.state.Installing? then Undo(installed.w)
    else if installed.w.manifest.state.Prepared? then
      var written := WriteManifest(installed.w.(manifest := installed.w.manifest.(state := RolledBack)));
      Ran(written.w, if written.out.Crashed? then Crashed else Failed)
    else installed
  }

  /** One startup. */
  function Recover(c: Codec, e: Env, d: Disk, fates: seq<Fate>): Ran {
    var blank := World(d, fates, Manifest(0, Unknown, None, None));
    if d.journal.None? then Ran(blank, Done)
    else if e.locked then Ran(blank, Failed)
    else
      var read := Attempt(blank, d);
      var onDisk := ManifestOn(d);
      if read.out != Done then read
      else if onDisk.None? || onDisk.value.version != 1 then Ran(read.w, Failed)
      else
        var w := read.w.(manifest := onDisk.value);
        match onDisk.value.state
        case Installing => Undo(w)
        case Committed => Retire(w)
        case RolledBack => Retire(w)
        case Unknown => Ran(w, Failed)
        case Prepared => Conclude(Install(c, e, w))
  }

  // ----- Publication -----

  function SafeOf(chosen: map<string, string>): map<string, string> {
    map key | key in chosen && key in SAFE_SETTINGS :: chosen[key]
  }

  function ChosenFile(c: Codec, chosen: map<string, string>): Tree {
    File(Bytes(c.iniSize(SafeOf(chosen)), Ini(SafeOf(chosen), true)))
  }

  /** The transaction directory that prepare() publishes. */
  function PreparedJournal(c: Codec, imports: Tree, chosen: map<string, string>): Forest {
    var manifest := Cons(MANIFEST, PreparedManifest(), Nil);
    Cons(IMPORTS, imports,
         if SafeOf(chosen) == map[] then manifest else Cons(SETTINGS, ChosenFile(c, chosen), manifest))
  }

  function WithPrepared(d: Disk, dir: string, name: string, t: Tree): Disk {
    d.(preparing := d.preparing[dir := Dir(Put(Kids(Get(d.preparing, dir)), name, t))])
  }

  function PreparedManifest(): Tree {
    File(Bytes(0, Journal(Manifest(1, State.Prepared, None, None))))
  }

  /** Without a value to store no settings file is written. */
  function PrepareSettings(c: Codec, w: World, dir: string, chosen: map<string, string>): Ran {
    var settings := if SafeOf(chosen) == map[] then Ran(w, Done)
                    else Attempt(w, WithPrepared(w.disk, dir, SETTINGS, ChosenFile(c, chosen)));
    if settings.out != Done then settings
    else Attempt(settings.w, WithPrepared(settings.w.disk, dir, MANIFEST, PreparedManifest()))
  }

  function Prepare(c: Codec, w: World, dir: string, verified: bool, imports: Tree, chosen: map<string, string>): Ran {
    var made := Attempt(w, w.disk.(preparing := w.disk.preparing[dir := Dir(Nil)]));
    if made.out != Done then made else
    var stored := Attempt(made.w, WithPrepared(made.w.disk, dir, IMPORTS, imports));
    if stored.out != Done then stored
    else if !verified then Ran(stored.w, Failed)
    else PrepareSettings(c, stored.w, dir, chosen)
  }

  /** The directory is made, filled and renamed into place. */
  function PrepareAndRename(c: Codec, w: World, dir: string, verified: bool, imports: Tree, chosen: map<string, string>): Ran {
    var prepared := Prepare(c, w, dir, verified, imports, chosen);
    if prepared.out != Done then prepared else
    Attempt(prepared.w, prepared.w.disk.(journal := Get(prepared.w.disk.preparing, dir),
                                         preparing := prepared.w.disk.preparing - {dir}))
  }

  function TidyPrepared(dir: string, r: Ran): Ran {
    if !r.out.Failed? || dir !in r.w.disk.preparing then r
    else Tidy(r, r.w.disk.(preparing := r.w.disk.preparing - {dir}))
  }

  /** One call of prepare(): whether it was confirmed, whether the selected
      records passed their checks, whether the stored ones read back the same,
      and the name of its directory. */
  datatype Order = Order(confirmed: bool, admitted: bool, verified: bool, dir: string)

  function Publish(c: Codec, d: Disk, fates: seq<Fate>, order: Order, imports: Tree, chosen: map<string, string>): Ran {
    var w := World(d, fates, Manifest(0, Unknown, None, None));
    if !order.confirmed || d.journal.Some? || !order.admitted || order.dir in d.preparing then Ran(w, Failed)
    else TidyPrepared(order.dir, PrepareAndRename(c, w, order.dir, order.verified, imports, chosen))
  }
}
