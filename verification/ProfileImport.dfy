/** The imperative form of the transaction: an object that changes the disk one
    operation at a time, keeps its own copy of the manifest and returns early on
    errors. Every method is proved to do exactly what ImportSteps says. */
module ProfileImport {
  import opened Wrappers
  import opened FileTrees
  import opened ImportSteps
  import opened ImportTheorems
  import opened ImportSafety
  import opened ImportOutcomes

  function Append(f: Forest, g: Forest): Forest {
    if f.Nil? then g else Cons(f.name, f.tree, Append(f.rest, g))
  }

  lemma AppendNil(f: Forest)
    ensures Append(f, Nil) == f
  {
  }

  lemma AppendAssociative(f: Forest, g: Forest, h: Forest)
    ensures Append(Append(f, g), h) == Append(f, Append(g, h))
  {
  }

  function Prepend(done: Forest, part: Part): Part {
    part.(kids := Append(done, part.kids))
  }

  class ProfileImport {
    const codec: Codec
    var disk: Disk
    var fates: seq<Fate>
    var manifest: Manifest

    constructor (codec: Codec, disk: Disk, fates: seq<Fate>)
      ensures this.codec == codec && this.disk == disk && this.fates == fates
      ensures manifest == Manifest(0, Unknown, None, None)
    {
      this.codec, this.disk, this.fates := codec, disk, fates;
      manifest := Manifest(0, Unknown, None, None);
    }

    function Now(): World
      reads this
    {
      World(disk, fates, manifest)
    }

    method Attempt(next: Disk) returns (out: Outcome)
      modifies this`disk, this`fates
      ensures Ran(Now(), out) == ImportSteps.Attempt(old(Now()), next)
    {
      var fate := Next(fates);
      fates := Later(fates);
      if fate.Works? { disk := next; }
      out := FileTrees.After(fate);
    }

    method WriteManifest() returns (out: Outcome)
      modifies this`disk, this`fates
      ensures Ran(Now(), out) == ImportSteps.WriteManifest(old(Now()))
    {
      out := Attempt(WithEntry(disk, MANIFEST, File(Bytes(0, Journal(manifest)))));
    }

    method CopyTree(t: Tree, depth: nat) returns (made: Option<Tree>, out: Outcome)
      modifies this`fates
      ensures Slot(made, fates, out) == FileTrees.CopyTree(old(fates), t, depth)
      decreases t, 1
    {
      made, out := None, Failed;
      if t.Link? || depth > MAX_DEPTH { return; }
      match t {
        case File(bytes) =>
          if bytes.size > MAX_FILE { return; }
          var fate := Next(fates);
          fates := Later(fates);
          if fate.Works? { made := Some(t); }
          out := FileTrees.After(fate);
        case Dir(kids) =>
          var fate := Next(fates);
          fates := Later(fates);
          if !fate.Works? { out := FileTrees.After(fate); return; }
          if Entries(kids) > MAX_ENTRIES { made := Some(Dir(Nil)); return; }
          var copies;
          copies, out := CopyKids(kids, depth + 1);
          made := Some(Dir(copies));
      }
    }

    method CopyKids(kids: Forest, depth: nat) returns (copies: Forest, out: Outcome)
      modifies this`fates
      ensures Part(copies, fates, out) == FileTrees.CopyKids(old(fates), kids, depth)
      decreases kids, 0
    {
      var rest := kids;
      copies, out := Nil, Done;
      while rest.Cons?
        invariant out.Done?
        invariant rest == kids || rest < kids
        invariant FileTrees.CopyKids(old(fates), kids, depth) == Prepend(copies, FileTrees.CopyKids(fates, rest, depth))
        decreases rest
      {
        var made;
        ghost var before := copies;
        ghost var fatesBefore := fates;
        made, out := CopyTree(rest.tree, depth);
        if made.Some? {
          copies := Append(copies, Cons(rest.name, made.value, Nil));
          AppendAssociative(before, Cons(rest.name, made.value, Nil), FileTrees.CopyKids(fates, rest.rest, depth).kids);
        }
        AppendNil(before);
        if out != Done { return; }
        rest := rest.rest;
      }
      AppendNil(copies);
    }

    method CopyObject(source: Option<Tree>) returns (made: Option<Tree>, out: Outcome)
      modifies this`fates
      ensures Slot(made, fates, out) == FileTrees.CopyObject(old(fates), source)
    {
      if source.None? { return None, Done; }
      made, out := CopyTree(source.value, 0);
    }

    method RemoveTree(t: Tree, depth: nat) returns (left: Option<Tree>, out: Outcome)
      modifies this`fates
      ensures Slot(left, fates, out) == FileTrees.RemoveTree(old(fates), t, depth)
      decreases t, 1
    {
      left, out := Some(t), Failed;
      if t.Link? || depth > MAX_DEPTH { return; }
      if t.Dir? {
        var kids;
        RemoveKidsExact(fates, t.kids, depth + 1);
        kids, out := RemoveKids(t.kids, depth + 1);
        left := Some(Dir(kids));
        if out != Done { return; }
      }
      var fate := Next(fates);
      fates := Later(fates);
      if fate.Works? { left := None; }
      out := FileTrees.After(fate);
    }

    method RemoveKids(kids: Forest, depth: nat) returns (left: Forest, out: Outcome)
      modifies this`fates
      ensures Part(left, fates, out) == FileTrees.RemoveKids(old(fates), kids, depth)
      decreases kids, 0
    {
      left, out := kids, Done;
      while left.Cons?
        invariant out.Done?
        invariant left == kids || left < kids
        invariant FileTrees.RemoveKids(old(fates), kids, depth) == FileTrees.RemoveKids(fates, left, depth)
        decreases left
      {
        var rest;
        rest, out := RemoveTree(left.tree, depth);
        if out != Done {
          left := if rest.Some? then Cons(left.name, rest.value, left.rest) else left.rest;
          return;
        }
        left := left.rest;
      }
    }

    method RemoveObject(target: Option<Tree>) returns (left: Option<Tree>, out: Outcome)
      modifies this`fates
      ensures Slot(left, fates, out) == FileTrees.RemoveObject(old(fates), target)
    {
      if target.None? { return None, Done; }
      left, out := RemoveTree(target.value, 0);
    }

    method ReplaceData(source: Forest) returns (out: Outcome)
      modifies this`disk, this`fates
      ensures Ran(Now(), out) == ImportSteps.ReplaceData(old(Now()), DATA_OBJECTS, source)
    {
      out := Done;
      for i := 0 to |DATA_OBJECTS|
        invariant ImportSteps.ReplaceData(old(Now()), DATA_OBJECTS, source)
                  == ImportSteps.ReplaceData(Now(), DATA_OBJECTS[i..], source)
        invariant out.Done?
      {
        var name := DATA_OBJECTS[i];
        assert DATA_OBJECTS[i..][1..] == DATA_OBJECTS[i + 1..];
        var slot;
        slot, out := RemoveObject(Get(disk.data, name));
        if out.Done? {
          slot, out := CopyObject(Find(source, name));
        }
        disk := disk.(data := Set(disk.data, name, slot));
        if out != Done { return; }
      }
    }

    method RemoveSettings(pending: bool) returns (out: Outcome)
      modifies this`disk, this`fates
      ensures Ran(Now(), out) == ImportSteps.RemoveSettings(old(Now()), pending)
    {
      var left;
      left, out := RemoveObject(SettingsFile(disk, pending));
      disk := WithSettings(disk, pending, left);
    }

    method CopySettings(pending: bool, source: Option<Tree>) returns (out: Outcome)
      modifies this`disk, this`fates
      ensures Ran(Now(), out) == ImportSteps.CopySettings(old(Now()), pending, source)
    {
      var made;
      made, out := CopyObject(source);
      if made.Some? { disk := WithSettings(disk, pending, made); }
    }

    method RestoreSettings(pending: bool, source: Option<Tree>) returns (out: Outcome)
      modifies this`disk, this`fates
      ensures Ran(Now(), out) == ImportSteps.RestoreSettings(old(Now()), pending, source)
    {
      out := RemoveSettings(pending);
      if out.Done? { out := CopySettings(pending, source); }
    }

    /** The restore lambda of recover(). */
    method Restore() returns (out: Outcome)
      modifies this`disk, this`fates, this`manifest
      ensures Ran(Now(), out) == ImportSteps.Restore(old(Now()))
    {
      out := Attempt(disk);
      if out != Done { return; }
      if !Verified(disk, manifest) { return Failed; }
      var backup := BackupOf(disk, manifest);
      out := ReplaceData(BackupObjects(backup));
      if out != Done { return; }
      out := RestoreSettings(false, Find(Kids(backup), SETTINGS));
      if out != Done { return; }
      out := RestoreSettings(true, Find(Kids(backup), PENDING));
      if out != Done { return; }
      manifest := manifest.(state := RolledBack);
      out := WriteManifest();
    }

    /** The retire lambda of recover(). */
    method Retire() returns (out: Outcome)
      modifies this`disk, this`fates
      ensures Ran(Now(), out) == ImportSteps.Retire(old(Now()))
    {
      var left;
      if manifest.backup.Some? {
        if !ValidLocation(manifest.backup.value) { return Failed; }
        var name := manifest.backup.value.name;
        left, out := RemoveObject(Get(disk.temp, name));
        disk := disk.(temp := Set(disk.temp, name, left));
        if out != Done { return; }
      }
      left, out := RemoveObject(disk.journal);
      disk := disk.(journal := left);
    }

    method BackUpObjects(dir: string) returns (out: Outcome)
      requires dir in disk.temp
      modifies this`disk, this`fates
      ensures Ran(Now(), out) == ImportSteps.BackUpObjects(old(Now()), dir, DATA_OBJECTS)
      ensures dir in disk.temp
    {
      out := Done;
      for i := 0 to |DATA_OBJECTS|
        invariant dir in disk.temp && out.Done?
        invariant ImportSteps.BackUpObjects(old(Now()), dir, DATA_OBJECTS)
                  == ImportSteps.BackUpObjects(Now(), dir, DATA_OBJECTS[i..])
      {
        assert DATA_OBJECTS[i..][1..] == DATA_OBJECTS[i + 1..];
        var made;
        made, out := CopyObject(Get(disk.data, DATA_OBJECTS[i]));
        disk := disk.(temp := disk.temp[dir := AddObject(disk.temp[dir], DATA_OBJECTS[i], made)]);
        if out != Done { return; }
      }
    }

    method BackUpSettings(dir: string, pending: bool) returns (out: Outcome)
      requires dir in disk.temp
      modifies this`disk, this`fates
      ensures Ran(Now(), out) == ImportSteps.BackUpSettings(old(Now()), dir, pending)
      ensures dir in disk.temp
    {
      var made;
      made, out := CopyObject(SettingsFile(disk, pending));
      disk := disk.(temp := disk.temp[dir := AddFile(disk.temp[dir], if pending then PENDING else SETTINGS, made)]);
    }

    method MakeBackup(dir: string) returns (out: Outcome)
      modifies this`disk, this`fates
      ensures Ran(Now(), out) == ImportSteps.MakeBackup(old(Now()), dir)
    {
      out := Attempt(disk.(temp := disk.temp[dir := Dir(Nil)]));
      if out != Done { return; }
      BackUpObjectsKeepsDir(Now(), dir, DATA_OBJECTS);
      out := BackUpObjects(dir);
      if out != Done { return; }
      out := BackUpSettings(dir, false);
      if out != Done { return; }
      out := BackUpSettings(dir, true);
    }

    /** From the backup to the staged replacement. */
    method Stage(e: Env) returns (out: Outcome)
      modifies this`disk, this`fates
      ensures Ran(Now(), out) == ImportSteps.Stage(codec, e, old(Now()))
    {
      if !e.admitted { return Failed; }
      out := MakeBackup(BackupName(e));
      if out != Done { return; }
      var backup := disk.temp[BackupName(e)];
      var listing := Inventory(backup);
      if listing.None? { return Failed; }
      out := Attempt(WithEntry(disk, INDEX, File(IndexBytes(codec, listing.value))));
      if out != Done { return; }
      out := BuildMerged(e, backup);
    }

    method BuildMerged(e: Env, backup: Tree) returns (out: Outcome)
      modifies this`disk, this`fates
      ensures Ran(Now(), out) == ImportSteps.BuildMerged(codec, e, old(Now()), Some(backup))
    {
      var kids := Kids(disk.journal);
      var imports, incoming := Find(kids, IMPORTS), Find(kids, SETTINGS);
      var sqlite := "torrents.db" in disk.data;
      out := Attempt(WithEntry(disk, MergedName(e), Dir(Nil)));
      if out != Done { return; }
      var objects := BackupObjects(Some(backup));
      out := Attempt(WithEntry(disk, MergedName(e), Dir(codec.store(objects, imports, sqlite))));
      if out != Done { return; }
      if !e.verified { return Failed; }
      var previous := PreviousSettings(Some(backup));
      if !IniIntact(Find(Kids(Some(backup)), PENDING)) || !IniIntact(previous) || !IniIntact(incoming) { return Failed; }
      out := Attempt(WithEntry(disk, MergedName(e), Dir(MergedForest(codec, Some(backup), sqlite, imports, incoming))));
    }

    method Undo() returns (out: Outcome)
      modifies this`disk, this`fates, this`manifest
      ensures Ran(Now(), out) == ImportSteps.Undo(old(Now()))
    {
      out := Restore();
      if out.Done? { out := Failed; }
    }

    /** Replaces the live profile, commits and retires, or rolls back. */
    method Finish(e: Env) returns (out: Outcome)
      modifies this`disk, this`fates, this`manifest
      ensures Ran(Now(), out) == ImportSteps.Finish(e, old(Now()))
    {
      var merged := Kids(Find(Kids(disk.journal), MergedName(e)));
      out := ReplaceData(merged);
      if out.Done? { out := CopySettings(false, Find(merged, SETTINGS)); }
      if out.Done? { out := RemoveSettings(true); }
      if out.Crashed? { return; }
      if out.Failed? { out := Undo(); return; }
      manifest := manifest.(state := Committed);
      out := WriteManifest();
      if out.Crashed? { return; }
      if out.Failed? { out := Undo(); return; }
      out := Retire();
    }

    /** The destructors of the temporary directories; their failures are ignored. */
    method Tidy(e: Env, keepBackup: bool, out: Outcome) returns (end: Outcome)
      modifies this`disk, this`fates
      ensures var tidied := TidyMerged(e, Ran(old(Now()), out));
              Ran(Now(), end) == if keepBackup then tidied else TidyBackup(e, tidied)
    {
      end := out;
      var kids := Kids(disk.journal);
      if end != Crashed && Find(kids, MergedName(e)).Some? {
        var tried := Attempt(disk.(journal := Some(Dir(Drop(kids, MergedName(e))))));
        if tried.Crashed? { end := Crashed; }
      }
      if !keepBackup && end != Crashed && BackupName(e) in disk.temp {
        var tried := Attempt(disk.(temp := disk.temp - {BackupName(e)}));
        if tried.Crashed? { end := Crashed; }
      }
    }

    /** The install lambda of recover(). */
    method Install(e: Env) returns (out: Outcome)
      modifies this`disk, this`fates, this`manifest
      ensures Ran(Now(), out) == ImportSteps.Install(codec, e, old(Now()))
    {
      if !Fresh(e, disk) { return Failed; }
      out := Stage(e);
      if out != Done { out := Tidy(e, false, out); return; }
      manifest := manifest.(state := Installing, backup := Some(Location(TEMP, BackupName(e))), digest := IndexDigest(disk));
      out := WriteManifest();
      if out != Done { out := Tidy(e, false, out); return; }
      out := Finish(e);
      out := Tidy(e, true, out);
    }

    /** recover(): one startup. */
    method Recover(e: Env) returns (out: Outcome)
      requires manifest == Manifest(0, Unknown, None, None)
      modifies this`disk, this`fates, this`manifest
      ensures Ran(Now(), out) == ImportSteps.Recover(codec, e, old(disk), old(fates))
      ensures out.Done? <==> disk.journal.None?
    {
      GoesOnExactly(codec, e, disk, fates);
      if disk.journal.None? { return Done; }
      if e.locked { return Failed; }
      var onDisk := ManifestOn(disk);
      out := Attempt(disk);
      if out != Done { return; }
      if onDisk.None? || onDisk.value.version != 1 { return Failed; }
      manifest := onDisk.value;
      match manifest.state {
        case Installing => out := Undo(); return;
        case Committed => out := Retire(); return;
        case RolledBack => out := Retire(); return;
        case Unknown => return Failed;
        case Prepared =>
      }
      out := Install(e);
      if !out.Failed? { return; }
      if manifest.state.Installing? { out := Undo(); return; }
      if manifest.state.Prepared? {
        manifest := manifest.(state := RolledBack);
        out := WriteManifest();
        if out.Done? { out := Failed; }
      }
    }

    method PrepareSettings(dir: string, chosen: map<string, string>) returns (out: Outcome)
      modifies this`disk, this`fates
      ensures Ran(Now(), out) == ImportSteps.PrepareSettings(codec, old(Now()), dir, chosen)
    {
      if SafeOf(chosen) != map[] {
        out := Attempt(WithPrepared(disk, dir, SETTINGS, ChosenFile(codec, chosen)));
        if out != Done { return; }
      }
      out := Attempt(WithPrepared(disk, dir, MANIFEST, PreparedManifest()));
    }

    method Prepare(dir: string, verified: bool, imports: Tree, chosen: map<string, string>) returns (out: Outcome)
      modifies this`disk, this`fates
      ensures Ran(Now(), out) == ImportSteps.Prepare(codec, old(Now()), dir, verified, imports, chosen)
    {
      out := Attempt(disk.(preparing := disk.preparing[dir := Dir(Nil)]));
      if out != Done { return; }
      out := Attempt(WithPrepared(disk, dir, IMPORTS, imports));
      if out != Done { return; }
      if !verified { return Failed; }
      out := PrepareSettings(dir, chosen);
    }

    /** prepare(): a journal appears with the rename or not at all. */
    method Publish(order: Order, imports: Tree, chosen: map<string, string>) returns (out: Outcome)
      requires manifest == Manifest(0, Unknown, None, None)
      modifies this`disk, this`fates
      ensures Ran(Now(), out) == ImportSteps.Publish(codec, old(disk), old(fates), order, imports, chosen)
      ensures disk.journal == if out.Done? then Some(Dir(PreparedJournal(codec, imports, chosen))) else old(disk.journal)
    {
      PublishStarts(codec, disk, fates, order, imports, chosen);
      if !order.confirmed || disk.journal.Some? || !order.admitted || order.dir in disk.preparing { return Failed; }
      out := Prepare(order.dir, order.verified, imports, chosen);
      if out.Done? {
        out := Attempt(disk.(journal := Get(disk.preparing, order.dir), preparing := disk.preparing - {order.dir}));
      }
      if out.Failed? && order.dir in disk.preparing {
        var tried := Attempt(disk.(preparing := disk.preparing - {order.dir}));
        if tried.Crashed? { out := Crashed; }
      }
    }
  }

  function StartOnce(c: Codec, d: Disk, s: Startup): Disk {
    Recover(c, s.env, Boot(d, s), s.fates).w.disk
  }

  /** `goesOn` is what the application does with the result of recover(). */
  method Start(codec: Codec, disk: Disk, s: Startup) returns (last: Disk, goesOn: bool)
    ensures last == StartOnce(codec, disk, s)
    ensures goesOn <==> last.journal.None?
    ensures disk.journal.None? ==> goesOn && last == Boot(disk, s)
  {
    var startup := new ProfileImport(codec, Boot(disk, s), s.fates);
    var out := startup.Recover(s.env);
    last, goesOn := startup.disk, out.Done?;
  }

  lemma RunStep(c: Codec, d: Disk, startups: seq<Startup>, i: nat)
    requires i < |startups|
    ensures Run(c, d, startups[i..]) == Run(c, StartOnce(c, d, startups[i]), startups[i + 1..])
  {
    assert startups[i..][1..] == startups[i + 1..];
  }

  /** Startups in sequence, each an object of its own over the disk the last one
      left: the promise of the import over every run. */
  method Startups(codec: Codec, disk: Disk, startups: seq<Startup>, ghost o: Live,
                  ghost imports: Option<Tree>, ghost incoming: Option<Tree>) returns (last: Disk, goesOn: bool)
    requires CanonicalLive(o) && Inv(codec, disk, o, imports, incoming) && Sound(codec, disk, startups)
    ensures last == Run(codec, disk, startups)
    ensures Inv(codec, last, o, imports, incoming)
    ensures goesOn <==> last.journal.None?
    ensures goesOn ==> LiveOf(last) in {o, Goal(codec, o, imports, incoming)}
  {
    AllOrNothing(codec, disk, startups, o, imports, incoming);
    last, goesOn := disk, disk.journal.None?;
    for i := 0 to |startups|
      invariant Run(codec, disk, startups) == Run(codec, last, startups[i..])
      invariant goesOn <==> last.journal.None?
    {
      RunStep(codec, last, startups, i);
      last, goesOn := Start(codec, last, startups[i]);
    }
  }
}
