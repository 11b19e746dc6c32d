/** The two-file protocol of src/base/settingsstorage.cpp: a save writes the
    `_new` file, deletes the settings file and renames; a start recovers from
    whatever an interrupted save left. Each file operation is atomic. */
module SettingsFiles {
  import opened Wrappers
  import opened FileTrees
  import IS = ImportSteps
  import IT = ImportTheorems

  type Settings = map<string, string>

  /** `newer` is the `_new` file. */
  datatype Files = Files(main: Option<Settings>, newer: Option<Settings>)

  datatype Saved = Saved(files: Files, fates: seq<Fate>, ok: bool, crashed: bool)

  function Values(o: Option<Settings>): Settings {
    if o.Some? then o.value else map[]
  }

  /** What a start reads: the `_new` file when it has keys, else the other. */
  function ReadBack(f: Files): Settings {
    if Values(f.newer) != map[] then f.newer.value else Values(f.main)
  }

  predicate Stale(f: Files) {
    Values(f.newer) != map[]
  }

  /** One operation that turns the files into `next`. */
  function Attempt(s: Saved, next: Files): Saved {
    if s.crashed then s
    else Saved(if Next(s.fates).Works? then next else s.files, Later(s.fates),
               Next(s.fates).Works?, Next(s.fates).Crashes?)
  }

  /** QFile::rename refuses a missing source and an existing target. */
  function Rename(s: Saved): Saved {
    if s.crashed then s
    else if s.files.newer.None? || s.files.main.Some? then s.(ok := false)
    else Attempt(s, Files(s.files.newer, None))
  }

  /** Removal of the settings file, whose failure is ignored, then the rename. */
  function Publish(s: Saved): Saved {
    Rename(if s.files.main.Some? then Attempt(s, s.files.(main := None)) else s)
  }

  /** QSettings loads what the `_new` file already holds, and with no key to set
      it writes nothing. */
  function Sync(s: Saved, data: Settings): Saved {
    if data == map[] then s.(ok := true)
    else Attempt(s, s.files.(newer := Some(Values(s.files.newer) + data)))
  }

  function Write(files: Files, data: Settings, fates: seq<Fate>): Saved {
    var synced := Sync(Saved(files, fates, true, false), data);
    if synced.crashed then synced
    else if !synced.ok then Attempt(synced, synced.files.(newer := None)).(ok := false)
    else Publish(synced)
  }

  function Recover(files: Files, fates: seq<Fate>): Saved {
    var start := Saved(files, fates, true, false);
    if Stale(files) then Publish(start) else start
  }

  /** Whatever happens during a start, the next start reads the same map. */
  lemma RecoverIsSafe(files: Files, fates: seq<Fate>)
    ensures ReadBack(Recover(files, fates).files) == ReadBack(files)
  {
  }

  /** A successful save is read back as the memory map on top of what the `_new`
      file held before, and leaves no `_new` file behind. */
  lemma SaveSucceeds(files: Files, data: Settings, fates: seq<Fate>)
    requires var s := Write(files, data, fates); s.ok && !s.crashed
    ensures var after := Write(files, data, fates).files;
            && after.newer.None?
            && ReadBack(after) == Values(files.newer) + data
            && (ReadBack(after) == data <==> Values(files.newer).Keys <= data.Keys)
  {
    var both := Values(files.newer) + data;
    assert both.Keys == Values(files.newer).Keys + data.Keys;
    assert Values(files.newer).Keys <= data.Keys ==> both == data;
    assert data == map[] ==> both == Values(files.newer);
  }

  /** The first n operations work. */
  predicate Work(fates: seq<Fate>, n: nat) {
    n > 0 ==> Next(fates).Works? && Work(Later(fates), n - 1)
  }

  /** The operations of a save that goes well: the write unless there is nothing to
      write, the removal of the settings file if there is one, and the rename. */
  function Operations(files: Files, data: Settings): nat {
    (if data == map[] then 0 else 1) + (if files.main.Some? then 1 else 0) + 1
  }

  /** A save succeeds exactly when each of its operations works and there is a
      `_new` file to rename: written now, or left behind by an earlier save. */
  lemma SaveSucceedsExactly(files: Files, data: Settings, fates: seq<Fate>)
    ensures var s := Write(files, data, fates);
            s.ok && !s.crashed <==> Work(fates, Operations(files, data)) && (data != map[] || files.newer.Some?)
  {
    var one := Later(fates);
    assert Work(one, 1) <==> Next(one).Works?;
    assert Work(Later(one), 1) <==> Next(Later(one)).Works?;
    assert Work(one, 2) <==> Next(one).Works? && Work(Later(one), 1);
    assert Work(fates, Operations(files, data)) <==>
           Next(fates).Works? && (Operations(files, data) > 1 ==> Work(one, Operations(files, data) - 1));
  }

  /** A start over a `_new` file with keys puts it in place when its operations
      work, and then nothing is left for a later save to merge with. */
  lemma RecoverExact(files: Files, fates: seq<Fate>)
    requires Stale(files) && Work(fates, if files.main.Some? then 2 else 1)
    ensures Recover(files, fates).files == Files(files.newer, None) && !Recover(files, fates).crashed
  {
    assert Work(fates, 1) <==> Next(fates).Works?;
    assert Work(fates, 2) <==> Next(fates).Works? && Work(Later(fates), 1);
  }

  /** Old map or new map, whole, at every instant of a save. */
  predicate SafeAt(files: Files, data: Settings, fates: seq<Fate>) {
    ReadBack(Write(files, data, fates).files) in {ReadBack(files), data}
  }

  /** The condition a save needs of a `_new` file left by an earlier one. */
  predicate SafeToSave(files: Files, data: Settings) {
    var stale := Values(files.newer);
    stale == map[] || data == map[]
    || (stale + data in {stale, data} && Values(files.main) in {stale, data})
  }

  /** A save is whole-old-or-whole-new under every schedule exactly then. */
  lemma SaveIsSafeExactly(files: Files, data: Settings)
    ensures (forall fates :: SafeAt(files, data, fates)) <==> SafeToSave(files, data)
  {
    var stale := Values(files.newer);
    var both := stale + data;
    assert stale.Keys <= data.Keys ==> both == data;
    assert both == data ==> both.Keys == data.Keys && both.Keys == stale.Keys + data.Keys;
    assert both == stale ==> both.Keys == stale.Keys;
    if SafeToSave(files, data) {
      forall fates ensures SafeAt(files, data, fates) {
        assert stale == map[] ==> both == data;
        assert data == map[] ==> both == stale;
      }
    } else if Values(files.main) !in {stale, data} {
      assert Write(files, data, [Fails, Works]).files == files.(newer := None);
      assert !SafeAt(files, data, [Fails, Works]);
    } else {
      assert both != map[] by { assert both.Keys == stale.Keys + data.Keys; }
      assert Write(files, data, [Works, Crashes]).files.newer == Some(both);
      assert !SafeAt(files, data, [Works, Crashes]);
    }
  }

  /** A save whose rename fails leaves the `_new` file as the only copy, and the
      next save that cannot write deletes it: every setting is gone. */
  lemma TwoFailuresLoseEverything(main: Settings, data: Settings, later: Settings)
    requires data != map[] && later != map[]
    ensures var first := Write(Files(Some(main), None), data, [Works, Works, Fails]);
            var second := Write(first.files, later, [Fails, Works]);
            && !first.ok && !first.crashed && ReadBack(first.files) == data
            && !second.ok && !second.crashed && second.files == Files(None, None) && ReadBack(second.files) == map[]
  {
    assert map[] + data == data;
    var synced := Sync(Saved(Files(Some(main), None), [Works, Works, Fails], true, false), data);
    assert synced == Saved(Files(Some(main), Some(data)), [Works, Fails], true, false);
    assert Write(Files(Some(main), None), data, [Works, Works, Fails]).files == Files(None, Some(data));
  }

  /** A key removed between a failed rename and the next save comes back. */
  lemma RemovedKeyReturns(data: Settings, key: string)
    requires key in data && data.Keys != {key}
    ensures var s := Write(Files(None, Some(data)), data - {key}, []);
            s.ok && !s.crashed && key in ReadBack(s.files)
  {
    assert data.Keys == {key} + (data.Keys - {key});
    var k :| k in data.Keys - {key};
    assert k in data - {key};
    SaveSucceeds(Files(None, Some(data)), data - {key}, []);
  }

  // ----- Every run -----

  /** The store: its files, its memory, whether that is dirty, and whether the
      process lives. */
  datatype Store = Store(files: Files, data: Settings, dirty: bool, alive: bool)

  datatype Event =
    | StoreKey(key: string, value: string)
    | RemoveKey(key: string)
    | SaveNow(fates: seq<Fate>)
    | Start(fates: seq<Fate>)

  predicate Saves(s: Store, e: Event) {
    e.SaveNow? && s.alive && s.dirty
  }

  function Apply(s: Store, e: Event): Store {
    match e
    case StoreKey(key, value) =>
      if !s.alive then s
      else s.(data := s.data[key := value], dirty := s.dirty || key !in s.data || s.data[key] != value)
    case RemoveKey(key) =>
      if !s.alive then s else s.(data := s.data - {key}, dirty := s.dirty || key in s.data)
    case SaveNow(fates) =>
      if !Saves(s, e) then s
      else var w := Write(s.files, s.data, fates); Store(w.files, s.data, w.crashed || !w.ok, !w.crashed)
    case Start(fates) =>
      var r := Recover(s.files, fates);
      Store(r.files, ReadBack(s.files), false, !r.crashed)
  }

  function Run(s: Store, events: seq<Event>): Store
    decreases |events|
  {
    if events == [] then s else Run(Apply(s, events[0]), events[1..])
  }

  /** Whatever happens during this save, nothing is lost, and when it succeeds
      the files hold what memory holds. */
  predicate Harmless(files: Files, data: Settings) {
    SafeToSave(files, data) && Values(files.newer).Keys <= data.Keys
  }

  predicate HarmlessSaves(s: Store, events: seq<Event>)
    decreases |events|
  {
    events != [] ==>
      && (Saves(s, events[0]) ==> Harmless(s.files, s.data))
      && HarmlessSaves(Apply(s, events[0]), events[1..])
  }

  /** Nothing dirty, nothing to save: the files read back as memory. */
  predicate Consistent(s: Store) {
    s.alive && !s.dirty ==> ReadBack(s.files) == s.data
  }

  /** What a start may read after the run: the memory of the last save that
      succeeded and of every save tried since, nothing older. */
  function Candidates(s: Store, events: seq<Event>, before: set<Settings>): set<Settings>
    decreases |events|
  {
    if events == [] then before
    else
      var next := Apply(s, events[0]);
      Candidates(next, events[1..],
                 if !Saves(s, events[0]) then before
                 else if next.alive && !next.dirty then {s.data}
                 else before + {s.data})
  }

  lemma EventKeeps(s: Store, e: Event)
    requires Consistent(s) && (Saves(s, e) ==> Harmless(s.files, s.data))
    ensures var next := Apply(s, e);
            && Consistent(next)
            && (!Saves(s, e) ==> ReadBack(next.files) == ReadBack(s.files))
            && (Saves(s, e) ==> ReadBack(next.files) in {ReadBack(s.files), s.data})
            && (Saves(s, e) && next.alive && !next.dirty ==> ReadBack(next.files) == s.data)
  {
    match e
    case StoreKey(key, value) => assert key in s.data && s.data[key] == value ==> s.data[key := value] == s.data;
    case RemoveKey(key) => assert key !in s.data ==> s.data - {key} == s.data;
    case Start(fates) => RecoverIsSafe(s.files, fates);
    case SaveNow(fates) =>
      if Saves(s, e) {
        SaveIsSafeExactly(s.files, s.data);
        assert SafeAt(s.files, s.data, fates);
        if Apply(s, e).alive && !Apply(s, e).dirty { SaveSucceeds(s.files, s.data, fates); }
      }
  }

  /** Over every run whose saves are harmless, whatever fails and wherever it
      stops: memory that is not dirty is what a start would read, and a start
      reads one whole map, the last one saved or one tried since. */
  lemma {:induction false} EveryRun(s: Store, events: seq<Event>, before: set<Settings>)
    requires Consistent(s) && HarmlessSaves(s, events) && ReadBack(s.files) in before
    ensures Consistent(Run(s, events))
    ensures ReadBack(Run(s, events).files) in Candidates(s, events, before)
    decreases |events|
  {
    if events != [] {
      EventKeeps(s, events[0]);
      var next := Apply(s, events[0]);
      EveryRun(next, events[1..],
               if !Saves(s, events[0]) then before
               else if next.alive && !next.dirty then {s.data}
               else before + {s.data});
    }
  }

  predicate SavedWell(s: Store, fates: seq<Fate>) {
    var next := Apply(s, SaveNow(fates));
    && ReadBack(next.files) in {ReadBack(s.files), s.data}
    && (next.alive && !next.dirty ==> ReadBack(next.files) == s.data)
  }

  /** That condition on the saves is exact: any other save goes wrong under some
      schedule. */
  lemma HarmlessExactly(s: Store)
    requires s.alive && s.dirty
    ensures (forall fates :: SavedWell(s, fates)) <==> Harmless(s.files, s.data)
  {
    SaveIsSafeExactly(s.files, s.data);
    if !SafeToSave(s.files, s.data) {
      var fates :| !SafeAt(s.files, s.data, fates);
      assert !SavedWell(s, fates);
    } else if !Harmless(s.files, s.data) {
      SaveSucceeds(s.files, s.data, []);
      assert !SavedWell(s, []);
    } else {
      forall fates ensures SavedWell(s, fates) {
        assert SafeAt(s.files, s.data, fates);
        var w := Write(s.files, s.data, fates);
        if w.ok && !w.crashed { SaveSucceeds(s.files, s.data, fates); }
      }
    }
  }

  /** Operations work until the process dies. */
  predicate NeverFails(fates: seq<Fate>) {
    forall f | f in fates :: !f.Fails?
  }

  predicate OnlyCrashes(e: Event) {
    (e.SaveNow? || e.Start?) ==> NeverFails(e.fates)
  }

  lemma CrashStep(s: Store, e: Event)
    requires OnlyCrashes(e) && (s.alive ==> !Stale(s.files))
    ensures Saves(s, e) ==> Harmless(s.files, s.data)
    ensures Apply(s, e).alive ==> !Stale(Apply(s, e).files)
  {
    if e.SaveNow? || e.Start? {
      assert NeverFails(Later(e.fates)) && !Next(e.fates).Fails? && !Next(Later(e.fates)).Fails?;
      assert !Next(Later(Later(e.fates))).Fails?;
    }
  }

  /** When operations never fail and the process may die at any of them, every
      save is harmless: only a failure that the process survives leaves a `_new`
      file for a later save to merge with. */
  lemma {:induction false} CrashesAreHarmless(s: Store, events: seq<Event>)
    requires s.alive ==> !Stale(s.files)
    requires forall e | e in events :: OnlyCrashes(e)
    ensures HarmlessSaves(s, events)
    decreases |events|
  {
    if events != [] {
      CrashStep(s, events[0]);
      CrashesAreHarmless(Apply(s, events[0]), events[1..]);
    }
  }

  // ----- Agreement with the profile import -----

  /** The settings files of a profile as this protocol sees them. */
  function FilesOf(o: IS.Live): Files {
    Files(if o.settings.Some? then Some(IS.IniValues(o.settings)) else None,
          if o.pending.Some? then Some(IS.IniValues(o.pending)) else None)
  }

  lemma MergedSettings(c: IS.Codec, backup: Option<Tree>, sqlite: bool, imports: Option<Tree>, incoming: Option<Tree>)
    requires Find(c.store(IS.BackupObjects(backup), imports, sqlite), IS.SETTINGS).None?
    ensures var merged := Find(IS.MergedForest(c, backup, sqlite, imports, incoming), IS.SETTINGS);
            && IS.IniValues(merged) == IS.IniValues(IS.PreviousSettings(backup)) + IS.SafeValues(incoming)
            && (merged.None? ==> IS.PreviousSettings(backup).None?)
  {
    var stored := c.store(IS.BackupObjects(backup), imports, sqlite);
    var previous := IS.PreviousSettings(backup);
    var settings := IS.MergeSettings(c, previous, incoming);
    if settings.Some? {
      FindPut(stored, IS.SETTINGS, settings.value, IS.SETTINGS);
    }
    assert IS.IniValues(previous) + map[] == IS.IniValues(previous);
  }

  lemma GoalReadsBack(o: IS.Live, backup: Option<Tree>, merged: Option<Tree>, incoming: Option<Tree>, goal: IS.Live)
    requires Find(IS.Kids(backup), IS.SETTINGS) == o.settings && Find(IS.Kids(backup), IS.PENDING) == o.pending
    requires IS.IniValues(merged) == IS.IniValues(IS.PreviousSettings(backup)) + IS.SafeValues(incoming)
    requires merged.None? ==> IS.PreviousSettings(backup).None?
    requires goal.settings == (if merged.Some? then merged else o.settings) && goal.pending == None
    ensures FilesOf(goal).newer.None?
    ensures ReadBack(FilesOf(goal)) == ReadBack(FilesOf(o)) + IS.SafeValues(incoming)
    ensures ReadBack(FilesOf(goal)) - IS.SAFE_SETTINGS == ReadBack(FilesOf(o)) - IS.SAFE_SETTINGS
  {
    assert ReadBack(FilesOf(o)) == IS.IniValues(IS.PreviousSettings(backup));
    assert IS.SafeValues(incoming).Keys <= IS.SAFE_SETTINGS;
    if merged.None? {
      assert (map[] + IS.SafeValues(incoming)).Keys == IS.SafeValues(incoming).Keys;
      assert IS.SafeValues(incoming) == map[];
    }
  }

  function ValueOf(m: map<string, string>, key: string): Option<string> {
    if key in m then Some(m[key]) else None
  }

  /** The import merges over exactly the map a start would read, changes nothing
      but safe keys, and leaves no `_new` file to override the result. */
  lemma ImportAgrees(c: IS.Codec, o: IS.Live, imports: Option<Tree>, incoming: Option<Tree>)
    requires Find(c.store(IS.BackupObjects(Some(IT.BackupTree(o))), imports, "torrents.db" in o.data), IS.SETTINGS).None?
    ensures var goal := FilesOf(IT.Goal(c, o, imports, incoming));
            && ReadBack(goal) == ReadBack(FilesOf(o)) + IS.SafeValues(incoming)
            && goal.newer.None?
            && ReadBack(goal) - IS.SAFE_SETTINGS == ReadBack(FilesOf(o)) - IS.SAFE_SETTINGS
            && (forall key | key in IS.SAFE_SETTINGS :: ValueOf(ReadBack(goal), key)
                  == if key in IS.IniValues(incoming) then Some(IS.IniValues(incoming)[key])
                     else ValueOf(ReadBack(FilesOf(o)), key))
  {
    IT.BackupHolds(o);
    var backup := Some(IT.BackupTree(o));
    MergedSettings(c, backup, "torrents.db" in o.data, imports, incoming);
    GoalReadsBack(o, backup, Find(IT.MergedOf(c, o, imports, incoming), IS.SETTINGS), incoming,
                  IT.Goal(c, o, imports, incoming));
  }
}
