/** The settings store itself: a map in memory, a dirty flag, a retry timer and
    the two files. */
module SettingsStorage {
  import opened Wrappers
  import opened FileTrees
  import opened SettingsFiles

  class SettingsStorage {
    var files: Files
    var fates: seq<Fate>
    var crashed: bool
    var data: Settings
    var dirty: bool
    var timer: bool

    /** Nothing dirty means nothing to lose: the files read back as memory. */
    ghost predicate Clean()
      reads this
    {
      !dirty ==> ReadBack(files) == data
    }

    function State(): Saved
      reads this
    {
      Saved(files, fates, true, crashed)
    }

    function Now(): Store
      reads this
    {
      Store(files, data, dirty, !crashed)
    }

    /** readNativeSettings(). */
    constructor (files: Files, fates: seq<Fate>)
      ensures data == ReadBack(files) && !dirty
      ensures Clean()
      ensures forall s: Store | s.files == files :: Now() == Apply(s, Start(fates))
    {
      this.files, this.fates, crashed := files, fates, false;
      data, dirty, timer := map[], false, false;
      new;
      if Values(files.newer) != map[] {
        data := Values(files.newer);
        var _ := Replace();
      } else {
        data := Values(files.main);
      }
    }

    method RemoveMain()
      modifies this`files, this`fates, this`crashed
      requires !crashed
      ensures State() == (if old(files).main.Some?
                          then Attempt(old(State()), old(files).(main := None)).(ok := true) else old(State()))
    {
      if files.main.Some? {
        var fate := Next(fates);
        fates := Later(fates);
        if fate.Works? { files := files.(main := None); }
        crashed := fate.Crashes?;
      }
    }

    method RenameNew() returns (ok: bool)
      modifies this`files, this`fates, this`crashed
      ensures State().(ok := ok && !crashed) == Rename(old(State())).(ok := Rename(old(State())).ok && !crashed)
    {
      if crashed || files.newer.None? || files.main.Some? { return false; }
      var fate := Next(fates);
      fates := Later(fates);
      if fate.Works? { files := Files(files.newer, None); }
      crashed := fate.Crashes?;
      ok := fate.Works?;
    }

    method Replace() returns (ok: bool)
      modifies this`files, this`fates, this`crashed
      requires !crashed
      ensures var s := Publish(old(State()));
              files == s.files && fates == s.fates && crashed == s.crashed && (!crashed ==> ok == s.ok)
    {
      RemoveMain();
      ok := RenameNew();
    }

    /** writeNativeSettings(). */
    method WriteNativeSettings() returns (ok: bool)
      modifies this`files, this`fates, this`crashed
      requires !crashed
      ensures var s := Write(old(files), data, old(fates));
              files == s.files && fates == s.fates && crashed == s.crashed && (!crashed ==> ok == s.ok)
    {
      var written := true;
      if data != map[] {
        var fate := Next(fates);
        fates := Later(fates);
        if fate.Works? { files := files.(newer := Some(Values(files.newer) + data)); }
        crashed := fate.Crashes?;
        if crashed { return false; }
        written := fate.Works?;
      }
      if !written {
        var fate := Next(fates);
        fates := Later(fates);
        if fate.Works? { files := files.(newer := None); }
        crashed := fate.Crashes?;
        return false;
      }
      ok := Replace();
    }

    /** True only when something was dirty and is now saved. */
    method Save() returns (saved: bool)
      modifies this
      requires !crashed
      ensures Now() == Apply(old(Now()), SaveNow(old(fates)))
      ensures data == old(data)
      ensures saved && !crashed ==> old(dirty) && !dirty && files.newer.None?
                                    && ReadBack(files) == Values(old(files).newer) + data
      ensures !saved && old(dirty) ==> dirty && (crashed || timer)
      ensures !old(dirty) ==> !saved && files == old(files) && !dirty && !crashed
      ensures SafeToSave(old(files), data) ==> ReadBack(files) in {ReadBack(old(files)), data}
      ensures saved && !crashed ==> (Clean() <==> Values(old(files).newer).Keys <= data.Keys)
      ensures !saved && old(Clean()) ==> Clean()
    {
      if !dirty { return false; }
      SaveIsSafeExactly(files, data);
      assert SafeToSave(files, data) ==> SafeAt(files, data, fates);
      ghost var before, fatesBefore := files, fates;
      var ok := WriteNativeSettings();
      if !ok || crashed { timer := true; return false; }
      SaveSucceeds(before, data, fatesBefore);
      dirty := false;
      saved := true;
    }

    method StoreValue(key: string, value: string)
      modifies this`data, this`dirty, this`timer
      ensures !crashed ==> Now() == Apply(old(Now()), StoreKey(key, value))
      ensures data == old(data)[key := value]
      ensures dirty == (old(dirty) || data != old(data))
      ensures dirty && !old(dirty) ==> timer
      ensures old(Clean()) ==> Clean()
    {
      if key !in data || data[key] != value {
        dirty, timer := true, true;
        data := data[key := value];
      }
      assert key in old(data) && old(data)[key] == value ==> old(data)[key := value] == old(data);
    }

    method RemoveValue(key: string)
      modifies this`data, this`dirty, this`timer
      ensures !crashed ==> Now() == Apply(old(Now()), RemoveKey(key))
      ensures data == old(data) - {key}
      ensures dirty == (old(dirty) || key in old(data))
      ensures dirty && !old(dirty) ==> timer
      ensures old(Clean()) ==> Clean()
    {
      if key in data {
        data := data - {key};
        dirty, timer := true, true;
      } else {
        assert data - {key} == data;
      }
    }
  }
}
