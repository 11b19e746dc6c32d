/** The ReleaseUpdater class of src/base/releaseupdater.cpp, slot by slot. */
module ReleaseUpdater {
  import S = UpdaterSteps
  import T = UpdaterTheorems
  import U = UpdaterOffers
  import opened Versions
  import opened Wrappers

  type Bytes = S.Bytes

  class ReleaseUpdater {
    const setup: S.Setup
    var state: S.State
    var request: S.Request
    var redirects: nat
    var received: nat
    var buffer: Bytes
    var hashed: Bytes
    var file: Option<S.PartFile>
    var reply: Option<S.Reply>
    var disk: map<string, Bytes>
    var savedPath: string
    var fileName: string
    var version: string
    var archiveSize: int
    var archiveHash: string
    var archiveUrl: string
    /** How many requests the current chain of redirects has issued. */
    ghost var chain: nat

    ghost function Now(): S.Updater
      reads this
    {
      S.Updater(state, request, redirects, received, buffer, hashed, file, reply, disk, savedPath,
                fileName, version, archiveSize, archiveHash, archiveUrl, chain)
    }

    ghost predicate Valid()
      reads this
    {
      T.Safe(setup, Now())
    }

    constructor (setup: S.Setup, disk: map<string, Bytes>)
      ensures Valid() && this.setup == setup && Now() == S.Start(disk)
    {
      this.setup := setup;
      state, request, redirects, received := S.Idle, S.Releases, 0, 0;
      buffer, hashed, file, reply := [], [], None, None;
      this.disk, savedPath, fileName, version := disk, "", "", "";
      archiveSize, archiveHash, archiveUrl, chain := 0, "", "", 0;
    }

    method Stop()
      modifies this
      ensures Now() == S.Stop(old(Now()))
    {
      reply, file, buffer := None, None, [];
    }

    method Fail()
      modifies this
      ensures Now() == S.Fail(old(Now()))
    {
      Stop();
      state := S.Error;
    }

    method Cancel()
      requires Valid()
      modifies this
      ensures Valid() && Now() == S.Step(setup, old(Now()), S.Cancel)
    {
      if state != S.Checking && state != S.Downloading { return; }
      Stop();
      state := S.Canceled;
    }

    /** The deadline of the request. */
    method Timeout()
      requires Valid()
      modifies this
      ensures Valid() && Now() == S.Step(setup, old(Now()), S.Timeout)
    {
      if reply.Some? { Fail(); }
    }

    method Fetch(url: string, request: S.Request, redirects: nat)
      modifies this
      ensures Now() == S.Fetch(setup, old(Now()), url, request, redirects)
    {
      if !setup.allowed(url) || redirects > 3 {
        Fail();
        return;
      }
      Issue(url, request, redirects);
    }

    method Issue(url: string, request: S.Request, redirects: nat)
      modifies this
      ensures Now() == S.Issue(old(Now()), url, request, redirects)
    {
      this.request, this.redirects := request, redirects;
      Clear();
      reply := Some(S.Reply(url, None, []));
      chain := if redirects == 0 then 1 else chain + 1;
    }

    method Clear()
      modifies this
      ensures Now() == S.Clear(old(Now()))
    {
      received, buffer, hashed := 0, [], [];
    }

    method Check()
      requires Valid()
      modifies this
      ensures Valid() && Now() == S.Step(setup, old(Now()), S.Check)
    {
      T.StepSafe(setup, Now(), S.Check);
      StartCheck();
    }

    method StartCheck()
      modifies this
      ensures Now() == S.StartCheck(setup, old(Now()))
    {
      if state == S.Checking || state == S.Downloading || state == S.Installing || (state == S.Ready && setup.installed) {
        return;
      }
      Stop();
      Forget();
      Fetch(S.API, S.Releases, 0);
    }

    method Forget()
      modifies this
      ensures Now() == S.Forget(old(Now()))
    {
      version, savedPath, fileName := "", "", "";
      state := S.Checking;
    }

    /** The read loop. */
    method ReadAll(writes: nat -> bool)
      modifies this
      ensures Now() == S.ReadAll(old(Now()), writes, 0)
    {
      var k := 0;
      while reply.Some? && reply.value.waiting != []
        invariant S.ReadAll(Now(), writes, k) == S.ReadAll(old(Now()), writes, 0)
        decreases if reply.Some? then |reply.value.waiting| else 0
      {
        OnePiece(Now(), writes, k);
        ReadPiece(writes(k));
        k := k + 1;
      }
    }

    method ReadPiece(written: bool)
      requires reply.Some?
      modifies this
      ensures Now() == S.ReadPiece(old(Now()), written)
    {
      var success := reply.value.status == Some(200);
      var limit := if !success then 64 * 1024 else if request == S.Archive then archiveSize else 2 * 1024 * 1024;
      var data := S.Piece(reply.value.waiting);
      reply := Some(reply.value.(waiting := reply.value.waiting[|data|..]));
      received := received + |data|;
      if received > limit {
        Fail();
        return;
      }
      if !success { return; }
      if request == S.Archive {
        ReadArchive(data, written);
      } else {
        buffer := buffer + data;
      }
    }

    method ReadArchive(data: Bytes, written: bool)
      modifies this
      ensures Now() == S.ReadArchive(old(Now()), data, written)
    {
      hashed := hashed + data;
      if file.None? || !written {
        Fail();
        return;
      }
      file := Some(file.value.(contents := file.value.contents + data));
    }

    method ReadData(a: S.Answers)
      requires Valid()
      modifies this
      ensures Valid() && Now() == S.Step(setup, old(Now()), S.Read(a))
    {
      T.StepSafe(setup, Now(), S.Read(a));
      ReadAll(a.writes);
    }

    method FinishRequest(a: S.Answers)
      requires Valid()
      modifies this
      ensures Valid() && Now() == S.Step(setup, old(Now()), S.Finish(a))
    {
      T.StepSafe(setup, Now(), S.Finish(a));
      if reply.None? { return; }
      ReadAll(a.writes);
      if reply.None? { return; }
      var status := if reply.value.status.Some? then reply.value.status.value else 0;
      reply := None;
      Conclude(status, a);
    }

    method Conclude(status: int, a: S.Answers)
      modifies this
      ensures Now() == S.Conclude(setup, old(Now()), status, a)
    {
      if 300 <= status < 400 {
        Fetch(a.redirect, request, redirects + 1);
      } else if a.failed || status != 200 {
        Fail();
      } else if request == S.Releases {
        ReadReleases(a);
      } else {
        FinishArchive(a);
      }
    }

    method FinishArchive(a: S.Answers)
      modifies this
      ensures Now() == S.FinishArchive(setup, old(Now()), a)
    {
      if received != archiveSize || setup.sha(hashed) != archiveHash {
        Fail();
        return;
      }
      if file.None? || !a.commits {
        Fail();
        return;
      }
      disk := disk[file.value.path := file.value.contents];
      Stop();
      state := S.Ready;
    }

    method ReadReleases(a: S.Answers)
      modifies this
      ensures Now() == S.ReadReleases(setup, old(Now()), a)
      ensures U.CheckOutcome(setup, old(buffer), old(disk), a, Now())
    {
      U.ReadExact(setup, Now(), a);
      var document := setup.decode(buffer);
      var current := Parse(setup.version);
      if current.None? || document.None? || document.value == [] || |document.value| > 100 {
        Fail();
        return;
      }
      var recognized, selected := Newest(current.value, document.value);
      if !recognized {
        Fail();
        return;
      }
      if selected.None? {
        UpToDate();
      } else {
        Choose(selected.value, a);
      }
    }

    method UpToDate()
      modifies this
      ensures Now() == S.UpToDate(setup, old(Now()))
    {
      Stop();
      if setup.installed { disk := S.ClearInstallers(setup, disk, None); }
      state := S.Current;
    }

    method Choose(selected: S.Release, a: S.Answers)
      requires selected.tag != ""
      modifies this
      ensures Now() == S.Choose(setup, old(Now()), selected, a)
    {
      version := selected.tag[1..];
      fileName := setup.archiveName(version);
      var prefix := S.ROOT + "download/v" + version + "/";
      var valid, matches, archive := FindArchive(selected.assets, fileName, prefix);
      if !valid {
        Fail();
        return;
      }
      Pin(matches, archive, prefix + fileName, a);
    }

    method Pin(matches: nat, archive: S.Asset, url: string, a: S.Answers)
      modifies this
      ensures Now() == S.Pin(setup, old(Now()), matches, archive, url, a)
    {
      archiveSize, archiveHash := archive.size, setup.assetHash(archive.digest);
      if matches != 1 || archiveSize <= 0 || archiveSize > S.MAX_ARCHIVE_SIZE || archiveHash == "" {
        Fail();
        return;
      }
      archiveUrl := url;
      Stop();
      state := S.Available;
      if setup.installed { DownloadInstaller(a); }
    }

    method Download(destination: string, a: S.Answers)
      requires Valid()
      modifies this
      ensures Valid() && Now() == S.Step(setup, old(Now()), S.Download(destination, a))
      ensures old(state) == S.Available && destination != "" && a.opens && setup.allowed(archiveUrl) ==>
                state == S.Downloading && U.Asked(Now(), destination)
    {
      T.StepSafe(setup, Now(), S.Download(destination, a));
      StartDownload(destination, a);
    }

    method StartDownload(destination: string, a: S.Answers)
      modifies this
      ensures Now() == S.StartDownload(setup, old(Now()), destination, a)
    {
      if state != S.Available || destination == "" { return; }
      if !a.opens {
        Fail();
        return;
      }
      file := Some(S.PartFile(destination, []));
      savedPath := destination;
      state := S.Downloading;
      Fetch(archiveUrl, S.Archive, 0);
    }

    method DownloadInstaller(a: S.Answers)
      modifies this
      ensures Now() == S.DownloadInstaller(setup, old(Now()), a)
    {
      if !a.cacheReady {
        Fail();
        return;
      }
      var destination := setup.cachePath(fileName);
      disk := S.ClearInstallers(setup, disk, Some(destination));
      if a.readable && destination in disk && |disk[destination]| == archiveSize
         && setup.sha(disk[destination]) == archiveHash {
        savedPath := destination;
        state := S.Ready;
        return;
      }
      StartDownload(destination, a);
    }
  }

  lemma {:induction false} OnePiece(u: S.Updater, writes: nat -> bool, k: nat)
    requires u.reply.Some? && u.reply.value.waiting != []
    ensures var next := S.ReadPiece(u, writes(k));
            && S.ReadAll(u, writes, k) == S.ReadAll(next, writes, k + 1)
            && (next.reply.Some? ==> |next.reply.value.waiting| < |u.reply.value.waiting|)
  {
  }

  lemma OneMore(current: Version, releases: seq<S.Release>, k: nat)
    requires WellFormed(current) && k < |releases|
    ensures var r, past := releases[k], S.Select(current, releases[..k]);
            && S.Select(current, releases[..k + 1])
               == (if S.Eligible(current, r)
                      && CompareVersion(S.VersionOf(r), if past.Some? then S.VersionOf(past.value) else current) > 0
                   then Some(r) else past)
            && ((exists x | x in releases[..k + 1] :: S.Eligible(current, x))
                <==> (exists x | x in releases[..k] :: S.Eligible(current, x)) || S.Eligible(current, r))
  {
    assert releases[..k + 1] == releases[..k] + [releases[k]];
    assert releases[..k + 1][..k] == releases[..k];
    assert forall x :: x in releases[..k + 1] <==> x in releases[..k] || x == releases[k];
  }

  /** The selection loop of readReleases. */
  method Newest(current: Version, releases: seq<S.Release>) returns (recognized: bool, selected: Option<S.Release>)
    requires WellFormed(current)
    ensures recognized <==> exists r | r in releases :: S.Eligible(current, r)
    ensures selected == S.Select(current, releases)
    ensures S.Newest(current, releases, selected)
  {
    recognized, selected := false, None;
    var highest := current;
    for k := 0 to |releases|
      invariant recognized <==> exists r | r in releases[..k] :: S.Eligible(current, r)
      invariant selected == S.Select(current, releases[..k])
      invariant highest == if selected.Some? then S.VersionOf(selected.value) else current
    {
      var r := releases[k];
      OneMore(current, releases, k);
      if S.Eligible(current, r) {
        recognized := true;
        var v := S.VersionOf(r);
        if CompareVersion(v, highest) > 0 { highest, selected := v, Some(r); }
      }
    }
    assert releases[..|releases|] == releases;
    S.SelectIsNewest(current, releases);
  }

  function LastNamed(assets: seq<S.Asset>, name: string): S.Asset {
    var named := S.Named(assets, name);
    if named == [] then S.NoAsset() else named[|named| - 1]
  }

  lemma NamedSnoc(assets: seq<S.Asset>, k: nat, name: string)
    requires k < |assets|
    ensures S.Named(assets[..k + 1], name)
         == S.Named(assets[..k], name) + if assets[k].name == name then [assets[k]] else []
  {
    assert assets[..k + 1][..k] == assets[..k];
  }

  /** The loop over the assets, which gives up at the first one that carries the
      name but not the release's own address. */
  method FindArchive(assets: seq<S.Asset>, name: string, prefix: string)
    returns (valid: bool, matches: nat, archive: S.Asset)
    ensures valid <==> forall x | x in S.Named(assets, name) :: S.Published(prefix, x)
    ensures valid ==> matches == |S.Named(assets, name)| && archive == LastNamed(assets, name)
  {
    valid, matches, archive := true, 0, S.NoAsset();
    for k := 0 to |assets|
      invariant valid && matches == |S.Named(assets[..k], name)| && archive == LastNamed(assets[..k], name)
      invariant forall x | x in S.Named(assets[..k], name) :: S.Published(prefix, x)
    {
      var asset := assets[k];
      NamedSnoc(assets, k, name);
      if asset.name != name { continue; }
      matches := matches + 1;
      if asset.url != prefix + asset.name || !asset.uploaded {
        assert asset in S.Named(assets, name) && !S.Published(prefix, asset);
        valid := false;
        return;
      }
      archive := asset;
    }
    assert assets[..|assets|] == assets;
  }
}
