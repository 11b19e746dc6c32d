/** What a check answers and what a download asks for: the outcome of each, for
    every release list, every archive and every answer of the system. */
module UpdaterOffers {
  import opened UpdaterSteps
  import opened UpdaterTheorems
  import opened Versions
  import opened Wrappers

  // ----- The newest release is one -----

  lemma NewestUnique(current: Version, releases: seq<Release>, r: Release, s: Release)
    requires WellFormed(current) && Newest(current, releases, Some(r)) && Newest(current, releases, Some(s))
    ensures r == s
  {
    var i :| 0 <= i < |releases| && FirstGreatest(current, releases, i) && releases[i] == r;
    var j :| 0 <= j < |releases| && FirstGreatest(current, releases, j) && releases[j] == s;
    VersionOrder(VersionOf(r), VersionOf(s));
    VersionOrder(VersionOf(s), VersionOf(r));
    assert i == j;
  }

  /** Nobody on a stable version is offered a draft or a prerelease, and nobody a
      version that is not above the own one. */
  lemma NewestIsProper(current: Version, releases: seq<Release>, r: Release)
    requires WellFormed(current) && Newest(current, releases, Some(r))
    ensures r in releases && !r.draft && r.tag != "" && r.tag[0] == 'v' && r.htmlUrl == ROOT + "tag/" + r.tag
    ensures CompareVersion(VersionOf(r), current) > 0
    ensures current.prerelease == [] ==> !r.prerelease && VersionOf(r).prerelease == []
  {
  }

  // ----- The archive of a release -----

  /** Position i holds the only asset of that name. */
  ghost predicate SoleAsset(assets: seq<Asset>, name: string, i: nat) {
    i < |assets| && assets[i].name == name && forall j | 0 <= j < |assets| && j != i :: assets[j].name != name
  }

  function AddressOf(version: string, name: string): string {
    ROOT + "download/v" + version + "/" + name
  }

  /** An asset that may be offered: uploaded, at the release's own address, of a
      positive size up to the limit, with a digest. */
  predicate Usable(c: Setup, version: string, x: Asset) {
    && x.url == AddressOf(version, x.name) && x.uploaded
    && 0 < x.size <= MAX_ARCHIVE_SIZE && c.assetHash(x.digest) != ""
  }

  /** Precisely one asset has the archive's name, and that one is usable. */
  ghost predicate HasArchive(c: Setup, r: Release)
    requires r.tag != ""
  {
    var version := r.tag[1..];
    exists i: nat :: SoleAsset(r.assets, c.archiveName(version), i) && Usable(c, version, r.assets[i])
  }

  lemma {:induction false} NamedExact(assets: seq<Asset>, name: string, i: nat)
    ensures Named(assets, name) == [] <==> forall j | 0 <= j < |assets| :: assets[j].name != name
    ensures SoleAsset(assets, name, i) ==> Named(assets, name) == [assets[i]]
    ensures |Named(assets, name)| == 1 ==> exists j: nat :: SoleAsset(assets, name, j)
    decreases |assets|
  {
    if assets != [] {
      var init, last := assets[..|assets| - 1], assets[|assets| - 1];
      assert assets == init + [last];
      NamedExact(init, name, i);
      if last.name == name {
        if |Named(assets, name)| == 1 {
          assert Named(init, name) == [];
          assert SoleAsset(assets, name, |init|);
        }
      } else if |Named(assets, name)| == 1 {
        var j: nat :| SoleAsset(init, name, j);
        assert SoleAsset(assets, name, j);
      }
    }
  }

  /** The archive of a release: the last asset of the name, as the loop keeps it. */
  lemma ArchiveExact(c: Setup, r: Release)
    requires r.tag != ""
    ensures var version := r.tag[1..];
            var named := Named(r.assets, c.archiveName(version));
            HasArchive(c, r) <==> |named| == 1 && Usable(c, version, named[0])
  {
    var version := r.tag[1..];
    var name := c.archiveName(version);
    NamedExact(r.assets, name, 0);
    if |Named(r.assets, name)| == 1 {
      var j: nat :| SoleAsset(r.assets, name, j);
      NamedExact(r.assets, name, j);
    }
    if HasArchive(c, r) {
      var i: nat :| SoleAsset(r.assets, name, i) && Usable(c, version, r.assets[i]);
      NamedExact(r.assets, name, i);
    }
  }

  // ----- What a check answers -----

  /** A list that can be read: an array of one to a hundred releases. */
  predicate Readable(c: Setup, bytes: Bytes) {
    Parse(c.version).Some? && c.decode(bytes).Some? && 0 < |c.decode(bytes).value| <= 100
  }

  /** The update is taken from the cache if it is there, and downloaded otherwise. */
  predicate InstallerOutcome(c: Setup, disk: map<string, Bytes>, a: Answers, after: Updater) {
    var destination := c.cachePath(after.fileName);
    if !a.cacheReady then after.state == Error && after.disk == disk
    else
      && OnlyInstaller(c, disk, destination, after.disk)
      && (if a.readable && destination in disk
             && |disk[destination]| == after.archiveSize && c.sha(disk[destination]) == after.archiveHash
          then after.state == Ready && after.savedPath == destination
          else if destination == "" then after.state == Available
          else if !a.opens || !c.allowed(after.archiveUrl) then after.state == Error
          else after.state == Downloading && Asked(after, destination))
  }

  /** Of the cached installers only that one is left; nothing else changes. */
  predicate OnlyInstaller(c: Setup, disk: map<string, Bytes>, keep: string, after: map<string, Bytes>) {
    && (forall p | p in disk && (!c.isInstaller(p) || p == keep) :: p in after && after[p] == disk[p])
    && (forall p | p in after :: p in disk && (!c.isInstaller(p) || p == keep))
  }

  /** A download has just begun: a request for the pinned address, and an empty
      file where it is to be saved. */
  predicate Asked(u: Updater, destination: string) {
    && u.reply == Some(Reply(u.archiveUrl, None, [])) && u.request == Archive && u.redirects == 0
    && u.file == Some(PartFile(destination, [])) && u.savedPath == destination
    && u.received == 0 && u.hashed == []
  }

  /** An installed program that is up to date needs no cached installer. */
  predicate NoInstallers(c: Setup, disk: map<string, Bytes>, after: map<string, Bytes>) {
    && (forall p | p in disk && (!c.installed || !c.isInstaller(p)) :: p in after && after[p] == disk[p])
    && (forall p | p in after :: p in disk && (!c.installed || !c.isInstaller(p)))
  }

  /** What becomes of a list of releases, for every list. */
  ghost predicate CheckOutcome(c: Setup, bytes: Bytes, disk: map<string, Bytes>, a: Answers, after: Updater) {
    if !Readable(c, bytes) then after.state == Error && after.disk == disk
    else
      var current, releases := Parse(c.version).value, c.decode(bytes).value;
      && (!SomeEligible(current, releases) ==> after.state == Error && after.disk == disk)
      && (SomeEligible(current, releases) && Newest(current, releases, None) ==>
            after.state == Current && NoInstallers(c, disk, after.disk))
      && (forall r :: Newest(current, releases, Some(r)) ==> OfferOutcome(c, r, disk, a, after))
  }

  ghost predicate OfferOutcome(c: Setup, r: Release, disk: map<string, Bytes>, a: Answers, after: Updater) {
    && r.tag != "" && after.version == r.tag[1..] && after.fileName == c.archiveName(r.tag[1..])
    && (!HasArchive(c, r) ==> after.state == Error && after.disk == disk)
    && (HasArchive(c, r) ==>
          && after.archiveUrl == AddressOf(after.version, after.fileName)
          && (!c.installed ==> after.state == Available && after.disk == disk)
          && (c.installed ==> InstallerOutcome(c, disk, a, after)))
  }

  lemma InstallerExact(c: Setup, u: Updater, a: Answers)
    requires u.state == Available
    ensures InstallerOutcome(c, u.disk, a, DownloadInstaller(c, u, a))
    ensures var after := DownloadInstaller(c, u, a);
            after.version == u.version && after.fileName == u.fileName && after.archiveUrl == u.archiveUrl
  {
    if a.cacheReady {
      var destination := c.cachePath(u.fileName);
      var u1 := u.(disk := ClearInstallers(c, u.disk, Some(destination)));
      assert OnlyInstaller(c, u.disk, destination, u1.disk);
      if !(a.readable && Verified(c, u1, destination)) { DownloadAsks(c, u1, destination, a); }
    }
  }

  lemma PinExact(c: Setup, u: Updater, matches: nat, archive: Asset, url: string, a: Answers)
    ensures var after := Pin(c, u, matches, archive, url, a);
            && after.version == u.version && after.fileName == u.fileName
            && (matches == 1 && 0 < archive.size <= MAX_ARCHIVE_SIZE && c.assetHash(archive.digest) != "" ==>
                  && after.archiveUrl == url
                  && (!c.installed ==> after.state == Available && after.disk == u.disk)
                  && (c.installed ==> InstallerOutcome(c, u.disk, a, after)))
            && (!(matches == 1 && 0 < archive.size <= MAX_ARCHIVE_SIZE && c.assetHash(archive.digest) != "") ==>
                  after.state == Error && after.disk == u.disk)
  {
    var u1 := u.(archiveSize := archive.size, archiveHash := c.assetHash(archive.digest));
    InstallerExact(c, Stop(u1.(archiveUrl := url)).(state := Available), a);
  }

  lemma ChooseExact(c: Setup, u: Updater, r: Release, a: Answers)
    requires r.tag != ""
    ensures OfferOutcome(c, r, u.disk, a, Choose(c, u, r, a))
  {
    var version := r.tag[1..];
    var name := c.archiveName(version);
    var prefix := ROOT + "download/v" + version + "/";
    var named := Named(r.assets, name);
    var u1 := u.(version := version, fileName := name);
    ArchiveExact(c, r);
    assert AddressOf(version, name) == prefix + name;
    PinExact(c, u1, |named|, if named == [] then NoAsset() else named[|named| - 1], prefix + name, a);
    if |named| == 1 { assert named[0] in named; }
  }

  lemma SelectExact(current: Version, releases: seq<Release>, r: Release)
    requires WellFormed(current)
    ensures Newest(current, releases, Some(r)) <==> Select(current, releases) == Some(r)
    ensures Newest(current, releases, None) <==> Select(current, releases) == None
  {
    SelectIsNewest(current, releases);
    var selected := Select(current, releases);
    if selected.Some? { AboveMeansNotCurrent(current, releases, selected.value); }
    if Newest(current, releases, Some(r)) {
      AboveMeansNotCurrent(current, releases, r);
      if selected.Some? { NewestUnique(current, releases, r, selected.value); }
    }
  }

  lemma ReadExact(c: Setup, u: Updater, a: Answers)
    ensures CheckOutcome(c, u.buffer, u.disk, a, ReadReleases(c, u, a))
  {
    if Readable(c, u.buffer) {
      var current, releases := Parse(c.version).value, c.decode(u.buffer).value;
      var selected := Select(current, releases);
      forall r ensures Newest(current, releases, Some(r)) <==> selected == Some(r) {
        SelectExact(current, releases, r);
      }
      if selected.Some? {
        SelectExact(current, releases, selected.value);
        ChooseExact(c, u, selected.value, a);
      } else {
        SelectIsNewest(current, releases);
      }
    }
  }

  // ----- A whole check -----

  predicate ReceivingList(u: Updater) {
    u.reply.Some? && u.reply.value.status == Some(200) && u.request == Releases && u.reply.value.waiting == []
  }

  const LIST_LIMIT := 2 * 1024 * 1024

  /** Where the list stands after `data`. */
  predicate Listed(u: Updater, after: Updater, data: Bytes) {
    if u.received + |data| <= LIST_LIMIT then
      ReceivingList(after) && after == u.(received := u.received + |data|, buffer := u.buffer + data)
    else after.state == Error && after.reply.None? && after.disk == u.disk
  }

  lemma {:induction false} ListReads(u: Updater, data: Bytes, k: nat)
    requires ReceivingList(u) && u.received <= LIST_LIMIT
    ensures Listed(u, ReadAll(u.(reply := Some(u.reply.value.(waiting := data))), AllWritten(), k), data)
    decreases |data|
  {
    var v := u.(reply := Some(u.reply.value.(waiting := data)));
    if data == [] {
      assert u.buffer + data == u.buffer;
    } else {
      var piece := Piece(data);
      var rest := data[|piece|..];
      assert data == piece + rest;
      if u.received + |piece| <= LIST_LIMIT {
        var u1 := u.(received := u.received + |piece|, buffer := u.buffer + piece);
        assert ReadPiece(v, true) == u1.(reply := Some(u1.reply.value.(waiting := rest)));
        ListReads(u1, rest, k + 1);
        Appended(u.buffer, data, |piece|);
      }
    }
  }

  lemma ListOne(c: Setup, u: Updater, data: Bytes)
    requires ReceivingList(u) && u.received <= LIST_LIMIT
    ensures Listed(u, Step(c, Step(c, u, Arrive(data)), Read(Smooth(""))), data)
  {
    assert u.reply.value.waiting + data == data;
    ListReads(u, data, 0);
  }

  lemma FailedStays(c: Setup, u: Updater, data: Bytes)
    requires u.reply.None?
    ensures Step(c, Step(c, u, Arrive(data)), Read(Smooth(""))) == u
  {
  }

  /** The list is what arrived, in any pieces, unless that is above 2 MiB. */
  lemma {:induction false} ListDelivered(c: Setup, u: Updater, pieces: seq<Bytes>)
    requires ReceivingList(u) && u.received <= LIST_LIMIT
    ensures Listed(u, Deliver(c, u, pieces), Whole(pieces))
    decreases |pieces|
  {
    if pieces == [] {
      assert u.buffer + [] == u.buffer;
    } else {
      var init, last := pieces[..|pieces| - 1], pieces[|pieces| - 1];
      ListDelivered(c, u, init);
      var v := Deliver(c, u, init);
      if u.received + |Whole(init)| <= LIST_LIMIT {
        ListOne(c, v, last);
        assert u.buffer + Whole(init) + last == u.buffer + (Whole(init) + last);
      } else {
        FailedStays(c, v, last);
      }
    }
  }

  predicate MayCheck(c: Setup, u: Updater) {
    u.state != Checking && u.state != Downloading && u.state != Installing && !(u.state == Ready && c.installed)
  }

  /** A check asks for the list of releases, unless a check, a download or an
      installation is under way or waiting for the user. */
  lemma CheckExact(c: Setup, u: Updater)
    ensures var after := Step(c, u, Check);
            && after.disk == u.disk
            && (!MayCheck(c, u) ==> after == u)
            && (MayCheck(c, u) && c.allowed(API) ==>
                  && after.state == Checking && after.request == Releases && after.redirects == 0
                  && after.reply == Some(Reply(API, None, [])) && after.file.None?
                  && after.buffer == [] && after.received == 0
                  && after.version == "" && after.savedPath == "" && after.fileName == "")
            && (MayCheck(c, u) && !c.allowed(API) ==> after.state == Error && after.reply.None? && after.file.None?)
  {
  }

  /** A check from beginning to end, over every list and every way to cut it: the
      outcome is that of the bytes that came, or an error above 2 MiB. */
  lemma CheckRun(c: Setup, u: Updater, pieces: seq<Bytes>, a: Answers)
    requires MayCheck(c, u) && c.allowed(API) && !a.failed
    ensures var asked := Step(c, Step(c, u, Check), Respond(200));
            var after := Step(c, Deliver(c, asked, pieces), Finish(a));
            if |Whole(pieces)| <= LIST_LIMIT then CheckOutcome(c, Whole(pieces), u.disk, a, after)
            else after.state == Error && after.disk == u.disk
  {
    var asked := Step(c, Step(c, u, Check), Respond(200));
    CheckExact(c, u);
    ListDelivered(c, asked, pieces);
    var v := Deliver(c, asked, pieces);
    assert [] + Whole(pieces) == Whole(pieces);
    if |Whole(pieces)| <= LIST_LIMIT {
      FinishReads(c, v, a);
      ReadExact(c, v.(reply := None), a);
    }
  }

  // ----- A whole download -----

  /** A download asks for the pinned archive. */
  lemma DownloadAsks(c: Setup, u: Updater, destination: string, a: Answers)
    ensures var after := Step(c, u, Download(destination, a));
            && after.disk == u.disk && after.archiveSize == u.archiveSize && after.archiveHash == u.archiveHash
            && after.archiveUrl == u.archiveUrl
            && (u.state != Available || destination == "" ==> after == u)
            && (u.state == Available && destination != "" ==>
                  if a.opens && c.allowed(u.archiveUrl) then after.state == Downloading && Asked(after, destination)
                  else after.state == Error && after.reply.None? && after.file.None?)
  {
  }

  /** A download from beginning to end: it is ready exactly when the bytes that came
      have the pinned size and hash, and then they are the file. */
  lemma DownloadRun(c: Setup, u: Updater, destination: string, a: Answers, pieces: seq<Bytes>)
    requires Safe(c, u) && u.state == Available && destination != "" && a.opens && c.allowed(u.archiveUrl)
    ensures var asked := Step(c, Step(c, u, Download(destination, a)), Respond(200));
            var after := Step(c, Deliver(c, asked, pieces), Finish(Smooth("")));
            if |Whole(pieces)| == u.archiveSize && c.sha(Whole(pieces)) == u.archiveHash
            then after.state == Ready && after.disk == u.disk[destination := Whole(pieces)] && after.savedPath == destination
            else after.state == Error && after.disk == u.disk
  {
    DownloadAsks(c, u, destination, a);
    var started := Step(c, u, Download(destination, a));
    StepSafe(c, u, Download(destination, a));
    StepSafe(c, started, Respond(200));
    DownloadExact(c, Step(c, started, Respond(200)), pieces);
  }

  // ----- Stopping -----

  predicate AtRest(u: Updater) {
    u.reply.None? && u.file.None? && (u.state == Canceled || u.state == Error || u.state == Current)
  }

  /** Once canceled, failed or up to date, the updater does nothing before the next
      check, whatever still comes in. */
  lemma {:induction false} RestsUntilCheck(c: Setup, u: Updater, events: seq<Event>)
    requires AtRest(u) && Check !in events
    ensures Run(c, u, events) == u
    decreases |events|
  {
    if events != [] {
      var init, e := events[..|events| - 1], events[|events| - 1];
      assert events == init + [e];
      RestsUntilCheck(c, u, init);
    }
  }

  /** Canceling a check or a download, and a deadline that passes, drop the request
      and the part file; elsewhere they do nothing. */
  lemma StopsExact(c: Setup, u: Updater)
    requires Safe(c, u)
    ensures var after := Step(c, u, Cancel);
            if u.state == Checking || u.state == Downloading
            then after.state == Canceled && AtRest(after) && after.disk == u.disk else after == u
    ensures var after := Step(c, u, Timeout);
            if u.state == Checking || u.state == Downloading
            then after.state == Error && AtRest(after) && after.disk == u.disk else after == u
  {
  }

  // ----- Other replies -----

  /** A redirect of either request is followed up to three times, to addresses that
      are allowed, with everything read so far dropped; any other reply that is not
      a complete 200 is an error. */
  lemma ReplyExact(c: Setup, u: Updater, a: Answers)
    requires u.reply.Some? && u.reply.value.waiting == [] && u.reply.value.status.Some?
    ensures var status, after := u.reply.value.status.value, Step(c, u, Finish(a));
            && (300 <= status < 400 ==>
                  if c.allowed(a.redirect) && u.redirects < 3 then
                    && after.reply == Some(Reply(a.redirect, None, [])) && after.request == u.request
                    && after.redirects == u.redirects + 1 && after.state == u.state
                    && after.buffer == [] && after.hashed == [] && after.received == 0
                  else after.state == Error && after.reply.None? && after.file.None?)
            && ((status < 300 || status >= 400) && (a.failed || status != 200) ==>
                  after.state == Error && after.reply.None? && after.file.None? && after.disk == u.disk)
  {
    assert ReadAll(u, a.writes, 0) == u;
  }
}
