/** What every run of the release updater keeps, and when a download succeeds. */
module UpdaterTheorems {
  import opened UpdaterSteps
  import opened Versions
  import opened Wrappers

  predicate Pinned(u: Updater) {
    0 < u.archiveSize <= MAX_ARCHIVE_SIZE && u.archiveHash != ""
  }

  /** A request in flight belongs to the state, and is one of at most four. */
  predicate InFlight(c: Setup, u: Updater) {
    u.reply.Some? ==>
      u.state == (if u.request == Archive then Downloading else Checking)
      && c.allowed(u.reply.value.url)
      && u.chain == u.redirects + 1 <= 4
  }

  /** The part file holds the hashed bytes, all of them from the 200 response. */
  predicate Tracked(u: Updater) {
    u.reply.Some? && u.request == Archive ==>
      && u.file.Some? && u.file.value.path == u.savedPath && u.file.value.contents == u.hashed
      && (if Success(u) then u.received == |u.hashed| <= u.archiveSize else u.hashed == [])
      && u.received <= (if Success(u) then u.archiveSize else 64 * 1024)
      && (u.reply.value.status.None? ==> u.received == 0 && u.reply.value.waiting == [])
  }

  predicate Safe(c: Setup, u: Updater) {
    && InFlight(c, u) && Tracked(u)
    && (u.file.Some? ==> u.reply.Some? && u.request == Archive)
    && (u.state == Downloading || u.state == Checking ==> u.reply.Some?)
    && (u.state == Available || u.state == Downloading || u.state == Ready ==> Pinned(u))
    && (u.state == Ready ==> Verified(c, u, u.savedPath))
  }

  lemma FailSafe(c: Setup, u: Updater)
    ensures Safe(c, Fail(u)) && Fail(u).disk == u.disk
  {
  }

  lemma ReadPieceSafe(c: Setup, u: Updater, written: bool)
    requires Safe(c, u) && u.reply.Some? && u.reply.value.waiting != []
    ensures Safe(c, ReadPiece(u, written)) && ReadPiece(u, written).disk == u.disk
    ensures ReadPiece(u, written).reply.Some? ==> ReadPiece(u, written).request == u.request
  {
    var data := Piece(u.reply.value.waiting);
    if u.request == Archive && Success(u) {
      assert |u.hashed + data| == |u.hashed| + |data|;
    }
  }

  lemma {:induction false} ReadAllSafe(c: Setup, u: Updater, writes: nat -> bool, k: nat)
    requires Safe(c, u)
    ensures Safe(c, ReadAll(u, writes, k)) && ReadAll(u, writes, k).disk == u.disk
    decreases if u.reply.Some? then |u.reply.value.waiting| else 0
  {
    if u.reply.Some? && u.reply.value.waiting != [] {
      ReadPieceSafe(c, u, writes(k));
      ReadAllSafe(c, ReadPiece(u, writes(k)), writes, k + 1);
    }
  }

  lemma StartDownloadSafe(c: Setup, u: Updater, destination: string, a: Answers)
    requires Safe(c, u)
    ensures Safe(c, StartDownload(c, u, destination, a))
    ensures StartDownload(c, u, destination, a).disk == u.disk
  {
  }

  /** An event leaves a path alone, drops a cached installer, or puts bytes of
      the pinned size and hash there. */
  ghost predicate DiskKept(c: Setup, u: Updater, after: Updater) {
    forall p | p in u.disk || p in after.disk ::
      (p in u.disk && p in after.disk && after.disk[p] == u.disk[p])
      || (c.isInstaller(p) && p !in after.disk)
      || (after.state == Ready && p == after.savedPath && Verified(c, after, p))
  }

  lemma PinSafe(c: Setup, u: Updater, matches: nat, archive: Asset, url: string, a: Answers)
    ensures Safe(c, Pin(c, u, matches, archive, url, a))
    ensures DiskKept(c, u, Pin(c, u, matches, archive, url, a))
  {
    var u1 := u.(archiveSize := archive.size, archiveHash := c.assetHash(archive.digest));
    if matches == 1 && Pinned(u1) && c.installed {
      InstallerSafe(c, Stop(u1.(archiveUrl := url)).(state := Available), a);
    }
  }

  lemma ChooseSafe(c: Setup, u: Updater, selected: Release, a: Answers)
    requires selected.tag != ""
    ensures Safe(c, Choose(c, u, selected, a))
    ensures DiskKept(c, u, Choose(c, u, selected, a))
  {
    var version := selected.tag[1..];
    var name := c.archiveName(version);
    var prefix := ROOT + "download/v" + version + "/";
    var named := Named(selected.assets, name);
    var u1 := u.(version := version, fileName := name);
    if forall x | x in named :: Published(prefix, x) {
      PinSafe(c, u1, |named|, if named == [] then NoAsset() else named[|named| - 1], prefix + name, a);
    }
  }

  lemma InstallerSafe(c: Setup, u: Updater, a: Answers)
    requires Safe(c, u) && u.state == Available
    ensures Safe(c, DownloadInstaller(c, u, a))
    ensures DiskKept(c, u, DownloadInstaller(c, u, a))
  {
    if a.cacheReady {
      var destination := c.cachePath(u.fileName);
      var u1 := u.(disk := ClearInstallers(c, u.disk, Some(destination)));
      StartDownloadSafe(c, u1, destination, a);
    }
  }

  lemma ReadReleasesSafe(c: Setup, u: Updater, a: Answers)
    requires u.reply.None? && u.file.None?
    ensures Safe(c, ReadReleases(c, u, a))
    ensures DiskKept(c, u, ReadReleases(c, u, a))
  {
    if Parse(c.version).Some? && c.decode(u.buffer).Some? {
      var selected := Select(Parse(c.version).value, c.decode(u.buffer).value);
      if selected.Some? { ChooseSafe(c, u, selected.value, a); }
    }
  }

  lemma FinishArchiveSafe(c: Setup, u: Updater, a: Answers)
    requires u.reply.None? && Pinned(u)
    requires u.file.Some? ==> u.file.value.path == u.savedPath && u.file.value.contents == u.hashed
    requires u.received == |u.hashed|
    ensures Safe(c, FinishArchive(c, u, a))
    ensures DiskKept(c, u, FinishArchive(c, u, a))
    ensures FinishArchive(c, u, a).state == Ready ==> u.file.Some?
  {
  }

  lemma ConcludeSafe(c: Setup, u: Updater, a: Answers)
    requires Safe(c, u) && u.reply.Some?
    ensures var status := if u.reply.value.status.Some? then u.reply.value.status.value else 0;
            var after := Conclude(c, u.(reply := None), status, a);
            Safe(c, after) && DiskKept(c, u, after)
  {
    var status := if u.reply.value.status.Some? then u.reply.value.status.value else 0;
    var u2 := u.(reply := None);
    if 300 <= status < 400 {
      RedirectSafe(c, u, a);
    } else if a.failed || status != 200 {
      FailSafe(c, u2);
    } else if u.request == Releases {
      ReadReleasesSafe(c, u2, a);
    } else {
      FinishArchiveSafe(c, u2, a);
    }
  }

  lemma RedirectSafe(c: Setup, u: Updater, a: Answers)
    requires Safe(c, u) && u.reply.Some? && !Success(u)
    ensures var after := Fetch(c, u.(reply := None), a.redirect, u.request, u.redirects + 1);
            Safe(c, after) && after.disk == u.disk
  {
  }

  lemma FinishSafe(c: Setup, u: Updater, a: Answers)
    requires Safe(c, u)
    ensures Safe(c, FinishRequest(c, u, a))
    ensures DiskKept(c, u, FinishRequest(c, u, a))
  {
    ReadAllSafe(c, u, a.writes, 0);
    var u1 := ReadAll(u, a.writes, 0);
    if u1.reply.Some? { ConcludeSafe(c, u1, a); }
  }

  /** Whatever happens next, the state stays safe and only verified bytes are
      ever put on the disk. */
  lemma StepSafe(c: Setup, u: Updater, e: Event)
    requires Safe(c, u)
    ensures Safe(c, Step(c, u, e))
    ensures DiskKept(c, u, Step(c, u, e))
  {
    match e
    case Check =>
    case Download(destination, a) => StartDownloadSafe(c, u, destination, a);
    case Respond(status) =>
    case Arrive(data) =>
    case Read(a) => ReadAllSafe(c, u, a.writes, 0);
    case Finish(a) => if u.reply.Some? { FinishSafe(c, u, a); }
    case Cancel =>
    case Timeout =>
  }

  /** From any disk, after any events: a chain of redirects has issued at most
      four requests, the part file is what was hashed, and an update that is
      ready has the pinned size and hash. */
  lemma {:induction false} EveryRun(c: Setup, disk: map<string, Bytes>, events: seq<Event>)
    ensures Safe(c, Run(c, Start(disk), events))
    decreases |events|
  {
    if events != [] {
      EveryRun(c, disk, events[..|events| - 1]);
      StepSafe(c, Run(c, Start(disk), events[..|events| - 1]), events[|events| - 1]);
    }
  }

  // ----- A download that meets no failure -----

  function AllWritten(): nat -> bool { (k: nat) => true }

  function Smooth(redirect: string): Answers { Answers(AllWritten(), false, redirect, true, true, true, true) }

  /** The body arrives in any pieces, each followed by a read. */
  function Deliver(c: Setup, u: Updater, pieces: seq<Bytes>): Updater
    decreases |pieces|
  {
    if pieces == [] then u
    else
      Step(c, Step(c, Deliver(c, u, pieces[..|pieces| - 1]), Arrive(pieces[|pieces| - 1])), Read(Smooth("")))
  }

  function Whole(pieces: seq<Bytes>): Bytes {
    if pieces == [] then [] else Whole(pieces[..|pieces| - 1]) + pieces[|pieces| - 1]
  }

  predicate Receiving(u: Updater) {
    u.reply.Some? && u.reply.value.status == Some(200) && u.request == Archive && u.file.Some?
    && u.reply.value.waiting == []
  }

  /** Where the transfer stands after `data`: still receiving, or failed because
      more arrived than was announced. */
  predicate Progressed(u: Updater, after: Updater, data: Bytes)
    requires u.file.Some?
  {
    if u.received + |data| <= u.archiveSize then
      Receiving(after)
      && after == u.(received := u.received + |data|, hashed := u.hashed + data,
                     file := Some(u.file.value.(contents := u.file.value.contents + data)))
    else after.state == Error && after.reply.None? && after.disk == u.disk
  }

  lemma Appended(a: Bytes, data: Bytes, n: nat)
    requires n <= |data|
    ensures (a + data[..n]) + data[n..] == a + data
  {
  }

  lemma {:induction false} ReadsAll(u: Updater, data: Bytes, k: nat)
    requires Receiving(u) && u.received <= u.archiveSize
    ensures Progressed(u, ReadAll(u.(reply := Some(u.reply.value.(waiting := data))), AllWritten(), k), data)
    decreases |data|
  {
    var v := u.(reply := Some(u.reply.value.(waiting := data)));
    if data == [] {
      assert u.hashed + data == u.hashed && u.file.value.contents + data == u.file.value.contents;
    } else {
      var piece := Piece(data);
      var rest := data[|piece|..];
      assert data == piece + rest;
      if u.received + |piece| <= u.archiveSize {
        var u1 := u.(received := u.received + |piece|, hashed := u.hashed + piece,
                     file := Some(u.file.value.(contents := u.file.value.contents + piece)));
        assert ReadPiece(v, true) == u1.(reply := Some(u1.reply.value.(waiting := rest)));
        ReadsAll(u1, rest, k + 1);
        Appended(u.hashed, data, |piece|);
        Appended(u.file.value.contents, data, |piece|);
      }
    }
  }

  lemma DeliverOne(c: Setup, u: Updater, data: Bytes)
    requires Receiving(u) && u.received <= u.archiveSize
    ensures Progressed(u, Step(c, Step(c, u, Arrive(data)), Read(Smooth(""))), data)
  {
    assert u.reply.value.waiting + data == data;
    ReadsAll(u, data, 0);
  }

  lemma ProgressJoins(u: Updater, v: Updater, w: Updater, a: Bytes, b: Bytes)
    requires u.file.Some? && v.file.Some? && Receiving(v)
    requires u.received + |a| <= u.archiveSize && Progressed(u, v, a) && Progressed(v, w, b)
    ensures Progressed(u, w, a + b)
  {
    assert u.hashed + a + b == u.hashed + (a + b);
    assert u.file.value.contents + a + b == u.file.value.contents + (a + b);
  }

  lemma {:induction false} Delivered(c: Setup, u: Updater, pieces: seq<Bytes>)
    requires Receiving(u) && u.received <= u.archiveSize
    ensures Progressed(u, Deliver(c, u, pieces), Whole(pieces))
    decreases |pieces|
  {
    if pieces == [] {
      assert u.hashed + [] == u.hashed && u.file.value.contents + [] == u.file.value.contents;
    } else {
      var init, last := pieces[..|pieces| - 1], pieces[|pieces| - 1];
      Delivered(c, u, init);
      var v := Deliver(c, u, init);
      if u.received + |Whole(init)| <= u.archiveSize {
        DeliverOne(c, v, last);
        ProgressJoins(u, v, Deliver(c, u, pieces), Whole(init), last);
      }
    }
  }

  /** A download in any pieces succeeds exactly when the bytes have the pinned
      size and hash, and then they are the saved file. */
  lemma DownloadExact(c: Setup, u: Updater, pieces: seq<Bytes>)
    requires Safe(c, u) && Receiving(u) && u.received == 0
    ensures var after := Step(c, Deliver(c, u, pieces), Finish(Smooth("")));
            var good := |Whole(pieces)| == u.archiveSize && c.sha(Whole(pieces)) == u.archiveHash;
            && (after.state == Ready <==> good)
            && (good ==> after.disk == u.disk[u.savedPath := Whole(pieces)] && after.savedPath == u.savedPath)
            && (!good ==> after.state == Error && after.disk == u.disk)
  {
    Delivered(c, u, pieces);
    assert u.hashed == [] && [] + Whole(pieces) == Whole(pieces);
  }

  /** A redirect starts over with an empty file, and the fourth one ends the chain. */
  lemma RedirectStartsOver(c: Setup, u: Updater, a: Answers)
    requires Safe(c, u) && u.reply.Some? && u.request == Archive && u.reply.value.waiting == []
    requires u.reply.value.status.Some? && 300 <= u.reply.value.status.value < 400
    ensures var after := Step(c, u, Finish(a));
            if c.allowed(a.redirect) && u.redirects < 3 then
              after.reply == Some(Reply(a.redirect, None, [])) && after.redirects == u.redirects + 1
              && after.file == Some(PartFile(u.savedPath, [])) && after.hashed == [] && after.received == 0
              && after.archiveSize == u.archiveSize && after.archiveHash == u.archiveHash
            else after.state == Error && after.file.None?
  {
  }

  predicate SomeEligible(current: Version, releases: seq<Release>) {
    exists r | r in releases :: Eligible(current, r)
  }

  /** Up to date exactly when some release is eligible and none of them is above
      the current version; an archive is that of the newest eligible release. */
  ghost predicate OffersNewest(c: Setup, current: Version, releases: seq<Release>, after: Updater)
    requires WellFormed(current)
  {
    && (after.state == Current <==> SomeEligible(current, releases) && Newest(current, releases, None))
    && (after.state == Available || after.state == Downloading || after.state == Ready ==>
          exists r | r in releases :: OfferOf(c, current, releases, r, after))
  }

  ghost predicate OfferOf(c: Setup, current: Version, releases: seq<Release>, r: Release, after: Updater)
    requires WellFormed(current)
  {
    Newest(current, releases, Some(r)) && r.tag != "" && after.version == r.tag[1..] && Offers(c, r, after)
  }

  lemma CheckOffersNewest(c: Setup, u: Updater, a: Answers)
    requires Safe(c, u) && u.reply.Some? && u.request == Releases && u.reply.value.waiting == []
    requires u.reply.value.status == Some(200) && !a.failed
    requires Parse(c.version).Some? && c.decode(u.buffer).Some? && 0 < |c.decode(u.buffer).value| <= 100
    ensures OffersNewest(c, Parse(c.version).value, c.decode(u.buffer).value, Step(c, u, Finish(a)))
  {
    FinishReads(c, u, a);
    ReadOffersNewest(c, u.(reply := None), a);
  }

  lemma FinishReads(c: Setup, u: Updater, a: Answers)
    requires u.reply.Some? && u.request == Releases && u.reply.value.waiting == []
    requires u.reply.value.status == Some(200) && !a.failed
    ensures Step(c, u, Finish(a)) == ReadReleases(c, u.(reply := None), a)
  {
    assert ReadAll(u, a.writes, 0) == u;
  }

  lemma ReadOffersNewest(c: Setup, u: Updater, a: Answers)
    requires Parse(c.version).Some? && c.decode(u.buffer).Some? && 0 < |c.decode(u.buffer).value| <= 100
    ensures OffersNewest(c, Parse(c.version).value, c.decode(u.buffer).value, ReadReleases(c, u, a))
  {
    var current, releases := Parse(c.version).value, c.decode(u.buffer).value;
    SelectIsNewest(current, releases);
    var selected := Select(current, releases);
    if selected.Some? {
      ChooseOffers(c, u, selected.value, a);
      AboveMeansNotCurrent(current, releases, selected.value);
    } else {
      assert ReadReleases(c, u, a).state == if SomeEligible(current, releases) then Current else Error;
    }
  }

  lemma AboveMeansNotCurrent(current: Version, releases: seq<Release>, r: Release)
    requires WellFormed(current) && Newest(current, releases, Some(r))
    ensures r in releases && Eligible(current, r) && SomeEligible(current, releases)
    ensures !Newest(current, releases, None)
  {
    var i :| 0 <= i < |releases| && FirstGreatest(current, releases, i) && releases[i] == r;
    assert r in releases && Eligible(current, r);
  }

  /** One asset of the right name, published under the release's own address,
      with its size and digest as the pin. */
  predicate Offers(c: Setup, r: Release, u: Updater)
    requires r.tag != ""
  {
    u.fileName == c.archiveName(r.tag[1..])
    && exists x | x in r.assets ::
         x.name == u.fileName && x.uploaded && x.size == u.archiveSize && c.assetHash(x.digest) == u.archiveHash
         && x.url == ROOT + "download/v" + r.tag[1..] + "/" + x.name == u.archiveUrl
  }

  lemma ChooseOffers(c: Setup, u: Updater, selected: Release, a: Answers)
    requires selected.tag != ""
    ensures var after := Choose(c, u, selected, a);
            && after.state != Current
            && (after.state != Error ==> after.version == selected.tag[1..] && Offers(c, selected, after))
  {
    var version := selected.tag[1..];
    var name := c.archiveName(version);
    var prefix := ROOT + "download/v" + version + "/";
    var named := Named(selected.assets, name);
    if (forall x | x in named :: Published(prefix, x)) && |named| == 1 {
      var archive := named[0];
      assert archive in named && archive in selected.assets;
      assert Published(prefix, archive);
    }
  }
}
