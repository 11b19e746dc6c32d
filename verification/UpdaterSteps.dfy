/** The release updater of src/base/releaseupdater.cpp as a state machine: every
    slot is one step, and the network, the disk and the user choose the steps. */
module UpdaterSteps {
  import opened Versions
  import opened Wrappers

  type Bytes = seq<bv8>

  const MAX_ARCHIVE_SIZE := 512 * 1024 * 1024
  const ROOT := "https://github.com/qbutt-org/qbutt/releases/"
  const API := "https://api.github.com/repos/qbutt-org/qbutt/releases?per_page=100"

  datatype Asset = Asset(name: string, url: string, uploaded: bool, size: int, digest: string)

  datatype Release = Release(draft: bool, tag: string, htmlUrl: string, prerelease: bool, assets: seq<Asset>)

  /** What does not change while the program runs. */
  datatype Setup = Setup(
    version: string,
    installed: bool,
    allowed: string -> bool,
    sha: Bytes -> string,
    decode: Bytes -> Option<seq<Release>>,
    assetHash: string -> string,
    archiveName: string -> string,
    cachePath: string -> string,
    isInstaller: string -> bool)

  datatype State = Idle | Checking | Available | Current | Downloading | Ready | Canceled | Error | Installing

  datatype Request = Releases | Archive

  /** A reply in flight: its status once the headers are in, and what has arrived
      but has not been read. */
  datatype Reply = Reply(url: string, status: Option<int>, waiting: Bytes)

  datatype PartFile = PartFile(path: string, contents: Bytes)

  datatype Updater = Updater(
    state: State,
    request: Request,
    redirects: nat,
    received: nat,
    buffer: Bytes,
    hashed: Bytes,
    file: Option<PartFile>,
    reply: Option<Reply>,
    disk: map<string, Bytes>,
    savedPath: string,
    fileName: string,
    version: string,
    archiveSize: int,
    archiveHash: string,
    archiveUrl: string,
    chain: nat)

  /** What the operating system answers during one step. */
  datatype Answers = Answers(
    writes: nat -> bool,
    failed: bool,
    redirect: string,
    commits: bool,
    cacheReady: bool,
    opens: bool,
    readable: bool)

  datatype Event =
    | Check
    | Download(destination: string, answers: Answers)
    | Respond(status: int)
    | Arrive(data: Bytes)
    | Read(answers: Answers)
    | Finish(answers: Answers)
    | Cancel
    | Timeout

  function Start(disk: map<string, Bytes>): Updater {
    Updater(Idle, Releases, 0, 0, [], [], None, None, disk, "", "", "", 0, "", "", 0)
  }

  // ----- The newest release -----

  predicate Eligible(current: Version, r: Release) {
    !r.draft && r.tag != "" && r.tag[0] == 'v' && Parse(r.tag[1..]).Some?
    && r.htmlUrl == ROOT + "tag/" + r.tag
    && !(current.prerelease == [] && (Parse(r.tag[1..]).value.prerelease != [] || r.prerelease))
  }

  function VersionOf(r: Release): (v: Version)
    requires r.tag != "" && Parse(r.tag[1..]).Some?
    ensures WellFormed(v)
  {
    Parse(r.tag[1..]).value
  }

  /** The choice stated outright: the first of the greatest eligible releases
      above the current version. */
  ghost predicate Newest(current: Version, releases: seq<Release>, selected: Option<Release>)
    requires WellFormed(current)
  {
    match selected
    case None => forall r | r in releases && Eligible(current, r) :: CompareVersion(VersionOf(r), current) <= 0
    case Some(s) => exists i | 0 <= i < |releases| :: FirstGreatest(current, releases, i) && releases[i] == s
  }

  ghost predicate FirstGreatest(current: Version, releases: seq<Release>, i: nat)
    requires WellFormed(current) && i < |releases|
  {
    Eligible(current, releases[i]) && CompareVersion(VersionOf(releases[i]), current) > 0
    && (forall r | r in releases && Eligible(current, r) :: CompareVersion(VersionOf(r), VersionOf(releases[i])) <= 0)
    && (forall j | 0 <= j < i && Eligible(current, releases[j]) ::
          CompareVersion(VersionOf(releases[j]), VersionOf(releases[i])) < 0)
  }

  /** The loop of readReleases. */
  function Select(current: Version, releases: seq<Release>): (s: Option<Release>)
    requires WellFormed(current)
    ensures s.Some? ==> s.value in releases && Eligible(current, s.value)
    decreases |releases|
  {
    if releases == [] then None
    else
      var past, r := Select(current, releases[..|releases| - 1]), releases[|releases| - 1];
      if Eligible(current, r)
         && CompareVersion(VersionOf(r), if past.Some? then VersionOf(past.value) else current) > 0
      then Some(r) else past
  }

  lemma {:induction false} SelectIsNewest(current: Version, releases: seq<Release>)
    requires WellFormed(current)
    ensures Newest(current, releases, Select(current, releases))
    decreases |releases|
  {
    if releases != [] {
      var init, r := releases[..|releases| - 1], releases[|releases| - 1];
      assert releases == init + [r];
      SelectIsNewest(current, init);
      var past := Select(current, init);
      if past.None? {
        SelectFirst(current, init, r);
      } else {
        var i :| 0 <= i < |init| && FirstGreatest(current, init, i) && init[i] == past.value;
        SelectNext(current, init, r, i);
      }
    }
  }

  lemma SelectFirst(current: Version, init: seq<Release>, r: Release)
    requires WellFormed(current) && Newest(current, init, None)
    ensures Eligible(current, r) && CompareVersion(VersionOf(r), current) > 0 ==>
              FirstGreatest(current, init + [r], |init|)
    ensures !(Eligible(current, r) && CompareVersion(VersionOf(r), current) > 0) ==>
              Newest(current, init + [r], None)
  {
    if Eligible(current, r) && CompareVersion(VersionOf(r), current) > 0 {
      var v := VersionOf(r);
      VersionOrder(v, v);
      VersionOrder(v, current);
      forall x | x in init && Eligible(current, x) ensures CompareVersion(VersionOf(x), v) < 0 {
        VersionTransitive(VersionOf(x), current, v);
      }
    }
  }

  lemma SelectNext(current: Version, init: seq<Release>, r: Release, i: nat)
    requires WellFormed(current) && i < |init| && FirstGreatest(current, init, i)
    ensures Eligible(current, r) && CompareVersion(VersionOf(r), VersionOf(init[i])) > 0 ==>
              FirstGreatest(current, init + [r], |init|)
    ensures !(Eligible(current, r) && CompareVersion(VersionOf(r), VersionOf(init[i])) > 0) ==>
              FirstGreatest(current, init + [r], i)
  {
    var best := VersionOf(init[i]);
    if Eligible(current, r) && CompareVersion(VersionOf(r), best) > 0 {
      var v := VersionOf(r);
      VersionOrder(v, v);
      VersionOrder(v, best);
      VersionOrder(best, current);
      VersionTransitive(current, best, v);
      VersionOrder(current, v);
      forall x | x in init && Eligible(current, x) ensures CompareVersion(VersionOf(x), v) < 0 {
        VersionTransitive(VersionOf(x), best, v);
      }
    }
  }

  // ----- Ending a request -----

  function Stop(u: Updater): Updater { u.(reply := None, file := None, buffer := []) }

  function Fail(u: Updater): Updater { Stop(u).(state := Error) }

  function Clear(u: Updater): Updater { u.(received := 0, buffer := [], hashed := []) }

  function Issue(u: Updater, url: string, request: Request, redirects: nat): Updater {
    Clear(u).(request := request, redirects := redirects, reply := Some(Reply(url, None, [])),
              chain := if redirects == 0 then 1 else u.chain + 1)
  }

  function Fetch(c: Setup, u: Updater, url: string, request: Request, redirects: nat): Updater {
    if !c.allowed(url) || redirects > 3 then Fail(u) else Issue(u, url, request, redirects)
  }

  // ----- Reading -----

  predicate Success(u: Updater)
    requires u.reply.Some?
  {
    u.reply.value.status == Some(200)
  }

  function Limit(u: Updater): int
    requires u.reply.Some?
  {
    if !Success(u) then 64 * 1024 else if u.request == Archive then u.archiveSize else 2 * 1024 * 1024
  }

  function Piece(waiting: Bytes): (data: Bytes)
    ensures data <= waiting && |data| <= 64 * 1024
    ensures waiting != [] ==> data != []
  {
    waiting[..if |waiting| < 64 * 1024 then |waiting| else 64 * 1024]
  }

  /** One turn of the read loop. */
  function ReadPiece(u: Updater, written: bool): Updater
    requires u.reply.Some?
  {
    var waiting := u.reply.value.waiting;
    var data := Piece(waiting);
    var u1 := u.(received := u.received + |data|,
                 reply := Some(u.reply.value.(waiting := waiting[|data|..])));
    if u1.received > Limit(u) then Fail(u1)
    else if !Success(u) then u1
    else if u.request == Archive then ReadArchive(u1, data, written)
    else u1.(buffer := u1.buffer + data)
  }

  function ReadArchive(u: Updater, data: Bytes, written: bool): Updater {
    var u1 := u.(hashed := u.hashed + data);
    if u1.file.None? || !written then Fail(u1)
    else u1.(file := Some(u1.file.value.(contents := u1.file.value.contents + data)))
  }

  function ReadAll(u: Updater, writes: nat -> bool, k: nat): Updater
    decreases if u.reply.Some? then |u.reply.value.waiting| else 0
  {
    if u.reply.None? || u.reply.value.waiting == [] then u
    else ReadAll(ReadPiece(u, writes(k)), writes, k + 1)
  }

  // ----- Downloading -----

  function StartDownload(c: Setup, u: Updater, destination: string, a: Answers): Updater {
    if u.state != Available || destination == "" then u
    else if !a.opens then Fail(u)
    else
      Fetch(c, u.(file := Some(PartFile(destination, [])), savedPath := destination, state := Downloading),
            u.archiveUrl, Archive, 0)
  }

  function ClearInstallers(c: Setup, disk: map<string, Bytes>, keep: Option<string>): map<string, Bytes> {
    map p | p in disk && (!c.isInstaller(p) || Some(p) == keep) :: disk[p]
  }

  predicate Verified(c: Setup, u: Updater, path: string) {
    path in u.disk && |u.disk[path]| == u.archiveSize && c.sha(u.disk[path]) == u.archiveHash
  }

  function DownloadInstaller(c: Setup, u: Updater, a: Answers): Updater {
    if !a.cacheReady then Fail(u)
    else
      var destination := c.cachePath(u.fileName);
      var u1 := u.(disk := ClearInstallers(c, u.disk, Some(destination)));
      if a.readable && Verified(c, u1, destination) then u1.(savedPath := destination, state := Ready)
      else StartDownload(c, u1, destination, a)
  }

  predicate Published(prefix: string, asset: Asset) {
    asset.url == prefix + asset.name && asset.uploaded
  }

  function Named(assets: seq<Asset>, name: string): (s: seq<Asset>)
    ensures forall x :: x in s <==> x in assets && x.name == name
    decreases |assets|
  {
    if assets == [] then []
    else
      assert assets == assets[..|assets| - 1] + [assets[|assets| - 1]];
      Named(assets[..|assets| - 1], name)
      + if assets[|assets| - 1].name == name then [assets[|assets| - 1]] else []
  }

  function ReadReleases(c: Setup, u: Updater, a: Answers): Updater {
    var document := c.decode(u.buffer);
    if Parse(c.version).None? || document.None? || document.value == [] || |document.value| > 100 then Fail(u)
    else
      var current, releases := Parse(c.version).value, document.value;
      if !exists r | r in releases :: Eligible(current, r) then Fail(u)
      else
        var selected := Select(current, releases);
        if selected.None? then UpToDate(c, u) else Choose(c, u, selected.value, a)
  }

  function UpToDate(c: Setup, u: Updater): Updater {
    Stop(u).(disk := if c.installed then ClearInstallers(c, u.disk, None) else u.disk, state := Current)
  }

  /** The archive of the chosen release: exactly one, published, of known size. */
  function Choose(c: Setup, u: Updater, selected: Release, a: Answers): Updater
    requires selected.tag != ""
  {
    var version := selected.tag[1..];
    var name := c.archiveName(version);
    var prefix := ROOT + "download/v" + version + "/";
    var named := Named(selected.assets, name);
    var u1 := u.(version := version, fileName := name);
    if exists x | x in named :: !Published(prefix, x) then Fail(u1)
    else Pin(c, u1, |named|, if named == [] then NoAsset() else named[|named| - 1], prefix + name, a)
  }

  function NoAsset(): Asset { Asset("", "", false, 0, "") }

  function Pin(c: Setup, u: Updater, matches: nat, archive: Asset, url: string, a: Answers): Updater {
    var u1 := u.(archiveSize := archive.size, archiveHash := c.assetHash(archive.digest));
    if matches != 1 || archive.size <= 0 || archive.size > MAX_ARCHIVE_SIZE || u1.archiveHash == "" then Fail(u1)
    else
      var u2 := Stop(u1.(archiveUrl := url)).(state := Available);
      if c.installed then DownloadInstaller(c, u2, a) else u2
  }

  function FinishArchive(c: Setup, u: Updater, a: Answers): Updater {
    if u.received != u.archiveSize || c.sha(u.hashed) != u.archiveHash then Fail(u)
    else if u.file.None? || !a.commits then Fail(u)
    else Stop(u.(disk := u.disk[u.file.value.path := u.file.value.contents])).(state := Ready)
  }

  /** The reply has been read to its end and is let go. */
  function Conclude(c: Setup, u: Updater, status: int, a: Answers): Updater {
    if 300 <= status < 400 then Fetch(c, u, a.redirect, u.request, u.redirects + 1)
    else if a.failed || status != 200 then Fail(u)
    else if u.request == Releases then ReadReleases(c, u, a)
    else FinishArchive(c, u, a)
  }

  function FinishRequest(c: Setup, u: Updater, a: Answers): Updater {
    var u1 := ReadAll(u, a.writes, 0);
    if u1.reply.None? then u1
    else
      var status := if u1.reply.value.status.Some? then u1.reply.value.status.value else 0;
      Conclude(c, u1.(reply := None), status, a)
  }

  function StartCheck(c: Setup, u: Updater): Updater {
    if u.state == Checking || u.state == Downloading || u.state == Installing || (u.state == Ready && c.installed)
    then u
    else Fetch(c, Forget(Stop(u)), API, Releases, 0)
  }

  function Forget(u: Updater): Updater { u.(version := "", savedPath := "", fileName := "", state := Checking) }

  // ----- Steps -----

  /** Headers come once and before any data. Slots run only while there is a
      reply, and the deadline only while there is a request. */
  function Step(c: Setup, u: Updater, e: Event): Updater {
    match e
    case Check => StartCheck(c, u)
    case Download(destination, a) => StartDownload(c, u, destination, a)
    case Respond(status) =>
      if u.reply.Some? && u.reply.value.status.None?
      then u.(reply := Some(u.reply.value.(status := Some(status)))) else u
    case Arrive(data) =>
      if u.reply.Some? && u.reply.value.status.Some?
      then u.(reply := Some(u.reply.value.(waiting := u.reply.value.waiting + data))) else u
    case Read(a) => ReadAll(u, a.writes, 0)
    case Finish(a) => if u.reply.None? then u else FinishRequest(c, u, a)
    case Cancel => if u.state != Checking && u.state != Downloading then u else Stop(u).(state := Canceled)
    case Timeout => if u.reply.None? then u else Fail(u)
  }

  function Run(c: Setup, u: Updater, events: seq<Event>): Updater
    decreases |events|
  {
    if events == [] then u else Step(c, Run(c, u, events[..|events| - 1]), events[|events| - 1])
  }
}
