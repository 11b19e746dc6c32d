/** verifyRecords of src/base/profileimport.cpp, which decides whether a rewritten
    resume store holds what was meant to be saved, and the check for torrents
    that are already there. */
module ResumeRecords {
  import opened Wrappers

  datatype InfoHashes = InfoHashes(v1: Option<string>, v2: Option<string>)

  /** The fields that are compared, the hashes that the resume record itself
      lists, and everything else of it. `infoHashes` are those of the metadata. */
  datatype Params = Params(
    savePath: string, downloadPath: string, stopped: bool, autoTMM: bool, preview: bool,
    nativePath: string, renamed: map<int, string>, infoHashes: Option<InfoHashes>, listed: InfoHashes, other: int)

  /** `params` is absent for a damaged record. */
  datatype Record = Record(id: string, params: Option<Params>)

  predicate Agrees(actual: Params, wanted: Params) {
    actual.(listed := wanted.listed, other := wanted.other) == wanted && wanted.infoHashes.Some?
  }

  /** Field by field: everything that is compared is equal, and both records have
      metadata; the hashes a record lists and the rest of it do not matter. */
  lemma AgreesExactly(actual: Params, wanted: Params)
    ensures Agrees(actual, wanted) <==>
              && actual.savePath == wanted.savePath && actual.downloadPath == wanted.downloadPath
              && actual.stopped == wanted.stopped && actual.autoTMM == wanted.autoTMM
              && actual.preview == wanted.preview && actual.nativePath == wanted.nativePath
              && actual.renamed == wanted.renamed
              && actual.infoHashes.Some? && wanted.infoHashes.Some? && actual.infoHashes == wanted.infoHashes
  {
  }

  ghost predicate Distinct(records: seq<Record>) {
    forall i, j | 0 <= i < j < |records| :: records[i].id != records[j].id
  }

  function Ids(records: seq<Record>): set<string> {
    set r | r in records :: r.id
  }

  ghost predicate Holds(loaded: seq<Record>, e: Record) {
    e.params.Some? && exists l :: l in loaded && l.id == e.id && l.params.Some? && Agrees(l.params.value, e.params.value)
  }

  ghost predicate Verified(loaded: seq<Record>, expected: seq<Record>) {
    && |loaded| == |expected|
    && (forall l | l in loaded :: l.params.Some?)
    && Distinct(loaded)
    && (forall e | e in expected :: Holds(loaded, e))
  }

  ghost predicate Loaded(all: seq<Record>, records: map<string, Params>) {
    && (forall l | l in all :: l.params.Some? && l.id in records && records[l.id] == l.params.value)
    && (forall id | id in records :: exists l :: l in all && l.id == id)
  }

  /** The first loop: the loaded records by id. */
  method LoadRecords(all: seq<Record>) returns (ok: bool, records: map<string, Params>)
    ensures ok <==> (forall l | l in all :: l.params.Some?) && Distinct(all)
    ensures ok ==> Loaded(all, records)
  {
    records := map[];
    for i := 0 to |all|
      invariant Loaded(all[..i], records) && Distinct(all[..i])
    {
      if all[i].params.None? || all[i].id in records { assert all[i] in all; return false, records; }
      records := records[all[i].id := all[i].params.value];
      assert all[..i + 1] == all[..i] + [all[i]];
    }
    assert all[..|all|] == all;
    return true, records;
  }

  lemma HoldsExactly(all: seq<Record>, records: map<string, Params>, e: Record)
    requires Loaded(all, records)
    ensures Holds(all, e) <==> e.params.Some? && e.id in records && Agrees(records[e.id], e.params.value)
  {
  }

  method VerifyRecords(loaded: Option<seq<Record>>, expected: seq<Record>) returns (ok: bool)
    ensures ok <==> loaded.Some? && Verified(loaded.value, expected)
  {
    if loaded.None? || |loaded.value| != |expected| { return false; }
    var records;
    ok, records := LoadRecords(loaded.value);
    if !ok { return; }
    for i := 0 to |expected|
      invariant forall e | e in expected[..i] :: Holds(loaded.value, e)
    {
      var e := expected[i];
      HoldsExactly(loaded.value, records, e);
      if e.params.None? || e.id !in records || !Agrees(records[e.id], e.params.value) {
        assert e in expected;
        return false;
      }
      assert expected[..i + 1] == expected[..i] + [e];
    }
    assert expected[..|expected|] == expected;
    return true;
  }

  lemma {:induction false} IdCount(records: seq<Record>)
    ensures |Ids(records)| <= |records|
    ensures |Ids(records)| == |records| <==> Distinct(records)
  {
    if records != [] {
      var init, last := records[..|records| - 1], records[|records| - 1];
      IdCount(init);
      assert records == init + [last];
      assert Ids(records) == Ids(init) + {last.id};
      if last.id in Ids(init) {
        var r :| r in init && r.id == last.id;
        var i :| 0 <= i < |init| && init[i] == r;
        assert records[i].id == records[|records| - 1].id;
      }
    }
  }

  lemma SubsetOfSameSize(a: set<string>, b: set<string>)
    requires a <= b
    ensures a == b <==> |a| == |b|
  {
    assert b == a + (b - a);
    if |a| == |b| { assert |b - a| == 0; }
  }

  /** A verified store holds no torrent beyond the expected ones exactly when the
      expected list names no torrent twice. */
  lemma VerifiedIsComplete(loaded: seq<Record>, expected: seq<Record>)
    requires Verified(loaded, expected)
    ensures Ids(expected) <= Ids(loaded)
    ensures Ids(loaded) == Ids(expected) <==> Distinct(expected)
  {
    forall id | id in Ids(expected) ensures id in Ids(loaded) {
      var e :| e in expected && e.id == id;
      assert Holds(loaded, e);
    }
    IdCount(loaded);
    IdCount(expected);
    SubsetOfSameSize(Ids(expected), Ids(loaded));
  }

  ghost predicate Wanted(l: Record, expected: seq<Record>) {
    exists e :: e in expected && e.id == l.id && e.params.Some? && l.params.Some? && Agrees(l.params.value, e.params.value)
  }

  /** With distinct expectations, every saved record agrees with one of them. */
  lemma VerifiedAgrees(loaded: seq<Record>, expected: seq<Record>, l: Record)
    requires Verified(loaded, expected) && Distinct(expected) && l in loaded
    ensures Wanted(l, expected)
  {
    VerifiedIsComplete(loaded, expected);
    assert l.id in Ids(expected);
    var e :| e in expected && e.id == l.id;
    assert Holds(loaded, e);
    var match_ :| match_ in loaded && match_.id == e.id && match_.params.Some? && Agrees(match_.params.value, e.params.value);
    var i :| 0 <= i < |loaded| && loaded[i] == l;
    var j :| 0 <= j < |loaded| && loaded[j] == match_;
    assert i == j;
  }

  /** By itself the function accepts a stranger in the place of an expectation
      that is listed twice. */
  lemma DuplicateLetsStrangerThrough(a: Record, b: Record)
    requires a.params.Some? && a.params.value.infoHashes.Some? && b.params.Some? && a.id != b.id
    ensures Verified([a, b], [a, a]) && b.id !in Ids([a, a])
  {
    assert forall e | e in [a, a] :: e == a;
    assert a in [a, b] && Agrees(a.params.value, a.params.value);
  }

  // ----- What its callers make of it -----

  /** The store is the expected one: the same torrents, each as it was wanted. */
  ghost predicate Exact(loaded: seq<Record>, expected: seq<Record>) {
    && Ids(loaded) == Ids(expected) && Distinct(loaded) && Distinct(expected)
    && (forall e | e in expected :: Holds(loaded, e))
    && (forall l | l in loaded :: Wanted(l, expected))
  }

  lemma VerifiedIsExact(loaded: seq<Record>, expected: seq<Record>)
    requires Verified(loaded, expected) && Distinct(expected)
    ensures Exact(loaded, expected)
  {
    VerifiedIsComplete(loaded, expected);
    forall l | l in loaded ensures Wanted(l, expected) {
      VerifiedAgrees(loaded, expected, l);
    }
  }

  /** A store that was made by storing the expected records, in a new directory or
      over a copy that holds nothing else, is verified only when it is exact: an
      expectation that is listed twice leaves it one record short. */
  lemma NoStrangers(loaded: seq<Record>, expected: seq<Record>)
    requires Ids(loaded) <= Ids(expected) && Verified(loaded, expected)
    ensures Exact(loaded, expected)
  {
    VerifiedIsComplete(loaded, expected);
    VerifiedIsExact(loaded, expected);
  }

  predicate Overlap(a: InfoHashes, b: InfoHashes) {
    (a.v1.Some? && a.v1 == b.v1) || (a.v2.Some? && a.v2 == b.v2)
  }

  function Listed(r: Record): InfoHashes {
    if r.params.Some? then r.params.value.listed else InfoHashes(None, None)
  }

  predicate Placed(r: Record) {
    r.params.Some? && r.params.value.stopped && !r.params.value.autoTMM
  }

  /** From `first` on, no record lists a hash of an earlier one. */
  ghost predicate New(records: seq<Record>, first: nat) {
    forall i, j | first <= i < |records| && 0 <= j < i :: !Overlap(Listed(records[i]), Listed(records[j]))
  }

  ghost predicate Admissible(current: seq<Record>, imports: seq<Record>) {
    && (forall r | r in current :: r.params.Some?)
    && (forall r | r in imports :: Placed(r))
    && New(current + imports, |current|)
  }

  method IsRepeated(listed: InfoHashes, hashes: seq<InfoHashes>) returns (found: bool)
    ensures found <==> exists h :: h in hashes && Overlap(listed, h)
  {
    for i := 0 to |hashes|
      invariant forall h | h in hashes[..i] :: !Overlap(listed, h)
    {
      if Overlap(listed, hashes[i]) { return true; }
      assert hashes[..i + 1] == hashes[..i] + [hashes[i]];
    }
    assert hashes[..|hashes|] == hashes;
    return false;
  }

  function AllListed(records: seq<Record>): (hashes: seq<InfoHashes>)
    ensures |hashes| == |records|
    ensures forall i | 0 <= i < |records| :: hashes[i] == Listed(records[i])
  {
    seq(|records|, i requires 0 <= i < |records| => Listed(records[i]))
  }

  method ListHashes(current: seq<Record>) returns (ok: bool, hashes: seq<InfoHashes>)
    ensures ok <==> forall r | r in current :: r.params.Some?
    ensures ok ==> hashes == AllListed(current)
  {
    hashes := [];
    for i := 0 to |current|
      invariant |hashes| == i
      invariant forall j | 0 <= j < i :: current[j].params.Some? && hashes[j] == Listed(current[j])
    {
      if current[i].params.None? { assert current[i] in current; return false, hashes; }
      hashes := hashes + [current[i].params.value.listed];
    }
    return true, hashes;
  }

  lemma NewStep(all: seq<Record>, first: nat, i: nat)
    requires first <= i < |all|
    ensures New(all[..i + 1], first)
            <==> New(all[..i], first) && !exists h :: h in AllListed(all[..i]) && Overlap(Listed(all[i]), h)
  {
    var hashes := AllListed(all[..i]);
    if exists h :: h in hashes && Overlap(Listed(all[i]), h) {
      var h :| h in hashes && Overlap(Listed(all[i]), h);
      var j :| 0 <= j < |hashes| && hashes[j] == h;
      assert Overlap(Listed(all[..i + 1][i]), Listed(all[..i + 1][j]));
    } else {
      forall j | 0 <= j < i ensures !Overlap(Listed(all[i]), Listed(all[j])) {
        assert hashes[j] in hashes;
      }
    }
    if New(all[..i + 1], first) {
      forall k, j | first <= k < i && 0 <= j < k ensures !Overlap(Listed(all[..i][k]), Listed(all[..i][j])) {
        assert !Overlap(Listed(all[..i + 1][k]), Listed(all[..i + 1][j]));
      }
    }
  }

  lemma NewPrefix(all: seq<Record>, first: nat, i: nat)
    requires i <= |all|
    ensures New(all, first) ==> New(all[..i], first)
  {
    forall k, j | New(all, first) && first <= k < i && 0 <= j < k
      ensures !Overlap(Listed(all[..i][k]), Listed(all[..i][j]))
    {
      assert !Overlap(Listed(all[k]), Listed(all[j]));
    }
  }

  /** The loops of recover() before the backup, without the reservation of names
      and the opening of files between them. */
  method CheckImports(current: seq<Record>, imports: seq<Record>) returns (ok: bool)
    ensures ok <==> Admissible(current, imports)
  {
    var hashes;
    ok, hashes := ListHashes(current);
    if !ok { return; }
    ghost var all := current + imports;
    assert all[..|current|] == current;
    for i := 0 to |imports|
      invariant hashes == AllListed(all[..|current| + i])
      invariant forall r | r in imports[..i] :: Placed(r)
      invariant New(all[..|current| + i], |current|)
    {
      ghost var n := |current| + i;
      assert imports[i] in imports && all[n] == imports[i];
      if !Placed(imports[i]) { return false; }
      var listed := imports[i].params.value.listed;
      var found := IsRepeated(listed, hashes);
      NewStep(all, |current|, n);
      NewPrefix(all, |current|, n + 1);
      if found { return false; }
      hashes := hashes + [listed];
      assert imports[..i + 1] == imports[..i] + [imports[i]];
      assert all[..n + 1] == all[..n] + [all[n]];
    }
    assert imports[..|imports|] == imports && all[..|all|] == all;
    return true;
  }

  /** A torrent's identity is derived from its hashes. */
  ghost predicate SameIdSharesHash(records: seq<Record>) {
    forall i, j | 0 <= j < i < |records| && records[i].id == records[j].id :: Overlap(Listed(records[i]), Listed(records[j]))
  }

  lemma AdmissibleDistinct(current: seq<Record>, imports: seq<Record>)
    requires Admissible(current, imports) && SameIdSharesHash(current + imports)
    ensures Distinct(current + imports) <==> Distinct(current)
  {
    var all := current + imports;
    assert forall i | 0 <= i < |current| :: all[i] == current[i];
    if Distinct(current) {
      forall i, j | 0 <= i < j < |all| ensures all[i].id != all[j].id {
        assert j >= |current| ==> !Overlap(Listed(all[j]), Listed(all[i]));
      }
    } else {
      var i, j :| 0 <= i < j < |current| && current[i].id == current[j].id;
      assert all[i].id == all[j].id;
    }
  }

  /** After that check, a merged store that passes the verification is exactly the
      old store and the import, unless the old store named a torrent twice. */
  lemma MergedIsExact(loaded: seq<Record>, current: seq<Record>, imports: seq<Record>)
    requires Admissible(current, imports) && SameIdSharesHash(current + imports)
    requires Verified(loaded, current + imports)
    ensures Exact(loaded, current + imports) <==> Distinct(current)
    ensures Distinct(current) ==> Ids(loaded) == Ids(current) + Ids(imports)
  {
    var all := current + imports;
    AdmissibleDistinct(current, imports);
    if Distinct(current) { VerifiedIsExact(loaded, all); }
    assert Ids(all) == Ids(current) + Ids(imports);
  }
}
