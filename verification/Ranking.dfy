/** rankVariants of components/content/results.ts: a stable sort by score, then
    an in-place pass that reorders only the torrents of each equal-score group. */
module Ranking {
  import opened OrderedMaps
  import opened Variants

  type Measure = Variant -> real
  type Filter = Variant -> bool

  /** What the preparation step adds to a variant; it may look at all of them. */
  type Facets = (seq<Variant>, nat) -> map<string, string>

  function Prepared(variants: seq<Variant>, facets: Facets): (r: seq<Variant>)
    ensures |r| == |variants|
    ensures Keys(r, KeyOf) == Keys(variants, KeyOf)
  {
    seq(|variants|, i requires 0 <= i < |variants| => variants[i].(fields := facets(variants, i)))
  }

  // ----- The library's stable sort, greatest first -----

  function Place(s: seq<Variant>, v: Variant, key: Measure): (r: seq<Variant>)
    ensures |r| == |s| + 1
  {
    if s == [] || key(s[|s| - 1]) >= key(v) then s + [v]
    else Place(s[..|s| - 1], v, key) + [s[|s| - 1]]
  }

  function Sort(s: seq<Variant>, key: Measure): (r: seq<Variant>)
    ensures |r| == |s|
  {
    if s == [] then [] else Place(Sort(s[..|s| - 1], key), s[|s| - 1], key)
  }

  function Only(s: seq<Variant>, keep: Filter): seq<Variant> {
    if s == [] then [] else Only(s[..|s| - 1], keep) + if keep(s[|s| - 1]) then [s[|s| - 1]] else []
  }

  lemma {:induction false} OnlyKept(s: seq<Variant>, keep: Filter)
    ensures forall v | v in Only(s, keep) :: keep(v) && v in s
  {
    if s != [] { OnlyKept(s[..|s| - 1], keep); }
  }

  predicate Descending(s: seq<Variant>, key: Measure) {
    forall i, j | 0 <= i < j < |s| :: key(s[i]) >= key(s[j])
  }

  function Level(key: Measure, c: real): Filter { (v: Variant) => key(v) == c }

  lemma {:induction false} PlaceAdds(s: seq<Variant>, v: Variant, key: Measure)
    ensures multiset(Place(s, v, key)) == multiset(s) + multiset{v}
  {
    if s != [] && key(s[|s| - 1]) < key(v) {
      PlaceAdds(s[..|s| - 1], v, key);
      assert s == s[..|s| - 1] + [s[|s| - 1]];
    }
  }

  lemma {:induction false} PlaceDescends(s: seq<Variant>, v: Variant, key: Measure, low: real)
    requires Descending(s, key) && key(v) >= low && AllAtLeast(s, key, low)
    ensures Descending(Place(s, v, key), key) && AllAtLeast(Place(s, v, key), key, low)
  {
    if s != [] && key(s[|s| - 1]) < key(v) {
      PlaceDescends(s[..|s| - 1], v, key, key(s[|s| - 1]));
    }
  }

  predicate AllAtLeast(s: seq<Variant>, key: Measure, low: real) {
    forall i | 0 <= i < |s| :: key(s[i]) >= low
  }

  lemma {:induction false} Lowest(s: seq<Variant>, key: Measure) returns (low: real)
    ensures AllAtLeast(s, key, low)
  {
    if s == [] { return 0.0; }
    low := Lowest(s[..|s| - 1], key);
    if key(s[|s| - 1]) < low { low := key(s[|s| - 1]); }
  }

  lemma {:induction false} SortDescends(s: seq<Variant>, key: Measure)
    ensures Descending(Sort(s, key), key)
    ensures multiset(Sort(s, key)) == multiset(s)
  {
    if s != [] {
      var init, last := s[..|s| - 1], s[|s| - 1];
      assert s == init + [last];
      SortDescends(init, key);
      PlaceAdds(Sort(init, key), last, key);
      var low := Lowest(Sort(init, key) + [last], key);
      forall i | 0 <= i < |Sort(init, key)| ensures key(Sort(init, key)[i]) >= low {
        assert (Sort(init, key) + [last])[i] == Sort(init, key)[i];
      }
      assert (Sort(init, key) + [last])[|init|] == last;
      PlaceDescends(Sort(init, key), last, key, low);
    }
  }

  lemma OnlySnoc(init: seq<Variant>, v: Variant, keep: Filter)
    ensures Only(init + [v], keep) == Only(init, keep) + if keep(v) then [v] else []
  {
    assert (init + [v])[..|init|] == init;
  }

  lemma {:induction false} OnlyJoins(a: seq<Variant>, b: seq<Variant>, keep: Filter)
    ensures Only(a + b, keep) == Only(a, keep) + Only(b, keep)
    decreases |b|
  {
    if b == [] {
      assert a + b == a;
    } else {
      var init, last := b[..|b| - 1], b[|b| - 1];
      assert a + b == (a + init) + [last];
      OnlySnoc(a + init, last, keep);
      OnlyJoins(a, init, keep);
    }
  }

  lemma {:induction false} OnlyAll(s: seq<Variant>, keep: Filter, other: Filter)
    requires forall v | v in s :: keep(v) == other(v)
    ensures Only(s, keep) == Only(s, other)
  {
    if s != [] {
      assert s[|s| - 1] in s;
      OnlyAll(s[..|s| - 1], keep, other);
    }
  }

  lemma {:induction false} OnlyNone(s: seq<Variant>, keep: Filter)
    requires forall v | v in s :: !keep(v)
    ensures Only(s, keep) == []
  {
    if s != [] {
      assert s[|s| - 1] in s;
      OnlyNone(s[..|s| - 1], keep);
    }
  }

  lemma {:induction false} PlaceOnly(s: seq<Variant>, v: Variant, key: Measure, c: real, keep: Filter)
    requires Descending(s, key) && forall x | keep(x) :: key(x) == c
    ensures Only(Place(s, v, key), keep) == Only(s, keep) + if keep(v) then [v] else []
  {
    if s == [] || key(s[|s| - 1]) >= key(v) {
      OnlySnoc(s, v, keep);
    } else {
      var init, last := s[..|s| - 1], s[|s| - 1];
      assert s == init + [last];
      PlaceOnly(init, v, key, c, keep);
      OnlySnoc(Place(init, v, key), last, keep);
      assert !(keep(v) && keep(last));
    }
  }

  /** Entries of one level stay in their order. */
  lemma {:induction false} SortStable(s: seq<Variant>, key: Measure, c: real, keep: Filter)
    requires forall x | keep(x) :: key(x) == c
    ensures Only(Sort(s, key), keep) == Only(s, keep)
  {
    if s != [] {
      var init, last := s[..|s| - 1], s[|s| - 1];
      SortStable(init, key, c, keep);
      SortDescends(init, key);
      PlaceOnly(Sort(init, key), last, key, c, keep);
    }
  }

  // ----- The group pass -----

  function IsTorrent(): Filter { (v: Variant) => v.transport == Torrent }

  function TorrentLevel(score: Measure, c: real): Filter {
    (v: Variant) => v.transport == Torrent && score(v) == c
  }

  /** max(0, seeders || 0). */
  function Swarm(v: Variant): real {
    if v.seeders.Some? && v.seeders.value > 0 then v.seeders.value as real else 0.0
  }

  /** The torrent positions of a group filled from a list, in order. */
  function Refill(group: seq<Variant>, torrents: seq<Variant>): (r: seq<Variant>)
    requires |Only(group, IsTorrent())| == |torrents|
    ensures |r| == |group|
    decreases |group|
  {
    if group == [] then []
    else if group[|group| - 1].transport == Torrent then
      Refill(group[..|group| - 1], torrents[..|torrents| - 1]) + [torrents[|torrents| - 1]]
    else Refill(group[..|group| - 1], torrents) + [group[|group| - 1]]
  }

  /** How many leading entries share the first one's score. */
  function Run(s: seq<Variant>, score: Measure): (n: nat)
    requires s != []
    ensures 1 <= n <= |s|
  {
    RunFrom(s, score, 1)
  }

  function RunFrom(s: seq<Variant>, score: Measure, k: nat): (n: nat)
    requires 1 <= k <= |s|
    ensures k <= n <= |s|
    decreases |s| - k
  {
    if k < |s| && score(s[k]) == score(s[0]) then RunFrom(s, score, k + 1) else k
  }

  predicate OneScore(s: seq<Variant>, score: Measure, c: real) {
    forall i | 0 <= i < |s| :: score(s[i]) == c
  }

  lemma {:induction false} RunFromExact(s: seq<Variant>, score: Measure, k: nat)
    requires 1 <= k <= |s| && OneScore(s[..k], score, score(s[0]))
    ensures OneScore(s[..RunFrom(s, score, k)], score, score(s[0]))
    ensures RunFrom(s, score, k) < |s| ==> score(s[RunFrom(s, score, k)]) != score(s[0])
    decreases |s| - k
  {
    if k < |s| && score(s[k]) == score(s[0]) {
      assert s[..k + 1] == s[..k] + [s[k]];
      RunFromExact(s, score, k + 1);
    }
  }

  lemma RunExact(s: seq<Variant>, score: Measure)
    requires s != []
    ensures OneScore(s[..Run(s, score)], score, score(s[0]))
    ensures Run(s, score) < |s| ==> score(s[Run(s, score)]) != score(s[0])
  {
    RunFromExact(s, score, 1);
  }

  function Ordered(group: seq<Variant>): (r: seq<Variant>)
    ensures |r| == |group|
  {
    Refill(group, Sort(Only(group, IsTorrent()), Swarm))
  }

  function Regrouped(s: seq<Variant>, score: Measure): (r: seq<Variant>)
    ensures |r| == |s|
    decreases |s|
  {
    if s == [] then [] else
      var n := Run(s, score);
      Ordered(s[..n]) + Regrouped(s[n..], score)
  }

  function Rank(variants: seq<Variant>, facets: Facets, score: Measure): seq<Variant> {
    Regrouped(Sort(Prepared(variants, facets), score), score)
  }

  lemma Unfold(s: seq<Variant>, score: Measure, group: seq<Variant>, rest: seq<Variant>)
    requires s != [] && group == s[..Run(s, score)] && rest == s[Run(s, score)..]
    ensures s == group + rest && Regrouped(s, score) == Ordered(group) + Regrouped(rest, score)
  {
  }

  lemma Cut<T>(a: seq<T>, b: seq<T>)
    ensures (a + b)[..|a|] == a && (a + b)[|a|..] == b
  {
  }

  lemma NextGroup(done: seq<Variant>, rest: seq<Variant>, n: nat, score: Measure)
    requires rest != [] && n == Run(rest, score)
    ensures (done + Ordered(rest[..n])) + Regrouped(rest[n..], score) == done + Regrouped(rest, score)
  {
    Unfold(rest, score, rest[..n], rest[n..]);
  }

  method Regroup(prepared: array<Variant>, score: Measure)
    modifies prepared
    ensures prepared[..] == Regrouped(old(prepared[..]), score)
  {
    var start := 0;
    ghost var done, rest := [], prepared[..];
    assert done + rest == rest;
    while start < prepared.Length
      invariant start == |done| <= prepared.Length && prepared[..] == done + rest
      invariant done + Regrouped(rest, score) == Regrouped(old(prepared[..]), score)
    {
      Cut(done, rest);
      var end := RegroupOne(prepared, start, score, done, rest);
      NextGroup(done, rest, end - start, score);
      done, rest := done + Ordered(rest[..end - start]), rest[end - start..];
      start := end;
    }
    assert rest == [] && done + [] == done;
  }

  lemma TakeRest(done: seq<Variant>, rest: seq<Variant>, n: nat)
    requires n <= |rest|
    ensures done + rest[..n] + rest[n..] == done + rest
  {
  }

  /** The end of the group that begins at `start`. */
  method FindEnd(prepared: array<Variant>, start: nat, score: Measure, ghost done: seq<Variant>, ghost rest: seq<Variant>)
    returns (end: nat)
    requires start == |done| && rest != [] && prepared[..] == done + rest
    ensures start < end <= prepared.Length && end - start == Run(rest, score)
  {
    end := start + 1;
    while end < prepared.Length && score(prepared[end]) == score(prepared[start])
      invariant start < end <= prepared.Length
      invariant RunFrom(rest, score, end - start) == Run(rest, score)
    {
      assert prepared[..][end] == rest[end - start] && prepared[..][start] == rest[0];
      end := end + 1;
    }
    assert end < prepared.Length ==> prepared[..][end] == rest[end - start] && prepared[..][start] == rest[0];
  }

  /** One turn of the outer loop: the group is found and refilled. */
  method RegroupOne(prepared: array<Variant>, start: nat, score: Measure, ghost done: seq<Variant>, ghost rest: seq<Variant>)
    returns (end: nat)
    requires start == |done| && rest != [] && prepared[..] == done + rest
    modifies prepared
    ensures start < end <= prepared.Length && end - start == Run(rest, score)
    ensures prepared[..] == done + Ordered(rest[..end - start]) + rest[end - start..]
  {
    end := FindEnd(prepared, start, score, done, rest);
    ghost var group := rest[..end - start];
    assert prepared[start..end] == group;
    var torrents := Sort(Only(prepared[start..end], IsTorrent()), Swarm);
    TakeRest(done, rest, end - start);
    RefillInPlace(prepared, start, end, torrents, done, group, rest[end - start..]);
  }

  lemma TakeOneMore(group: seq<Variant>, k: nat)
    requires k < |group|
    ensures group[..k + 1][..k] == group[..k] && group[..k + 1] == group[..k] + [group[k]]
    ensures group == group[..k + 1] + group[k + 1..]
  {
  }

  lemma RefillStep(group: seq<Variant>, k: nat, torrents: seq<Variant>, next: nat)
    requires k < |group| && |Only(group, IsTorrent())| == |torrents|
    requires next == |Only(group[..k], IsTorrent())| <= |torrents|
    ensures group[k].transport == Torrent ==>
              next < |torrents|
              && |Only(group[..k + 1], IsTorrent())| == next + 1
              && Refill(group[..k + 1], torrents[..next + 1]) == Refill(group[..k], torrents[..next]) + [torrents[next]]
    ensures group[k].transport != Torrent ==>
              |Only(group[..k + 1], IsTorrent())| == next
              && Refill(group[..k + 1], torrents[..next]) == Refill(group[..k], torrents[..next]) + [group[k]]
  {
    var upTo := group[..k + 1];
    TakeOneMore(group, k);
    OnlyJoins(upTo, group[k + 1..], IsTorrent());
    if group[k].transport == Torrent {
      assert torrents[..next + 1][..next] == torrents[..next];
    }
  }

  /** The inner for loop of the group pass. */
  method RefillInPlace(prepared: array<Variant>, start: nat, end: nat, torrents: seq<Variant>,
                       ghost done: seq<Variant>, ghost group: seq<Variant>, ghost rest: seq<Variant>)
    requires start == |done| && end == start + |group| && prepared[..] == done + group + rest
    requires |Only(group, IsTorrent())| == |torrents|
    modifies prepared
    ensures prepared[..] == done + Refill(group, torrents) + rest
  {
    var next := 0;
    ghost var filled, pending: seq<Variant> := [], group;
    assert done + [] + group + rest == done + group + rest;
    for index := start to end
      invariant |filled| == index - start && pending == group[|filled|..]
      invariant prepared[..] == done + filled + pending + rest
      invariant next == |Only(group[..|filled|], IsTorrent())| <= |torrents|
      invariant filled == Refill(group[..|filled|], torrents[..next])
    {
      RefillStep(group, |filled|, torrents, next);
      Splice(done, filled, pending, rest, prepared[..]);
      if prepared[index].transport == Torrent {
        Overwrite(prepared, index, torrents[next], done, filled, pending, rest);
        filled := filled + [torrents[next]];
        next := next + 1;
      } else {
        filled := filled + [pending[0]];
      }
      pending := pending[1..];
    }
    assert group[..|filled|] == group && pending == [];
    assert torrents[..next] == torrents;
  }

  lemma Splice<T>(a: seq<T>, b: seq<T>, c: seq<T>, d: seq<T>, all: seq<T>)
    requires all == a + b + c + d && c != []
    ensures all[|a| + |b|] == c[0] && all == a + (b + [c[0]]) + c[1..] + d
  {
  }

  method Overwrite(a: array<Variant>, index: nat, v: Variant,
                   ghost done: seq<Variant>, ghost filled: seq<Variant>, ghost pending: seq<Variant>, ghost rest: seq<Variant>)
    requires a[..] == done + filled + pending + rest && pending != [] && index == |done| + |filled|
    modifies a
    ensures a[..] == done + (filled + [v]) + pending[1..] + rest
  {
    a[index] := v;
  }

  method RankVariants(variants: seq<Variant>, facets: Facets, score: Measure) returns (ranked: seq<Variant>)
    ensures ranked == Rank(variants, facets, score)
  {
    var sorted := Sort(Prepared(variants, facets), score);
    var prepared := new Variant[|sorted|](i requires 0 <= i < |sorted| => sorted[i]);
    assert prepared[..] == sorted;
    Regroup(prepared, score);
    ranked := prepared[..];
  }

  // ----- What the pass leaves alone and what it sorts -----

  lemma {:induction false} RefillOnly(group: seq<Variant>, torrents: seq<Variant>)
    requires |Only(group, IsTorrent())| == |torrents| && AllTorrents(torrents)
    ensures Only(Refill(group, torrents), IsTorrent()) == torrents
    decreases |group|
  {
    if group != [] {
      var init, last := group[..|group| - 1], group[|group| - 1];
      if last.transport == Torrent {
        var some, t := torrents[..|torrents| - 1], torrents[|torrents| - 1];
        RefillOnly(init, some);
        OnlySnoc(Refill(init, some), t, IsTorrent());
        assert IsTorrent()(t);
        TakeOneMore(torrents, |torrents| - 1);
        assert torrents == some + [t];
      } else {
        assert Only(group, IsTorrent()) == Only(init, IsTorrent());
        RefillOnly(init, torrents);
        OnlySnoc(Refill(init, torrents), last, IsTorrent());
        assert !IsTorrent()(last);
      }
    }
  }

  predicate AllTorrents(s: seq<Variant>) {
    forall i | 0 <= i < |s| :: s[i].transport == Torrent
  }

  lemma {:induction false} RefillPositions(group: seq<Variant>, torrents: seq<Variant>, i: nat)
    requires |Only(group, IsTorrent())| == |torrents| && AllTorrents(torrents) && i < |group|
    ensures group[i].transport != Torrent ==> Refill(group, torrents)[i] == group[i]
    ensures group[i].transport == Torrent ==>
              Refill(group, torrents)[i] in torrents && Refill(group, torrents)[i].transport == Torrent
    decreases |group|
  {
    if i < |group| - 1 {
      var init, last, m := group[..|group| - 1], group[|group| - 1], |torrents| - 1;
      RefillPositions(init, if last.transport == Torrent then torrents[..m] else torrents, i);
    }
  }

  function Count(s: seq<Variant>, v: Variant): nat {
    if s == [] then 0 else Count(s[..|s| - 1], v) + if s[|s| - 1] == v then 1 else 0
  }

  lemma {:induction false} CountIsMultiset(s: seq<Variant>, v: Variant)
    ensures Count(s, v) == multiset(s)[v]
  {
    if s != [] {
      CountIsMultiset(s[..|s| - 1], v);
      assert s == s[..|s| - 1] + [s[|s| - 1]];
    }
  }

  lemma CountSnoc(init: seq<Variant>, last: Variant, v: Variant)
    ensures Count(init + [last], v) == Count(init, v) + if last == v then 1 else 0
  {
    assert (init + [last])[..|init|] == init;
  }

  lemma {:induction false} CountJoins(a: seq<Variant>, b: seq<Variant>, v: Variant)
    ensures Count(a + b, v) == Count(a, v) + Count(b, v)
    decreases |b|
  {
    if b == [] {
      assert a + b == a;
    } else {
      assert a + b == (a + b[..|b| - 1]) + [b[|b| - 1]];
      CountSnoc(a + b[..|b| - 1], b[|b| - 1], v);
      CountJoins(a, b[..|b| - 1], v);
    }
  }

  lemma {:induction false} RefillContents(group: seq<Variant>, torrents: seq<Variant>, v: Variant)
    requires |Only(group, IsTorrent())| == |torrents|
    ensures Count(Refill(group, torrents), v) + Count(Only(group, IsTorrent()), v) == Count(group, v) + Count(torrents, v)
    decreases |group|
  {
    if group != [] {
      var init, last, m := group[..|group| - 1], group[|group| - 1], |torrents| - 1;
      if last.transport == Torrent {
        RefillContents(init, torrents[..m], v);
        CountSnoc(Refill(init, torrents[..m]), torrents[m], v);
        CountSnoc(Only(init, IsTorrent()), last, v);
      } else {
        RefillContents(init, torrents, v);
        assert Only(group, IsTorrent()) == Only(init, IsTorrent());
        CountSnoc(Refill(init, torrents), last, v);
      }
    }
  }

  /** Reordering one group: what is not a torrent keeps its place. */
  lemma OrderedPositions(group: seq<Variant>, i: nat)
    requires i < |group|
    ensures group[i].transport != Torrent ==> Ordered(group)[i] == group[i]
    ensures group[i].transport == Torrent ==> Ordered(group)[i] in group && Ordered(group)[i].transport == Torrent
  {
    var torrents := Only(group, IsTorrent());
    SortedTorrents(group);
    RefillPositions(group, Sort(torrents, Swarm), i);
  }

  lemma SortedTorrents(group: seq<Variant>)
    ensures AllTorrents(Sort(Only(group, IsTorrent()), Swarm))
    ensures forall v | v in Sort(Only(group, IsTorrent()), Swarm) :: v in group
    ensures multiset(Sort(Only(group, IsTorrent()), Swarm)) == multiset(Only(group, IsTorrent()))
  {
    var torrents := Only(group, IsTorrent());
    var sorted := Sort(torrents, Swarm);
    OnlyKept(group, IsTorrent());
    SortDescends(torrents, Swarm);
    forall v | v in sorted ensures v in torrents {
      assert multiset(sorted)[v] > 0;
    }
    forall i | 0 <= i < |sorted| ensures sorted[i].transport == Torrent {
      assert sorted[i] in torrents && IsTorrent()(sorted[i]);
    }
  }

  lemma OrderedContents(group: seq<Variant>, v: Variant)
    ensures Count(Ordered(group), v) == Count(group, v)
  {
    var torrents := Only(group, IsTorrent());
    SortedTorrents(group);
    CountIsMultiset(torrents, v);
    CountIsMultiset(Sort(torrents, Swarm), v);
    RefillContents(group, Sort(torrents, Swarm), v);
  }

  lemma OrderedTorrents(group: seq<Variant>)
    ensures Only(Ordered(group), IsTorrent()) == Sort(Only(group, IsTorrent()), Swarm)
  {
    SortedTorrents(group);
    RefillOnly(group, Sort(Only(group, IsTorrent()), Swarm));
  }

  lemma PlaceNow(s: seq<Variant>, score: Measure, group: seq<Variant>, rest: seq<Variant>, i: nat)
    requires s != [] && group == s[..Run(s, score)] && rest == s[Run(s, score)..] && i < |group|
    ensures SamePlace(s, Regrouped(s, score), score, i)
  {
    Unfold(s, score, group, rest);
    RunExact(s, score);
    OrderedPlace(group, score, score(s[0]), i);
    Cut2(s, Regrouped(s, score), group, Ordered(group), rest, Regrouped(rest, score), i);
  }

  lemma PlaceLater(s: seq<Variant>, score: Measure, group: seq<Variant>, rest: seq<Variant>, i: nat)
    requires s != [] && group == s[..Run(s, score)] && rest == s[Run(s, score)..] && |group| <= i < |s|
    requires SamePlace(rest, Regrouped(rest, score), score, i - |group|)
    ensures SamePlace(s, Regrouped(s, score), score, i)
  {
    Unfold(s, score, group, rest);
    Cut2(s, Regrouped(s, score), group, Ordered(group), rest, Regrouped(rest, score), i);
  }

  /** On a list already sorted by score: every position keeps its score and
      what is not a torrent keeps its position. */
  lemma {:induction false} RegroupedPositions(s: seq<Variant>, score: Measure, i: nat)
    requires i < |s|
    ensures SamePlace(s, Regrouped(s, score), score, i)
    decreases |s|
  {
    var n := Run(s, score);
    if i < n {
      PlaceNow(s, score, s[..n], s[n..], i);
    } else {
      RegroupedPositions(s[n..], score, i - n);
      PlaceLater(s, score, s[..n], s[n..], i);
    }
  }

  /** Same score; and the same entry unless both are torrents. */
  predicate SamePlace(s: seq<Variant>, t: seq<Variant>, score: Measure, i: nat)
    requires i < |s| == |t|
  {
    score(t[i]) == score(s[i])
    && (s[i].transport != Torrent ==> t[i] == s[i])
    && (s[i].transport == Torrent <==> t[i].transport == Torrent)
  }

  lemma OrderedPlace(group: seq<Variant>, score: Measure, d: real, i: nat)
    requires i < |group| && OneScore(group, score, d)
    ensures SamePlace(group, Ordered(group), score, i)
  {
    OrderedPositions(group, i);
  }

  lemma Cut2<T>(s: seq<T>, t: seq<T>, a: seq<T>, b: seq<T>, c: seq<T>, d: seq<T>, i: nat)
    requires s == a + c && t == b + d && |a| == |b| && i < |s| == |t|
    ensures s[i] == if i < |a| then a[i] else c[i - |a|]
    ensures t[i] == if i < |a| then b[i] else d[i - |a|]
  {
  }

  lemma {:induction false} RegroupedContents(s: seq<Variant>, score: Measure, v: Variant)
    ensures Count(Regrouped(s, score), v) == Count(s, v)
    decreases |s|
  {
    if s != [] {
      var n := Run(s, score);
      var group, rest := s[..n], s[n..];
      RegroupedContents(rest, score, v);
      GroupContents(group, rest, Regrouped(rest, score), v);
      Unfold(s, score, group, rest);
    }
  }

  lemma GroupContents(group: seq<Variant>, rest: seq<Variant>, after: seq<Variant>, v: Variant)
    requires Count(after, v) == Count(rest, v)
    ensures Count(Ordered(group) + after, v) == Count(group + rest, v)
  {
    OrderedContents(group, v);
    CountJoins(Ordered(group), after, v);
    CountJoins(group, rest, v);
  }

  lemma RegroupedPermutes(s: seq<Variant>, score: Measure)
    ensures multiset(Regrouped(s, score)) == multiset(s)
  {
    forall v ensures multiset(Regrouped(s, score))[v] == multiset(s)[v] {
      RegroupedContents(s, score, v);
      CountIsMultiset(s, v);
      CountIsMultiset(Regrouped(s, score), v);
    }
  }

  lemma OneLevel(group: seq<Variant>, score: Measure, d: real, c: real)
    requires forall i | 0 <= i < |group| :: score(group[i]) == d
    ensures d == c ==> Only(group, TorrentLevel(score, c)) == Only(group, IsTorrent())
    ensures d != c ==> Only(group, TorrentLevel(score, c)) == []
  {
    var keep := TorrentLevel(score, c);
    if d == c {
      OnlyAll(group, keep, IsTorrent());
    } else {
      OnlyNone(group, keep);
    }
  }

  lemma OrderedLevel(group: seq<Variant>, score: Measure, d: real)
    requires forall i | 0 <= i < |group| :: score(group[i]) == d
    ensures forall i | 0 <= i < |group| :: score(Ordered(group)[i]) == d
  {
    forall i | 0 <= i < |group| ensures score(Ordered(group)[i]) == d {
      OrderedPositions(group, i);
    }
  }

  lemma NoneBelow(rest: seq<Variant>, score: Measure, c: real)
    requires forall v | v in rest :: score(v) < c
    ensures Only(rest, TorrentLevel(score, c)) == [] && Only(Regrouped(rest, score), TorrentLevel(score, c)) == []
  {
    var keep := TorrentLevel(score, c);
    OnlyNone(rest, keep);
    forall i | 0 <= i < |rest| ensures !keep(Regrouped(rest, score)[i]) {
      RegroupedPositions(rest, score, i);
      assert rest[i] in rest;
    }
    OnlyNone(Regrouped(rest, score), keep);
  }

  /** The torrents of score `c` in a group of score `d` and what follows it. */
  lemma GroupLevel(group: seq<Variant>, rest: seq<Variant>, after: seq<Variant>, score: Measure, d: real, c: real)
    requires forall i | 0 <= i < |group| :: score(group[i]) == d
    ensures var keep := TorrentLevel(score, c);
            if d == c then
              && Only(group + rest, keep) == Only(group, IsTorrent()) + Only(rest, keep)
              && Only(Ordered(group) + after, keep) == Sort(Only(group, IsTorrent()), Swarm) + Only(after, keep)
            else
              Only(group + rest, keep) == Only(rest, keep) && Only(Ordered(group) + after, keep) == Only(after, keep)
  {
    var keep := TorrentLevel(score, c);
    OrderedLevel(group, score, d);
    OneLevel(group, score, d, c);
    OneLevel(Ordered(group), score, d, c);
    OnlyJoins(group, rest, keep);
    OnlyJoins(Ordered(group), after, keep);
    OrderedTorrents(group);
    assert [] + Only(rest, keep) == Only(rest, keep) && [] + Only(after, keep) == Only(after, keep);
  }

  lemma DescendingRest(s: seq<Variant>, score: Measure, n: nat)
    requires Descending(s, score) && n <= |s|
    ensures Descending(s[n..], score)
  {
  }

  lemma {:induction false} RegroupedSorts(s: seq<Variant>, score: Measure, c: real)
    requires Descending(s, score)
    ensures Only(Regrouped(s, score), TorrentLevel(score, c)) == Sort(Only(s, TorrentLevel(score, c)), Swarm)
    decreases |s|
  {
    if s != [] {
      var n := Run(s, score);
      var group, rest := s[..n], s[n..];
      RunExact(s, score);
      Unfold(s, score, group, rest);
      GroupLevel(group, rest, Regrouped(rest, score), score, score(s[0]), c);
      if score(s[0]) == c {
        RestIsLower(s, score, n);
        NoneBelow(rest, score, c);
        var torrents := Only(group, IsTorrent());
        assert torrents + [] == torrents && Sort(torrents, Swarm) + [] == Sort(torrents, Swarm);
      } else {
        DescendingRest(s, score, n);
        RegroupedSorts(rest, score, c);
      }
    }
  }

  lemma RestIsLower(s: seq<Variant>, score: Measure, n: nat)
    requires s != [] && Descending(s, score) && n == Run(s, score)
    ensures forall v | v in s[n..] :: score(v) < score(s[0])
  {
    RunExact(s, score);
    forall v | v in s[n..] ensures score(v) < score(s[0]) {
      var i :| 0 <= i < |s| - n && s[n..][i] == v;
      assert score(s[n]) < score(s[0]);
    }
  }

  /** The ranking: nothing lost or added, scores never rise, everything but
      torrents sits where the stable sort put it, and the torrents of each score
      are in stable order of seeders. */
  lemma RankExact(variants: seq<Variant>, facets: Facets, score: Measure)
    ensures multiset(Rank(variants, facets, score)) == multiset(Prepared(variants, facets))
    ensures Descending(Rank(variants, facets, score), score)
    ensures forall i | 0 <= i < |variants| ::
              var stable := Sort(Prepared(variants, facets), score)[i];
              stable.transport != Torrent ==> Rank(variants, facets, score)[i] == stable
    ensures forall c :: Only(Rank(variants, facets, score), TorrentLevel(score, c))
                        == Sort(Only(Prepared(variants, facets), TorrentLevel(score, c)), Swarm)
  {
    var prepared := Prepared(variants, facets);
    var sorted := Sort(prepared, score);
    SortDescends(prepared, score);
    RegroupedPermutes(sorted, score);
    forall i | 0 <= i < |sorted|
      ensures score(Regrouped(sorted, score)[i]) == score(sorted[i])
      ensures sorted[i].transport != Torrent ==> Regrouped(sorted, score)[i] == sorted[i]
    {
      RegroupedPositions(sorted, score, i);
    }
    forall c
      ensures Only(Rank(variants, facets, score), TorrentLevel(score, c))
           == Sort(Only(prepared, TorrentLevel(score, c)), Swarm)
    {
      RegroupedSorts(sorted, score, c);
      SortStable(prepared, score, c, TorrentLevel(score, c));
    }
  }

  /** Neighbouring torrents of one score: more seeders first, ties as they came. */
  lemma TorrentTiesAreStable(variants: seq<Variant>, facets: Facets, score: Measure, c: real, swarm: real)
    ensures Only(Only(Rank(variants, facets, score), TorrentLevel(score, c)), Level(Swarm, swarm))
         == Only(Only(Prepared(variants, facets), TorrentLevel(score, c)), Level(Swarm, swarm))
    ensures Descending(Only(Rank(variants, facets, score), TorrentLevel(score, c)), Swarm)
  {
    RankExact(variants, facets, score);
    var torrents := Only(Prepared(variants, facets), TorrentLevel(score, c));
    SortStable(torrents, Swarm, swarm, Level(Swarm, swarm));
    SortDescends(torrents, Swarm);
  }
}
