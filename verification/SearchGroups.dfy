/** What gathering and attaching group together: which publications share a work,
    in which order the works stand, and what each holds. */
module SearchGroups {
  import opened OrderedMaps
  import opened SearchSteps
  import opened SearchTheorems
  import opened Variants
  import opened Wrappers

  // ----- The first work that is the same -----

  ghost predicate FirstAt(r: Rules, works: seq<Work>, incoming: Work, j: nat) {
    j < |works| && r.same(works[j], incoming) && forall i | 0 <= i < j :: !r.same(works[i], incoming)
  }

  ghost predicate NoneSame(r: Rules, works: seq<Work>, incoming: Work) {
    forall x | x in works :: !r.same(x, incoming)
  }

  lemma {:induction false} FirstSameAt(r: Rules, works: seq<Work>, incoming: Work, j: nat)
    requires FirstAt(r, works, incoming, j)
    ensures FirstSame(r, works, incoming) == Some(works[j])
  {
    if j > 0 {
      assert !r.same(works[0], incoming);
      assert forall i | 0 <= i < j - 1 :: works[1..][i] == works[i + 1];
      FirstSameAt(r, works[1..], incoming, j - 1);
    }
  }

  lemma {:induction false} FirstOrNone(r: Rules, works: seq<Work>, incoming: Work) returns (j: nat)
    ensures j <= |works|
    ensures j < |works| ==> FirstAt(r, works, incoming, j)
    ensures j == |works| ==> NoneSame(r, works, incoming)
  {
    if works == [] || r.same(works[0], incoming) {
      j := 0;
    } else {
      var k := FirstOrNone(r, works[1..], incoming);
      j := k + 1;
      assert forall i | 0 < i < |works| :: works[i] == works[1..][i - 1];
    }
  }

  // ----- Positions in the list of works -----

  lemma {:induction false} SetAt(works: seq<Work>, w: Work, j: nat)
    requires j < |works| && works[j].id == w.id && forall i | 0 <= i < j :: works[i].id != w.id
    ensures Set(works, IdOf, w) == works[j := w]
  {
    if j > 0 {
      assert forall i | 0 <= i < j - 1 :: works[1..][i] == works[i + 1];
      SetAt(works[1..], w, j - 1);
      assert works[j := w] == [works[0]] + works[1..][j - 1 := w];
    }
  }

  lemma EarlierIds(works: seq<Work>, j: nat)
    requires Distinct(Keys(works, IdOf)) && j < |works|
    ensures forall i | 0 <= i < j :: works[i].id != works[j].id
  {
    var ks := Keys(works, IdOf);
    forall i | 0 <= i < j ensures works[i].id != works[j].id {
      assert ks[i] != ks[j];
    }
  }

  lemma {:induction false} SetFresh(works: seq<Work>, w: Work)
    requires w.id !in Keys(works, IdOf)
    ensures Set(works, IdOf, w) == works + [w]
  {
    if works != [] {
      assert Keys(works, IdOf)[0] == works[0].id;
      KeysHead(works, IdOf);
      SetFresh(works[1..], w);
      assert works == [works[0]] + works[1..];
      assert [works[0]] + (works[1..] + [w]) == works + [w];
    }
  }

  lemma {:induction false} DeleteAt(works: seq<Work>, j: nat)
    requires j < |works| && forall i | 0 <= i < j :: works[i].id != works[j].id
    ensures Delete(works, IdOf, works[j].id) == works[..j] + works[j + 1..]
  {
    if j > 0 {
      var tail := works[1..];
      assert tail[j - 1] == works[j] && forall i | 0 <= i < j - 1 :: tail[i] == works[i + 1];
      DeleteAt(tail, j - 1);
      assert works[..j] + works[j + 1..] == [works[0]] + (tail[..j - 1] + tail[j..]);
    }
  }

  // ----- One publication -----

  ghost predicate HoldsExactly(w: Work, a: Work, b: Work) {
    forall k :: HasKey(w, k) <==> HasKey(a, k) || HasKey(b, k)
  }

  /** A work as store() leaves one that was made of the given variants. */
  ghost predicate MadeOf(r: Rules, w: Work, variants: seq<Variant>) {
    w == Stored(r, w.(variants := variants))
  }

  /** A catalog page gives the work its id, title and category, and the later year
      if it has one; the aliases, identifiers and fields of both remain. */
  ghost predicate TakesPage(w: Work, x: Work, page: Work) {
    && w.id == page.id && w.title == page.title && w.category == page.category
    && w.year == (if page.year.Some? then page.year else x.year)
    && (forall a :: a in w.aliases <==> a in x.aliases || a in page.aliases) && Distinct(w.aliases)
    && w.identifiers == x.identifiers + page.identifiers && w.fields == x.fields + page.fields
  }

  ghost predicate NotesOfBoth(w: Work, x: Work, incoming: Work) {
    && w.notes.Some? && Distinct(w.notes.value)
    && forall n :: n in w.notes.value <==> n in Listed(x.notes) || n in Listed(incoming.notes)
  }

  /** The work that stands for x and the publication that joined it. */
  ghost predicate JoinOf(r: Rules, w: Work, x: Work, incoming: Work) {
    && HoldsExactly(w, x, incoming) && MadeOf(r, w, x.variants + incoming.variants)
    && NotesOfBoth(w, x, incoming)
    && (IsCatalog(incoming) ==> TakesPage(w, x, incoming))
    && (!IsCatalog(incoming) ==> w == x.(notes := w.notes, variants := w.variants))
  }

  lemma JoinedIsJoin(r: Rules, x: Work, incoming: Work)
    ensures JoinOf(r, Stored(r, Joined(x, incoming)), x, incoming)
  {
    var u := Joined(x, incoming);
    var w := Stored(r, u);
    assert w.(variants := u.variants) == u;
    forall k ensures HasKey(w, k) <==> HasKey(x, k) || HasKey(incoming, k) {
      StoredKeys(r, u, k);
      JoinKeys(x.variants, incoming.variants, k);
    }
  }

  /** The list after w took the place of works[j]: there, if it kept the id, and
      at the end, if it has a new one. */
  function Moved(works: seq<Work>, j: nat, w: Work): seq<Work>
    requires j < |works|
  {
    if w.id == works[j].id then works[j := w] else works[..j] + works[j + 1..] + [w]
  }

  /** A publication joins the first work that is the same: there are as many works
      as before, that one now stands for both, and all others are untouched. */
  lemma PlaceJoins(r: Rules, works: seq<Work>, incoming: Work, j: nat)
    requires Distinct(Keys(works, IdOf)) && incoming.id !in Keys(works, IdOf)
    requires FirstAt(r, works, incoming, j)
    ensures exists w :: JoinOf(r, w, works[j], incoming) && PlaceWork(r, works, incoming) == Moved(works, j, w)
  {
    FirstSameAt(r, works, incoming, j);
    var x := works[j];
    var w := Stored(r, Joined(x, incoming));
    JoinedIsJoin(r, x, incoming);
    assert Keys(works, IdOf)[j] == x.id;
    if IsCatalog(incoming) {
      MovedToEnd(works, j, w);
    } else {
      EarlierIds(works, j);
      SetAt(works, w, j);
    }
    assert PlaceWork(r, works, incoming) == Moved(works, j, w);
  }

  lemma MovedToEnd(works: seq<Work>, j: nat, w: Work)
    requires Distinct(Keys(works, IdOf)) && w.id !in Keys(works, IdOf) && j < |works|
    ensures Delete(Set(works, IdOf, w), IdOf, works[j].id) == works[..j] + works[j + 1..] + [w]
  {
    var longer := works + [w];
    SetFresh(works, w);
    EarlierIds(works, j);
    assert longer[j] == works[j] && forall i | 0 <= i < j :: longer[i] == works[i];
    DeleteAt(longer, j);
    assert longer[..j] == works[..j];
    assert longer[j + 1..] == works[j + 1..] + [w];
  }

  /** A publication that no work is the same as founds one of its own. */
  lemma PlaceFounds(r: Rules, works: seq<Work>, incoming: Work)
    requires incoming.id !in Keys(works, IdOf) && NoneSame(r, works, incoming)
    ensures exists w :: && PlaceWork(r, works, incoming) == works + [w]
                        && w == incoming.(variants := w.variants) && MadeOf(r, w, incoming.variants)
                        && HoldsExactly(w, incoming, incoming)
  {
    assert FirstSame(r, works, incoming).None?;
    var w := Stored(r, incoming);
    SetFresh(works, w);
    assert w.(variants := incoming.variants) == incoming;
    forall k ensures HasKey(w, k) <==> HasKey(incoming, k) { StoredKeys(r, incoming, k); }
    assert HoldsExactly(w, incoming, incoming);
  }

  // ----- All publications -----

  /** The id of the work that holds each publication, publication by publication. */
  function Homes(r: Rules, publications: seq<Work>): (h: seq<string>)
    ensures |h| == |publications|
    decreases |publications|
  {
    if publications == [] then []
    else
      var init, last := publications[..|publications| - 1], publications[|publications| - 1];
      var homes, x := Homes(r, init), FirstSame(r, Gather(r, init), last);
      if x.None? then homes + [last.id]
      else if IsCatalog(last) then Renamed(homes, x.value.id, last.id) + [last.id]
      else homes + [x.value.id]
  }

  function Renamed(homes: seq<string>, was: string, now: string): (h: seq<string>)
    ensures |h| == |homes|
  {
    seq(|homes|, i requires 0 <= i < |homes| => if homes[i] == was then now else homes[i])
  }

  ghost predicate LivesIn(publications: seq<Work>, homes: seq<string>, id: string, k: string)
    requires |homes| == |publications|
  {
    exists i :: 0 <= i < |homes| && homes[i] == id && HasKey(publications[i], k)
  }

  /** The works are the classes of the publications under their homes. */
  ghost predicate Partition(works: seq<Work>, publications: seq<Work>, homes: seq<string>)
    requires |homes| == |publications|
  {
    && Distinct(Keys(works, IdOf))
    && (forall i | 0 <= i < |homes| :: homes[i] in Keys(works, IdOf))
    && (forall w | w in works :: w.id in homes)
    && (forall w, k | w in works :: HasKey(w, k) <==> LivesIn(publications, homes, w.id, k))
  }

  lemma LivesInSnoc(publications: seq<Work>, homes: seq<string>, p: Work, home: string, id: string, k: string)
    requires |homes| == |publications|
    ensures LivesIn(publications + [p], homes + [home], id, k)
            <==> LivesIn(publications, homes, id, k) || (home == id && HasKey(p, k))
  {
    var ps, hs := publications + [p], homes + [home];
    if LivesIn(publications, homes, id, k) {
      var i :| 0 <= i < |homes| && homes[i] == id && HasKey(publications[i], k);
      assert hs[i] == id && HasKey(ps[i], k);
    }
    if home == id && HasKey(p, k) { assert hs[|homes|] == id && HasKey(ps[|homes|], k); }
  }

  lemma LivesInRenamed(publications: seq<Work>, homes: seq<string>, was: string, now: string, id: string, k: string)
    requires |homes| == |publications| && now !in homes
    ensures id == now ==> (LivesIn(publications, Renamed(homes, was, now), id, k) <==> LivesIn(publications, homes, was, k))
    ensures id != now && id != was ==>
              (LivesIn(publications, Renamed(homes, was, now), id, k) <==> LivesIn(publications, homes, id, k))
  {
    var hs := Renamed(homes, was, now);
    forall i | 0 <= i < |homes| ensures hs[i] == now <==> homes[i] == was {}
    if LivesIn(publications, homes, was, k) {
      var i :| 0 <= i < |homes| && homes[i] == was && HasKey(publications[i], k);
      assert hs[i] == now;
    }
    if id != was && id != now && LivesIn(publications, homes, id, k) {
      var i :| 0 <= i < |homes| && homes[i] == id && HasKey(publications[i], k);
      assert hs[i] == id;
    }
  }

  lemma MemberKeys(works: seq<Work>, w: Work)
    requires w in works
    ensures w.id in Keys(works, IdOf)
  {
    var i :| 0 <= i < |works| && works[i] == w;
    assert Keys(works, IdOf)[i] == w.id;
  }

  lemma FoundedPartition(works: seq<Work>, publications: seq<Work>, homes: seq<string>, p: Work, w: Work)
    requires |homes| == |publications| && Partition(works, publications, homes)
    requires p.id !in Keys(works, IdOf) && w.id == p.id && HoldsExactly(w, p, p)
    ensures Partition(works + [w], publications + [p], homes + [p.id])
  {
    var after, ps, hs := works + [w], publications + [p], homes + [p.id];
    assert Keys(after, IdOf) == Keys(works, IdOf) + [w.id];
    assert hs[|homes|] == p.id;
    forall v | v in after ensures v.id in hs {
      if v in works { assert v.id in homes; }
    }
    forall v, k | v in after ensures HasKey(v, k) <==> LivesIn(ps, hs, v.id, k) {
      LivesInSnoc(publications, homes, p, p.id, v.id, k);
      if v in works { MemberKeys(works, v); }
    }
  }

  lemma JoinedPartition(works: seq<Work>, publications: seq<Work>, homes: seq<string>, p: Work, j: nat, w: Work)
    requires |homes| == |publications| && Partition(works, publications, homes)
    requires j < |works| && w.id == works[j].id && HoldsExactly(w, works[j], p)
    ensures Partition(works[j := w], publications + [p], homes + [w.id])
  {
    var after, ps, hs := works[j := w], publications + [p], homes + [w.id];
    assert Keys(after, IdOf) == Keys(works, IdOf);
    assert Keys(after, IdOf)[j] == w.id;
    assert hs[|homes|] == w.id;
    forall i | 0 <= i < |after| ensures after[i].id in hs {
      assert works[i].id in homes;
    }
    forall v, k | v in after ensures HasKey(v, k) <==> LivesIn(ps, hs, v.id, k) {
      LivesInSnoc(publications, homes, p, w.id, v.id, k);
      var i :| 0 <= i < |after| && after[i] == v;
      assert works[i] in works && works[i].id == v.id;
      if i != j { assert Keys(works, IdOf)[i] != Keys(works, IdOf)[j]; }
    }
  }

  lemma TakenPartition(works: seq<Work>, publications: seq<Work>, homes: seq<string>, p: Work, j: nat, w: Work)
    requires |homes| == |publications| && Partition(works, publications, homes)
    requires j < |works| && w.id == p.id && p.id !in Keys(works, IdOf) && HoldsExactly(w, works[j], p)
    ensures Partition(Moved(works, j, w), publications + [p], Renamed(homes, works[j].id, w.id) + [w.id])
  {
    var x := works[j];
    assert Keys(works, IdOf)[j] == x.id;
    var renamed := Renamed(homes, x.id, w.id);
    var after, ps, hs := works[..j] + works[j + 1..] + [w], publications + [p], renamed + [w.id];
    TakenIds(works, homes, j, w);
    forall v, k | v in after ensures HasKey(v, k) <==> LivesIn(ps, hs, v.id, k) {
      LivesInSnoc(publications, renamed, p, w.id, v.id, k);
      LivesInRenamed(publications, homes, x.id, w.id, v.id, k);
      if v != w { RemainingWork(works, j, v); MemberKeys(works, v); }
    }
  }

  lemma RemainingWork(works: seq<Work>, j: nat, v: Work)
    requires Distinct(Keys(works, IdOf)) && j < |works| && v in works[..j] + works[j + 1..]
    ensures v in works && v.id != works[j].id
  {
    var i :| 0 <= i < |works| - 1 && (works[..j] + works[j + 1..])[i] == v;
    var m := if i < j then i else i + 1;
    assert works[m] == v;
    assert Keys(works, IdOf)[m] != Keys(works, IdOf)[j];
  }

  lemma TakenKeys(works: seq<Work>, j: nat, w: Work)
    requires Distinct(Keys(works, IdOf)) && j < |works| && w.id !in Keys(works, IdOf)
    ensures var after := works[..j] + works[j + 1..] + [w];
            && Distinct(Keys(after, IdOf))
            && forall x :: x in Keys(after, IdOf) <==> x == w.id || (x in Keys(works, IdOf) && x != works[j].id)
  {
    MovedToEnd(works, j, w);
    Replaced(works, w, works[j]);
  }

  lemma TakenIds(works: seq<Work>, homes: seq<string>, j: nat, w: Work)
    requires Distinct(Keys(works, IdOf)) && j < |works| && w.id !in Keys(works, IdOf)
    requires forall i | 0 <= i < |homes| :: homes[i] in Keys(works, IdOf)
    requires forall v | v in works :: v.id in homes
    ensures var after := works[..j] + works[j + 1..] + [w];
            var hs := Renamed(homes, works[j].id, w.id) + [w.id];
            && Distinct(Keys(after, IdOf))
            && (forall i | 0 <= i < |hs| :: hs[i] in Keys(after, IdOf))
            && (forall v | v in after :: v.id in hs)
            && w.id !in homes
  {
    var rest := works[..j] + works[j + 1..];
    var after := rest + [w];
    var hs := Renamed(homes, works[j].id, w.id) + [w.id];
    TakenKeys(works, j, w);
    assert hs[|homes|] == w.id && Keys(after, IdOf)[|rest|] == w.id;
    forall i | 0 <= i < |homes| ensures hs[i] in Keys(after, IdOf) {
      assert homes[i] in Keys(works, IdOf);
    }
    forall v | v in after ensures v.id in hs {
      if v != w {
        RemainingWork(works, j, v);
        var i :| 0 <= i < |homes| && homes[i] == v.id;
        assert hs[i] == v.id;
      }
    }
  }

  lemma LastIsFresh(publications: seq<Work>)
    requires publications != [] && Distinct(Keys(publications, IdOf))
    ensures var init, last := publications[..|publications| - 1], publications[|publications| - 1];
            publications == init + [last] && Distinct(Keys(init, IdOf)) && last.id !in Keys(init, IdOf)
  {
    var init, last := publications[..|publications| - 1], publications[|publications| - 1];
    assert Keys(publications, IdOf) == Keys(init, IdOf) + [last.id];
    DistinctInit(Keys(init, IdOf), last.id);
  }

  /** Gathering is a partition: each publication has one home, each work is the
      home of some, and holds exactly the keys of those that live in it. */
  lemma {:induction false} GatherPartition(r: Rules, publications: seq<Work>)
    requires Distinct(Keys(publications, IdOf))
    ensures Partition(Gather(r, publications), publications, Homes(r, publications))
    decreases |publications|
  {
    if publications != [] {
      var init, last := publications[..|publications| - 1], publications[|publications| - 1];
      LastIsFresh(publications);
      GatherPartition(r, init);
      GatherIds(r, init);
      PlacedPartition(r, Gather(r, init), init, Homes(r, init), last);
    }
  }

  lemma PlacedPartition(r: Rules, works: seq<Work>, init: seq<Work>, homes: seq<string>, last: Work)
    requires |homes| == |init| && Partition(works, init, homes) && last.id !in Keys(works, IdOf)
    ensures var x := FirstSame(r, works, last);
            Partition(PlaceWork(r, works, last), init + [last],
                      if x.None? then homes + [last.id]
                      else if IsCatalog(last) then Renamed(homes, x.value.id, last.id) + [last.id]
                      else homes + [x.value.id])
  {
    var j := FirstOrNone(r, works, last);
    if j == |works| {
      PlaceFounds(r, works, last);
      var w :| PlaceWork(r, works, last) == works + [w] && w == last.(variants := w.variants) && HoldsExactly(w, last, last);
      FoundedPartition(works, init, homes, last, w);
    } else {
      FirstSameAt(r, works, last, j);
      PlaceJoins(r, works, last, j);
      var w :| JoinOf(r, w, works[j], last) && PlaceWork(r, works, last) == Moved(works, j, w);
      if IsCatalog(last) {
        assert Keys(works, IdOf)[j] == works[j].id;
        TakenPartition(works, init, homes, last, j, w);
      } else {
        JoinedPartition(works, init, homes, last, j, w);
      }
    }
  }

  /** The publications that no earlier work was the same as. */
  function Founders(r: Rules, publications: seq<Work>): nat
    decreases |publications|
  {
    if publications == [] then 0
    else
      var init, last := publications[..|publications| - 1], publications[|publications| - 1];
      Founders(r, init) + if exists x | x in Gather(r, init) :: r.same(x, last) then 0 else 1
  }

  /** There is one work for each founder and no other. */
  lemma {:induction false} WorksAreFounded(r: Rules, publications: seq<Work>)
    requires Distinct(Keys(publications, IdOf))
    ensures |Gather(r, publications)| == Founders(r, publications)
    decreases |publications|
  {
    if publications != [] {
      var init, last := publications[..|publications| - 1], publications[|publications| - 1];
      LastIsFresh(publications);
      WorksAreFounded(r, init);
      GatherIds(r, init);
      var works := Gather(r, init);
      var j := FirstOrNone(r, works, last);
      if j == |works| {
        PlaceFounds(r, works, last);
      } else {
        assert works[j] in works && r.same(works[j], last);
        PlaceJoins(r, works, last, j);
      }
    }
  }

  /** One work for each founder, holding what lives in it. */
  ghost predicate Grouped(r: Rules, publications: seq<Work>, works: seq<Work>) {
    Partition(works, publications, Homes(r, publications)) && |works| == Founders(r, publications)
  }

  lemma GatherGroups(r: Rules, publications: seq<Work>)
    requires Distinct(Keys(publications, IdOf))
    ensures Grouped(r, publications, Gather(r, publications))
  {
    GatherPartition(r, publications);
    WorksAreFounded(r, publications);
  }

  // ----- Catalogs -----

  /** A match never crosses categories, unless the publication has none, nor known
      years; books and manga match by being the same work and by nothing else. */
  lemma MatchesAlike(r: Rules, p: Work, w: Work)
    requires Matches(r, p, w)
    ensures p.category in {"all", w.category}
    ensures p.year.Some? && w.year.Some? && p.year.value != w.year.value ==> p.year.value == 0 || w.year.value == 0
    ensures w.category in {"books", "manga"} ==> r.same(p, w)
  {
  }

  /** Exactly one of the catalogs matches, and it is c. */
  ghost predicate OnlyMatch(r: Rules, publication: Work, catalogs: seq<Work>, c: Work) {
    exists j :: 0 <= j < |catalogs| && catalogs[j] == c && Matches(r, publication, catalogs[j])
                && forall i | 0 <= i < |catalogs| && i != j :: !Matches(r, publication, catalogs[i])
  }

  ghost predicate NoMatch(r: Rules, publication: Work, catalogs: seq<Work>) {
    forall i | 0 <= i < |catalogs| :: !Matches(r, publication, catalogs[i])
  }

  lemma NoMatchHead(r: Rules, publication: Work, catalogs: seq<Work>)
    requires catalogs != []
    ensures NoMatch(r, publication, catalogs)
            <==> !Matches(r, publication, catalogs[0]) && NoMatch(r, publication, catalogs[1..])
  {
    assert forall i | 0 < i < |catalogs| :: catalogs[i] == catalogs[1..][i - 1];
  }

  lemma OnlyMatchHead(r: Rules, publication: Work, catalogs: seq<Work>, c: Work)
    requires catalogs != []
    ensures OnlyMatch(r, publication, catalogs, c) <==>
              if Matches(r, publication, catalogs[0]) then catalogs[0] == c && NoMatch(r, publication, catalogs[1..])
              else OnlyMatch(r, publication, catalogs[1..], c)
  {
    var tail := catalogs[1..];
    assert forall i | 0 < i < |catalogs| :: catalogs[i] == tail[i - 1];
    if OnlyMatch(r, publication, tail, c) && !Matches(r, publication, catalogs[0]) {
      var j :| 0 <= j < |tail| && tail[j] == c && Matches(r, publication, tail[j])
               && forall i | 0 <= i < |tail| && i != j :: !Matches(r, publication, tail[i]);
      assert catalogs[j + 1] == c;
    }
    if OnlyMatch(r, publication, catalogs, c) {
      var j :| 0 <= j < |catalogs| && catalogs[j] == c && Matches(r, publication, catalogs[j])
               && forall i | 0 <= i < |catalogs| && i != j :: !Matches(r, publication, catalogs[i]);
      if j > 0 { assert tail[j - 1] == c; }
    }
  }

  lemma {:induction false} CandidatesExact(r: Rules, publication: Work, catalogs: seq<Work>, c: Work)
    ensures Candidates(r, publication, catalogs) == [] <==> NoMatch(r, publication, catalogs)
    ensures Candidates(r, publication, catalogs) == [c] <==> OnlyMatch(r, publication, catalogs, c)
    decreases |catalogs|
  {
    if catalogs != [] {
      CandidatesExact(r, publication, catalogs[1..], c);
      NoMatchHead(r, publication, catalogs);
      OnlyMatchHead(r, publication, catalogs, c);
      if Matches(r, publication, catalogs[0]) {
        assert Candidates(r, publication, catalogs)[0] == catalogs[0];
      }
    }
  }

  /** A publication is reassigned to a catalog exactly when it consists of torrents
      or of full uploaded episodes and that catalog alone matches it. */
  lemma MatchingCatalogExact(r: Rules, publication: Work, catalogs: seq<Work>, c: Work)
    ensures MatchingCatalog(r, publication, catalogs) == Some(c)
            <==> (EpisodeUpload(publication) || TorrentsOnly(publication)) && OnlyMatch(r, publication, catalogs, c)
  {
    CandidatesExact(r, publication, catalogs, c);
    var cs := Candidates(r, publication, catalogs);
    if |cs| == 1 { assert cs == [cs[0]]; }
  }

  lemma PrependedId(w: Work, tail: seq<Work>)
    requires Distinct(Keys(tail, IdOf)) && forall v | v in tail :: v.id != w.id
    ensures Distinct(Keys([w] + tail, IdOf))
  {
    var ks := Keys([w] + tail, IdOf);
    assert ks == [w.id] + Keys(tail, IdOf);
    forall i | 0 <= i < |tail| ensures Keys(tail, IdOf)[i] != w.id {
      assert tail[i] in tail;
    }
  }

  lemma {:induction false} CatalogIds(works: seq<Work>)
    requires Distinct(Keys(works, IdOf))
    ensures Distinct(Keys(Catalogs(works), IdOf))
    decreases |works|
  {
    if works != [] {
      var tail := Catalogs(works[1..]);
      KeysTail(works);
      CatalogIds(works[1..]);
      if IsCatalog(works[0]) {
        PrependedId(works[0], tail);
        assert Catalogs(works) == [works[0]] + tail;
      } else {
        assert Catalogs(works) == tail;
      }
    }
  }

  /** c is the one catalog page among the works that matches the publication. */
  ghost predicate SoleCatalog(r: Rules, works: seq<Work>, publication: Work, c: Work) {
    c in works && forall w | w in works :: IsCatalog(w) && Matches(r, publication, w) <==> w == c
  }

  ghost predicate Reassigned(r: Rules, works: seq<Work>, p: Work, c: Work) {
    (EpisodeUpload(p) || TorrentsOnly(p)) && SoleCatalog(r, works, p, c)
  }

  lemma OnlyIsSole(r: Rules, works: seq<Work>, p: Work, c: Work)
    requires OnlyMatch(r, p, Catalogs(works), c)
    ensures SoleCatalog(r, works, p, c)
  {
    var catalogs := Catalogs(works);
    var j :| 0 <= j < |catalogs| && catalogs[j] == c && Matches(r, p, catalogs[j])
             && forall i | 0 <= i < |catalogs| && i != j :: !Matches(r, p, catalogs[i]);
    assert c in catalogs;
    forall w | w in works && IsCatalog(w) && Matches(r, p, w) ensures w == c {
      assert w in catalogs;
      var i :| 0 <= i < |catalogs| && catalogs[i] == w;
    }
  }

  lemma SoleIsOnly(r: Rules, works: seq<Work>, p: Work, c: Work)
    requires Distinct(Keys(works, IdOf)) && SoleCatalog(r, works, p, c)
    ensures OnlyMatch(r, p, Catalogs(works), c)
  {
    var catalogs := Catalogs(works);
    CatalogIds(works);
    assert c in catalogs;
    var j :| 0 <= j < |catalogs| && catalogs[j] == c;
    forall i | 0 <= i < |catalogs| && i != j ensures !Matches(r, p, catalogs[i]) {
      assert catalogs[i] in catalogs;
      assert Keys(catalogs, IdOf)[i] != Keys(catalogs, IdOf)[j];
    }
  }

  /** The rule of matchingCatalog() for a list of works with distinct ids: their
      own order and the order of the catalogs do not matter. */
  lemma ReassignedExact(r: Rules, works: seq<Work>, p: Work, c: Work)
    requires Distinct(Keys(works, IdOf))
    ensures MatchingCatalog(r, p, Catalogs(works)) == Some(c) <==> Reassigned(r, works, p, c)
  {
    MatchingCatalogExact(r, p, Catalogs(works), c);
    if OnlyMatch(r, p, Catalogs(works), c) { OnlyIsSole(r, works, p, c); }
    if SoleCatalog(r, works, p, c) { SoleIsOnly(r, works, p, c); }
  }

  /** The id of the catalog a work is moved to, if it is. */
  function MovesTo(r: Rules, catalogs: seq<Work>, p: Work): Option<string> {
    var c := MatchingCatalog(r, p, catalogs);
    if c.None? || c.value.id == p.id then None else Some(c.value.id)
  }

  ghost predicate Leaves(r: Rules, catalogs: seq<Work>, pending: seq<Work>, id: string) {
    exists p | p in pending :: p.id == id && MovesTo(r, catalogs, p).Some?
  }

  ghost predicate Brings(r: Rules, catalogs: seq<Work>, pending: seq<Work>, id: string, k: string) {
    exists p | p in pending :: MovesTo(r, catalogs, p) == Some(id) && HasKey(p, k)
  }

  ghost predicate HoldsAt(works: seq<Work>, id: string, k: string) {
    Get(works, IdOf, id).Some? && HasKey(Get(works, IdOf, id).value, k)
  }

  /** One work with its turn: it stays, or its id goes and its keys join those of
      its catalog; every other id holds what it held. */
  lemma AttachMoves(r: Rules, works: seq<Work>, catalogs: seq<Work>, pending: seq<Work>, id: string, k: string)
    requires pending != [] && Linked(works, catalogs, pending) && Grown(works, pending)
    ensures var p := pending[0];
            var after := Attach(r, works, catalogs, p);
            && (id in Keys(after, IdOf) <==> id in Keys(works, IdOf) && !(p.id == id && MovesTo(r, catalogs, p).Some?))
            && (id in Keys(after, IdOf) ==>
                  (HoldsAt(after, id, k) <==> HoldsAt(works, id, k) || (MovesTo(r, catalogs, p) == Some(id) && HasKey(p, k))))
  {
    var p := pending[0];
    AttachIds(r, works, catalogs, p);
    if MovesTo(r, catalogs, p).Some? {
      NotBoth(p);
      var catalog := MatchingCatalog(r, p, catalogs).value;
      var target := Get(works, IdOf, catalog.id).value;
      var w := target.(notes := Some(MergeNotes(target.notes, p.notes)),
                       variants := target.variants + Refitted(r, p, catalog));
      JoinKeys(target.variants, Refitted(r, p, catalog), k);
      StoredKeys(r, w, k);
      DeleteGet(works, IdOf, p.id, id);
      SetGet(Delete(works, IdOf, p.id), IdOf, Stored(r, w), id);
    }
  }

  /** The catalog's work stays what its page says, with the notes of both; every
      other work that stays is the same. */
  lemma AttachKeepsPage(r: Rules, works: seq<Work>, catalogs: seq<Work>, pending: seq<Work>, id: string)
    requires pending != [] && Linked(works, catalogs, pending) && Grown(works, pending)
    requires id in Keys(Attach(r, works, catalogs, pending[0]), IdOf) && id in Keys(works, IdOf)
    ensures var p := pending[0];
            var was := Get(works, IdOf, id).value;
            var now := Get(Attach(r, works, catalogs, p), IdOf, id).value;
            && (MovesTo(r, catalogs, p) != Some(id) ==> now == was)
            && (MovesTo(r, catalogs, p) == Some(id) ==>
                  && now == was.(notes := now.notes, variants := now.variants) && NotesOfBoth(now, was, p)
                  && MadeOf(r, now, was.variants + Refitted(r, p, MatchingCatalog(r, p, catalogs).value)))
  {
    var p := pending[0];
    if MovesTo(r, catalogs, p).Some? {
      NotBoth(p);
      var catalog := MatchingCatalog(r, p, catalogs).value;
      var target := Get(works, IdOf, catalog.id).value;
      var w := target.(notes := Some(MergeNotes(target.notes, p.notes)),
                       variants := target.variants + Refitted(r, p, catalog));
      AttachIds(r, works, catalogs, p);
      DeleteGet(works, IdOf, p.id, id);
      SetGet(Delete(works, IdOf, p.id), IdOf, Stored(r, w), id);
      assert Stored(r, w).(variants := w.variants) == w;
    }
  }

  /** A reassigned publication keeps its variants; only the episode and season of a
      torrent of an anime are read anew. */
  lemma RefittedKeeps(r: Rules, p: Work, catalog: Work, i: nat)
    requires i < |p.variants|
    ensures var was, now := p.variants[i], Refitted(r, p, catalog)[i];
            && now == was.(episode := now.episode, season := now.season)
            && (catalog.category != "anime" || was.transport != Torrent || r.refit(was, catalog).None? ==> now == was)
            && (catalog.category == "anime" && was.transport == Torrent && r.refit(was, catalog).Some? ==>
                  && now.episode == Some(r.refit(was, catalog).value.0)
                  && now.season == Newer(was.season, r.refit(was, catalog).value.1))
  {
  }

  /** After every work had its turn. */
  lemma {:induction false} AttachedExact(r: Rules, works: seq<Work>, catalogs: seq<Work>, pending: seq<Work>, id: string, k: string)
    requires Linked(works, catalogs, pending) && Grown(works, pending)
    ensures var after := AttachAll(r, works, catalogs, pending);
            && (id in Keys(after, IdOf) <==> id in Keys(works, IdOf) && !Leaves(r, catalogs, pending, id))
            && (id in Keys(after, IdOf) ==>
                  (HoldsAt(after, id, k) <==> HoldsAt(works, id, k) || Brings(r, catalogs, pending, id, k)))
    decreases |pending|
  {
    if pending != [] {
      AttachLinked(r, works, catalogs, pending);
      AttachHas(r, works, catalogs, pending, k);
      AttachMoves(r, works, catalogs, pending, id, k);
      AttachedExact(r, Attach(r, works, catalogs, pending[0]), catalogs, pending[1..], id, k);
      assert forall p :: p in pending <==> p == pending[0] || p in pending[1..];
      assert Leaves(r, catalogs, pending, id) <==>
             Leaves(r, catalogs, pending[1..], id) || (pending[0].id == id && MovesTo(r, catalogs, pending[0]).Some?);
      assert Brings(r, catalogs, pending, id, k) <==>
             Brings(r, catalogs, pending[1..], id, k) || (MovesTo(r, catalogs, pending[0]) == Some(id) && HasKey(pending[0], k));
    }
  }

  /** What a search shows: the gathered works without those that are reassigned,
      each with its own keys and those of the works reassigned to it. */
  lemma RebuildExact(r: Rules, publications: seq<Work>, w: Work, k: string)
    requires Distinct(Keys(publications, IdOf)) && w in Gather(r, publications)
    ensures var works := Gather(r, publications);
            var shown := Rebuild(r, publications);
            && (w.id in Keys(shown, IdOf) <==> forall c :: !Reassigned(r, works, w, c))
            && (w.id in Keys(shown, IdOf) ==>
                  (HoldsAt(shown, w.id, k) <==> HasKey(w, k) || exists p | p in works :: Reassigned(r, works, p, w) && HasKey(p, k)))
  {
    var works := Gather(r, publications);
    GatherIds(r, publications);
    Snapshot(works);
    forall p | p in works ensures Get(works, IdOf, p.id) == Some(p) { GetMember(works, p); }
    MemberKeys(works, w);
    AttachedExact(r, works, Catalogs(works), works, w.id, k);
    forall p | p in works
      ensures MovesTo(r, Catalogs(works), p).None? <==> forall c :: !Reassigned(r, works, p, c)
      ensures MovesTo(r, Catalogs(works), p) == Some(w.id) <==> Reassigned(r, works, p, w)
    {
      MovesExact(r, works, p, w);
    }
  }

  lemma MovesExact(r: Rules, works: seq<Work>, p: Work, w: Work)
    requires Distinct(Keys(works, IdOf)) && p in works && w in works
    ensures MovesTo(r, Catalogs(works), p).None? <==> forall c :: !Reassigned(r, works, p, c)
    ensures MovesTo(r, Catalogs(works), p) == Some(w.id) <==> Reassigned(r, works, p, w)
  {
    var m := MatchingCatalog(r, p, Catalogs(works));
    ReassignedExact(r, works, p, w);
    if m.Some? {
      ReassignedExact(r, works, p, m.value);
      MovedElsewhere(r, works, p, m.value);
      if m.value.id == w.id {
        GetMember(works, w);
        GetMember(works, m.value);
      }
    } else {
      forall c ensures !Reassigned(r, works, p, c) { ReassignedExact(r, works, p, c); }
    }
  }

  lemma MovedElsewhere(r: Rules, works: seq<Work>, p: Work, c: Work)
    requires Distinct(Keys(works, IdOf)) && p in works && Reassigned(r, works, p, c)
    ensures p.id != c.id
  {
    NotBoth(p);
    GetMember(works, p);
    GetMember(works, c);
  }

  /** The works after a rebuild are among the gathered ones. */
  lemma RebuildIds(r: Rules, publications: seq<Work>, id: string)
    requires Distinct(Keys(publications, IdOf)) && id in Keys(Rebuild(r, publications), IdOf)
    ensures id in Keys(Gather(r, publications), IdOf)
  {
    var works := Gather(r, publications);
    GatherIds(r, publications);
    Snapshot(works);
    forall p | p in works ensures Get(works, IdOf, p.id) == Some(p) { GetMember(works, p); }
    AttachedExact(r, works, Catalogs(works), works, id, "");
  }

  /** The publications of one source page stay together: some shown work holds all
      keys of a publication. */
  lemma StaysTogether(r: Rules, publications: seq<Work>, i: nat)
    requires Distinct(Keys(publications, IdOf)) && i < |publications|
    ensures exists w | w in Rebuild(r, publications) :: forall k :: HasKey(publications[i], k) ==> HasKey(w, k)
  {
    var works, homes := Gather(r, publications), Homes(r, publications);
    var shown := Rebuild(r, publications);
    GatherPartition(r, publications);
    var x := Get(works, IdOf, homes[i]).value;
    var home := if exists c :: Reassigned(r, works, x, c) then (var c :| Reassigned(r, works, x, c); c) else x;
    if home != x { NotBoth(x); }
    StaysIn(r, publications, i, x, home);
    assert Get(shown, IdOf, home.id).value in shown;
  }

  lemma StaysIn(r: Rules, publications: seq<Work>, i: nat, x: Work, home: Work)
    requires Distinct(Keys(publications, IdOf)) && i < |publications|
    requires x in Gather(r, publications) && x.id == Homes(r, publications)[i]
    requires if home == x then forall c :: !Reassigned(r, Gather(r, publications), x, c)
             else Reassigned(r, Gather(r, publications), x, home)
    ensures var shown := Rebuild(r, publications);
            home.id in Keys(shown, IdOf) && forall k :: HasKey(publications[i], k) ==> HoldsAt(shown, home.id, k)
  {
    var works, homes := Gather(r, publications), Homes(r, publications);
    GatherPartition(r, publications);
    forall c ensures home != x ==> !Reassigned(r, works, home, c) {
      if Reassigned(r, works, home, c) { NotBoth(home); }
    }
    forall k | HasKey(publications[i], k) ensures HoldsAt(Rebuild(r, publications), home.id, k) {
      assert LivesIn(publications, homes, x.id, k);
      RebuildExact(r, publications, home, k);
    }
    RebuildExact(r, publications, home, "");
  }

  // ----- Queries and acceptance -----

  /** A publication becomes known exactly when it has an id, a title and variants,
      its year suits the first query and some query of the search matches it; the
      others of a search stay as they are. */
  lemma AcceptanceExact(r: Rules, a: Aggregate, w: Work, id: string)
    requires a.queries != [] && Distinct(Keys(a.publications, IdOf))
    ensures var after := Perform(r, a, AddWork(w));
            && after.queries == a.queries
            && (id in Keys(after.publications, IdOf) <==>
                  id in Keys(a.publications, IdOf)
                  || (id == w.id && id != "" && |w.title| > 0 && |w.variants| > 0 && r.yearMatches(a.queries[0], w)
                      && exists i :: 0 <= i < |a.queries| && r.matches(a.queries[i], w)))
            && (id != w.id ==> Get(after.publications, IdOf, id) == Get(a.publications, IdOf, id))
  {
    if Accepts(r, a.queries, w) {
      PublishedHas(a.publications, w, "");
      SetKeys(a.publications, IdOf, Publication(a.publications, w));
      SetGet(a.publications, IdOf, Publication(a.publications, w), id);
    }
  }

  ghost predicate Represented(r: Rules, queries: seq<string>, q: string) {
    exists i :: 0 <= i < |queries| && r.identity(queries[i]) == r.identity(q)
  }

  /** The queries of a search: the first one it was made with, then those that were
      added and have words, each identity once. */
  ghost predicate QueriesOk(r: Rules, query: string, calls: seq<Call>, queries: seq<string>) {
    && queries != [] && queries[0] == query
    && (forall i, j | 0 <= i < j < |queries| :: r.identity(queries[i]) != r.identity(queries[j]))
    && (forall i | 1 <= i < |queries| :: r.hasWords(queries[i]) && AddQuery(queries[i]) in calls)
    && (forall c | c in calls && c.AddQuery? && r.hasWords(c.query) :: Represented(r, queries, c.query))
  }

  lemma {:induction false} QueriesExact(r: Rules, query: string, calls: seq<Call>)
    ensures QueriesOk(r, query, calls, PerformAll(r, Aggregate([query], [], []), calls).queries)
    decreases |calls|
  {
    if calls != [] {
      var init, last := calls[..|calls| - 1], calls[|calls| - 1];
      QueriesExact(r, query, init);
      assert calls == init + [last];
      var before := PerformAll(r, Aggregate([query], [], []), init);
      QueriesStep(r, query, init, last, before.queries, Perform(r, before, last).queries);
    }
  }

  lemma QueriesStep(r: Rules, query: string, init: seq<Call>, last: Call, before: seq<string>, after: seq<string>)
    requires QueriesOk(r, query, init, before)
    requires after == if last.AddQuery? && WantsQuery(r, before, last.query) then before + [last.query] else before
    ensures QueriesOk(r, query, init + [last], after)
  {
    forall c | c in init + [last] && c.AddQuery? && r.hasWords(c.query) ensures Represented(r, after, c.query) {
      if c in init {
        assert Represented(r, before, c.query);
        var i :| 0 <= i < |before| && r.identity(before[i]) == r.identity(c.query);
        assert after[i] == before[i];
      } else if WantsQuery(r, before, last.query) {
        assert after[|before|] == c.query;
      } else {
        var q :| q in before && r.identity(q) == r.identity(c.query);
        var i :| 0 <= i < |before| && before[i] == q;
      }
    }
  }

  /** A publication that comes again brings its title and category, and adds its
      aliases, identifiers and notes. */
  lemma PublicationPage(publications: seq<Work>, incoming: Work)
    ensures var p, was := Publication(publications, incoming), Get(publications, IdOf, incoming.id);
            && Get(Published(publications, incoming), IdOf, incoming.id) == Some(p)
            && (was.Some? ==> TakesPage(p, was.value, incoming) && NotesOfBoth(p, was.value, incoming))
            && (was.None? ==> p == incoming.(aliases := p.aliases, notes := p.notes, variants := p.variants)
                              && (forall a :: a in p.aliases <==> a in incoming.aliases))
  {
    SetGet(publications, IdOf, Publication(publications, incoming), incoming.id);
  }

  /** All that the accepted calls of a run sent under one id, in order. */
  function Sent(r: Rules, a: Aggregate, calls: seq<Call>, id: string): seq<Variant>
    requires a.queries != [] && Distinct(Keys(a.publications, IdOf))
    decreases |calls|
  {
    if calls == [] then []
    else
      var init, last := calls[..|calls| - 1], calls[|calls| - 1];
      Sent(r, a, init, id)
      + if last.AddWork? && last.incoming.id == id && Accepts(r, PerformAll(r, a, init).queries, last.incoming)
        then last.incoming.variants else []
  }

  /** A publication is the merge of everything that was sent for it, as if it had
      come at once. */
  lemma {:induction false} PublicationsExact(r: Rules, query: string, calls: seq<Call>, id: string)
    ensures var sent := Sent(r, Aggregate([query], [], []), calls, id);
            KnownAs(PerformAll(r, Aggregate([query], [], []), calls).publications, id, sent)
    decreases |calls|
  {
    if calls != [] {
      var init, last := calls[..|calls| - 1], calls[|calls| - 1];
      var start := Aggregate([query], [], []);
      PublicationsExact(r, query, init, id);
      SentStep(r, PerformAll(r, start, init), last, id, Sent(r, start, init, id));
    }
  }

  lemma SentStep(r: Rules, a: Aggregate, c: Call, id: string, sent: seq<Variant>)
    requires a.queries != [] && Distinct(Keys(a.publications, IdOf)) && KnownAs(a.publications, id, sent)
    ensures KnownAs(Perform(r, a, c).publications, id,
                    sent + if c.AddWork? && c.incoming.id == id && Accepts(r, a.queries, c.incoming)
                           then c.incoming.variants else [])
  {
    assert sent + [] == sent;
    if c.AddWork? && Accepts(r, a.queries, c.incoming) {
      RefreshedExact(a.publications, c.incoming, id, sent);
    }
  }

  ghost predicate KnownAs(publications: seq<Work>, id: string, sent: seq<Variant>) {
    var known := Get(publications, IdOf, id);
    (known.Some? <==> sent != []) && (known.Some? ==> known.value.variants == Merge(sent))
  }

  lemma RefreshedExact(publications: seq<Work>, incoming: Work, id: string, sent: seq<Variant>)
    requires KnownAs(publications, id, sent) && incoming.variants != []
    ensures KnownAs(Published(publications, incoming), id, sent + if incoming.id == id then incoming.variants else [])
  {
    SetGet(publications, IdOf, Publication(publications, incoming), id);
    if incoming.id == id {
      MergeIncrementally(sent, incoming.variants);
      if sent == [] { assert [] + incoming.variants == incoming.variants == sent + incoming.variants; }
    } else {
      assert sent + [] == sent;
    }
  }
}
