/** What every rebuild keeps: no publication is lost, the event stream
    reproduces the works, and replacements really hold what was removed. */
module SearchTheorems {
  import opened OrderedMaps
  import opened Ranking
  import opened SearchSteps
  import opened Variants
  import opened Wrappers

  predicate HasKey(w: Work, k: string) { k in Keys(w.variants, KeyOf) }

  predicate Has(works: seq<Work>, k: string) {
    exists w | w in works :: HasKey(w, k)
  }

  // ----- Conservation of publications -----

  lemma {:induction false} OrderIrrelevant(a: seq<Variant>, b: seq<Variant>, k: string)
    requires multiset(a) == multiset(b)
    ensures k in Keys(a, KeyOf) ==> k in Keys(b, KeyOf)
  {
    if k in Keys(a, KeyOf) {
      var i :| 0 <= i < |a| && Keys(a, KeyOf)[i] == k;
      assert a[i] in multiset(a);
      assert a[i] in b;
      var j :| 0 <= j < |b| && b[j] == a[i];
      assert Keys(b, KeyOf)[j] == k;
    }
  }

  /** Merging and ranking neither lose nor invent a publication. */
  lemma StoredKeys(r: Rules, w: Work, k: string)
    ensures HasKey(Stored(r, w), k) <==> HasKey(w, k)
  {
    var merged := Merge(w.variants);
    MergeKeys(w.variants);
    var prepared := Prepared(merged, r.facets(w));
    RankExact(merged, r.facets(w), r.score);
    OrderIrrelevant(Rank(merged, r.facets(w), r.score), prepared, k);
    OrderIrrelevant(prepared, Rank(merged, r.facets(w), r.score), k);
  }

  lemma JoinKeys(a: seq<Variant>, b: seq<Variant>, k: string)
    ensures k in Keys(a + b, KeyOf) <==> k in Keys(a, KeyOf) || k in Keys(b, KeyOf)
  {
    assert Keys(a + b, KeyOf) == Keys(a, KeyOf) + Keys(b, KeyOf);
  }

  lemma HasById(works: seq<Work>, k: string) returns (id: string)
    requires Distinct(Keys(works, IdOf)) && Has(works, k)
    ensures Get(works, IdOf, id).Some? && HasKey(Get(works, IdOf, id).value, k)
  {
    var w :| w in works && HasKey(w, k);
    GetMember(works, w);
    id := w.id;
  }

  lemma HasFrom(works: seq<Work>, id: string, k: string)
    requires Get(works, IdOf, id).Some? && HasKey(Get(works, IdOf, id).value, k)
    ensures Has(works, k)
  {
  }

  lemma SetHas(works: seq<Work>, v: Work, k: string)
    requires Distinct(Keys(works, IdOf))
    requires Get(works, IdOf, v.id).Some? && HasKey(Get(works, IdOf, v.id).value, k) ==> HasKey(v, k)
    ensures Has(Set(works, IdOf, v), k) <==> Has(works, k) || HasKey(v, k)
  {
    SetGet(works, IdOf, v, v.id);
    if HasKey(v, k) {
      HasFrom(Set(works, IdOf, v), v.id, k);
    } else if Has(works, k) {
      var id := HasById(works, k);
      SetGet(works, IdOf, v, id);
      HasFrom(Set(works, IdOf, v), id, k);
    } else if Has(Set(works, IdOf, v), k) {
      SetKeys(works, IdOf, v);
      var id := HasById(Set(works, IdOf, v), k);
      SetGet(works, IdOf, v, id);
      HasFrom(works, id, k);
    }
  }

  lemma DeleteHas(works: seq<Work>, id: string, k: string)
    requires Distinct(Keys(works, IdOf))
    ensures Has(Delete(works, IdOf, id), k) ==> Has(works, k)
    ensures Has(works, k) ==>
              Has(Delete(works, IdOf, id), k)
              || (Get(works, IdOf, id).Some? && HasKey(Get(works, IdOf, id).value, k))
  {
    var after := Delete(works, IdOf, id);
    DeleteKeys(works, IdOf, id);
    if Has(works, k) {
      var x := HasById(works, k);
      DeleteGet(works, IdOf, id, x);
      if x != id { assert Get(after, IdOf, x).value in after; }
    }
    if Has(after, k) {
      var x := HasById(after, k);
      DeleteGet(works, IdOf, id, x);
      assert Get(works, IdOf, x).value in works;
    }
  }

  /** A work is swapped for one that holds at least as much, under any id that
      is free or its own. */
  lemma SwapHas(works: seq<Work>, target: Work, stored: Work, k: string)
    requires Distinct(Keys(works, IdOf)) && target in works
    requires HasKey(target, k) ==> HasKey(stored, k)
    requires stored.id == target.id || stored.id !in Keys(works, IdOf)
    ensures Has(Set(works, IdOf, stored), k) <==> Has(works, k) || HasKey(stored, k)
    ensures stored.id != target.id ==>
              (Has(Delete(Set(works, IdOf, stored), IdOf, target.id), k) <==> Has(works, k) || HasKey(stored, k))
  {
    GetMember(works, target);
    SetHas(works, stored, k);
    if stored.id != target.id { SwapAway(works, target, stored, k); }
  }

  lemma SwapAway(works: seq<Work>, target: Work, stored: Work, k: string)
    requires Distinct(Keys(works, IdOf)) && Get(works, IdOf, target.id) == Some(target)
    requires HasKey(target, k) ==> HasKey(stored, k)
    requires stored.id != target.id
    ensures Has(Delete(Set(works, IdOf, stored), IdOf, target.id), k) <==> Has(Set(works, IdOf, stored), k)
  {
    SetKeys(works, IdOf, stored);
    SetGet(works, IdOf, stored, target.id);
    SetGet(works, IdOf, stored, stored.id);
    DropHas(Set(works, IdOf, stored), target, stored, k);
  }

  /** A work may go when another one holds what it holds. */
  lemma DropHas(works: seq<Work>, target: Work, stored: Work, k: string)
    requires Distinct(Keys(works, IdOf)) && stored.id != target.id
    requires Get(works, IdOf, target.id) == Some(target) && Get(works, IdOf, stored.id) == Some(stored)
    requires HasKey(target, k) ==> HasKey(stored, k)
    ensures Has(Delete(works, IdOf, target.id), k) <==> Has(works, k)
  {
    var after := Delete(works, IdOf, target.id);
    DeleteHas(works, target.id, k);
    DeleteGet(works, IdOf, target.id, stored.id);
    assert Get(after, IdOf, stored.id) == Some(stored);
    assert stored in after;
  }

  lemma PlaceHas(r: Rules, works: seq<Work>, incoming: Work, k: string)
    requires Distinct(Keys(works, IdOf)) && incoming.id !in Keys(works, IdOf)
    ensures Has(PlaceWork(r, works, incoming), k) <==> Has(works, k) || HasKey(incoming, k)
  {
    var target := FirstSame(r, works, incoming);
    if target.None? {
      StoredKeys(r, incoming, k);
      SetHas(works, Stored(r, incoming), k);
    } else {
      var w := Joined(target.value, incoming);
      StoredKeys(r, w, k);
      JoinKeys(target.value.variants, incoming.variants, k);
      SwapHas(works, target.value, Stored(r, w), k);
      if HasKey(target.value, k) { assert Has(works, k); }
    }
  }

  lemma {:induction false} GatherHas(r: Rules, publications: seq<Work>, k: string)
    requires Distinct(Keys(publications, IdOf))
    ensures Has(Gather(r, publications), k) <==> Has(publications, k)
    decreases |publications|
  {
    if publications != [] {
      var init, last := publications[..|publications| - 1], publications[|publications| - 1];
      assert publications == init + [last];
      assert Keys(publications, IdOf) == Keys(init, IdOf) + [last.id];
      DistinctInit(Keys(init, IdOf), last.id);
      GatherHas(r, init, k);
      GatherIds(r, init);
      PlaceHas(r, Gather(r, init), last, k);
    }
  }

  lemma DistinctInit(s: seq<string>, x: string)
    requires Distinct(s + [x])
    ensures Distinct(s) && x !in s
  {
    forall i, j | 0 <= i < j < |s| ensures s[i] != s[j] {
      assert (s + [x])[i] != (s + [x])[j];
    }
    forall i | 0 <= i < |s| ensures s[i] != x {
      assert (s + [x])[i] != (s + [x])[|s|];
    }
  }

  /** The work that is about to be attached still is what the snapshot showed,
      apart from what has been added to it. */
  ghost predicate Grown(works: seq<Work>, pending: seq<Work>) {
    forall p | p in pending ::
      Get(works, IdOf, p.id).Some?
      && (!IsCatalog(p) ==> Get(works, IdOf, p.id) == Some(p))
  }

  lemma AttachHas(r: Rules, works: seq<Work>, catalogs: seq<Work>, pending: seq<Work>, k: string)
    requires pending != [] && Linked(works, catalogs, pending) && Grown(works, pending)
    ensures Has(Attach(r, works, catalogs, pending[0]), k) <==> Has(works, k)
    ensures Grown(Attach(r, works, catalogs, pending[0]), pending[1..])
  {
    var p := pending[0];
    var catalog := MatchingCatalog(r, p, catalogs);
    if catalog.Some? && catalog.value.id != p.id {
      NotBoth(p);
      var target := Get(works, IdOf, catalog.value.id).value;
      var w := target.(notes := Some(MergeNotes(target.notes, p.notes)),
                       variants := target.variants + Refitted(r, p, catalog.value));
      JoinKeys(target.variants, Refitted(r, p, catalog.value), k);
      assert w.id == target.id == catalog.value.id;
      Attached(r, works, p, target, w, k);
      AttachGrown(r, works, catalogs, pending, w);
    }
  }

  lemma AttachGrown(r: Rules, works: seq<Work>, catalogs: seq<Work>, pending: seq<Work>, w: Work)
    requires pending != [] && Linked(works, catalogs, pending) && Grown(works, pending)
    requires exists c | c in catalogs :: c.id == w.id
    ensures Grown(Store(r, Delete(works, IdOf, pending[0].id), w), pending[1..])
  {
    var p := pending[0];
    var rest := Delete(works, IdOf, p.id);
    forall q | q in pending[1..]
      ensures Get(Store(r, rest, w), IdOf, q.id).Some?
      ensures !IsCatalog(q) ==> Get(Store(r, rest, w), IdOf, q.id) == Some(q)
    {
      LaterIdDiffers(pending, q);
      DeleteGet(works, IdOf, p.id, q.id);
      SetGet(rest, IdOf, Stored(r, w), q.id);
    }
  }

  lemma LaterIdDiffers(pending: seq<Work>, q: Work)
    requires pending != [] && Distinct(Keys(pending, IdOf)) && q in pending[1..]
    ensures q.id != pending[0].id && q in pending
  {
    var j :| 0 <= j < |pending| - 1 && pending[1..][j] == q;
    assert Keys(pending, IdOf)[0] != Keys(pending, IdOf)[j + 1];
    assert pending[j + 1] == q;
  }

  lemma Attached(r: Rules, works: seq<Work>, p: Work, target: Work, w: Work, k: string)
    requires Distinct(Keys(works, IdOf)) && Get(works, IdOf, p.id) == Some(p)
    requires Get(works, IdOf, w.id) == Some(target) && w.id != p.id
    requires HasKey(w, k) <==> HasKey(target, k) || HasKey(p, k)
    ensures Has(Store(r, Delete(works, IdOf, p.id), w), k) <==> Has(works, k)
  {
    var rest := Delete(works, IdOf, p.id);
    DeleteKeys(works, IdOf, p.id);
    DeleteGet(works, IdOf, p.id, w.id);
    DeleteHas(works, p.id, k);
    StoredKeys(r, w, k);
    SetHas(rest, Stored(r, w), k);
    assert p in works && target in works;
  }

  lemma {:induction false} AttachAllHas(r: Rules, works: seq<Work>, catalogs: seq<Work>, pending: seq<Work>, k: string)
    requires Linked(works, catalogs, pending) && Grown(works, pending)
    ensures Has(AttachAll(r, works, catalogs, pending), k) <==> Has(works, k)
    ensures Distinct(Keys(AttachAll(r, works, catalogs, pending), IdOf))
    decreases |pending|
  {
    if pending != [] {
      AttachLinked(r, works, catalogs, pending);
      AttachHas(r, works, catalogs, pending, k);
      AttachAllHas(r, Attach(r, works, catalogs, pending[0]), catalogs, pending[1..], k);
    }
  }

  /** However publications are joined, reassigned and ranked, the works hold
      exactly the publications that were accepted. */
  lemma NothingLost(r: Rules, publications: seq<Work>, k: string)
    requires Distinct(Keys(publications, IdOf))
    ensures Has(Rebuild(r, publications), k) <==> Has(publications, k)
    ensures Distinct(Keys(Rebuild(r, publications), IdOf))
  {
    var works := Gather(r, publications);
    GatherIds(r, publications);
    GatherHas(r, publications, k);
    Snapshot(works);
    forall p | p in works ensures Get(works, IdOf, p.id) == Some(p) { GetMember(works, p); }
    AttachAllHas(r, works, Catalogs(works), works, k);
  }

  /** A newly accepted publication adds its own keys and removes none. */
  lemma PublishedHas(publications: seq<Work>, incoming: Work, k: string)
    requires Distinct(Keys(publications, IdOf))
    ensures Distinct(Keys(Published(publications, incoming), IdOf))
    ensures Has(Published(publications, incoming), k) <==> Has(publications, k) || HasKey(incoming, k)
  {
    var p := Publication(publications, incoming);
    PublicationKeys(publications, incoming, k);
    SetKeys(publications, IdOf, p);
    SetHas(publications, p, k);
    var previous := Get(publications, IdOf, incoming.id);
    if previous.Some? && HasKey(previous.value, k) { assert Has(publications, k); }
  }

  lemma PublicationKeys(publications: seq<Work>, incoming: Work, k: string)
    ensures var previous := Get(publications, IdOf, incoming.id);
            HasKey(Publication(publications, incoming), k)
            <==> (previous.Some? && HasKey(previous.value, k)) || HasKey(incoming, k)
  {
    var previous := Get(publications, IdOf, incoming.id);
    var past := if previous.Some? then previous.value.variants else [];
    MergeKeys(past + incoming.variants);
    JoinKeys(past, incoming.variants, k);
  }

  // ----- The stream -----

  lemma ListenSnoc(view: map<string, Work>, events: seq<Event>, e: Event)
    ensures Listen(view, events + [e]) == Apply(Listen(view, events), e)
  {
    assert (events + [e])[..|events|] == events;
  }

  lemma {:induction false} ListenJoins(view: map<string, Work>, a: seq<Event>, b: seq<Event>)
    ensures Listen(view, a + b) == Listen(Listen(view, a), b)
    decreases |b|
  {
    if b == [] {
      assert a + b == a;
    } else {
      var init, last := b[..|b| - 1], b[|b| - 1];
      assert a + b == (a + init) + [last];
      ListenSnoc(view, a + init, last);
      ListenJoins(view, a, init);
    }
  }

  function Lookup(view: map<string, Work>, id: string): Option<Work> {
    if id in view then Some(view[id]) else None
  }

  lemma MapLookup(works: seq<Work>, id: string)
    ensures Lookup(AsMap(works), id) == Get(works, IdOf, id)
  {
  }

  lemma GetSnoc(init: seq<Work>, last: Work, id: string)
    requires Distinct(Keys(init + [last], IdOf))
    ensures Distinct(Keys(init, IdOf))
    ensures Get(init + [last], IdOf, id) == if id == last.id then Some(last) else Get(init, IdOf, id)
  {
    var works := init + [last];
    assert Keys(works, IdOf) == Keys(init, IdOf) + [last.id];
    DistinctInit(Keys(init, IdOf), last.id);
    assert works[|init|] == last;
    GetMember(works, last);
    if id != last.id && Get(init, IdOf, id).Some? {
      var w := Get(init, IdOf, id).value;
      assert w in works;
      GetMember(works, w);
    }
  }

  /** What a listener knows of an id after the works were announced. */
  function Seen(previous: seq<Work>, works: seq<Work>, id: string): Option<Work> {
    if Get(works, IdOf, id).Some? then Get(works, IdOf, id) else Get(previous, IdOf, id)
  }

  lemma {:induction false} ChangedSeen(previous: seq<Work>, works: seq<Work>, id: string)
    requires Distinct(Keys(works, IdOf))
    ensures Lookup(Listen(AsMap(previous), Changed(previous, works)), id) == Seen(previous, works, id)
    decreases |works|
  {
    if works == [] {
      MapLookup(previous, id);
    } else {
      var init, last := works[..|works| - 1], works[|works| - 1];
      assert works == init + [last];
      GetSnoc(init, last, id);
      ChangedSeen(previous, init, id);
      FreshKey(init, last);
      ChangedOne(previous, init, last, id);
    }
  }

  lemma FreshKey(init: seq<Work>, last: Work)
    requires Distinct(Keys(init + [last], IdOf))
    ensures Get(init, IdOf, last.id).None?
  {
    assert Keys(init + [last], IdOf) == Keys(init, IdOf) + [last.id];
    DistinctInit(Keys(init, IdOf), last.id);
  }

  lemma ChangedOne(previous: seq<Work>, init: seq<Work>, last: Work, id: string)
    requires Lookup(Listen(AsMap(previous), Changed(previous, init)), id) == Seen(previous, init, id)
    requires Get(init, IdOf, last.id).None?
    ensures Lookup(Listen(AsMap(previous), Changed(previous, init + [last])), id)
         == if id == last.id then Some(last) else Seen(previous, init, id)
  {
    var works := init + [last];
    assert works[..|works| - 1] == init;
    if Get(previous, IdOf, last.id) != Some(last) {
      assert Changed(previous, works) == Changed(previous, init) + [Result(last)];
      ListenSnoc(AsMap(previous), Changed(previous, init), Result(last));
    } else {
      assert Changed(previous, works) == Changed(previous, init);
    }
  }

  lemma {:induction false} RemovedSeen(view: map<string, Work>, previous: seq<Work>, works: seq<Work>, id: string)
    ensures Lookup(Listen(view, Removed(previous, works)), id)
         == if id in Keys(previous, IdOf) && id !in Keys(works, IdOf) then None else Lookup(view, id)
    decreases |previous|
  {
    if previous != [] {
      var init, last := previous[..|previous| - 1], previous[|previous| - 1];
      assert previous == init + [last];
      assert Keys(previous, IdOf) == Keys(init, IdOf) + [last.id];
      RemovedSeen(view, init, works, id);
      if last.id in Keys(works, IdOf) {
        assert Removed(previous, works) == Removed(init, works);
      } else {
        ListenSnoc(view, Removed(init, works), Removal(works, last));
      }
    }
  }

  /** A listener that was in step before a rebuild is in step after it. */
  lemma StreamInStep(previous: seq<Work>, works: seq<Work>)
    requires Distinct(Keys(works, IdOf))
    ensures Listen(AsMap(previous), Difference(previous, works)) == AsMap(works)
  {
    var changed, removed := Changed(previous, works), Removed(previous, works);
    var view := Listen(AsMap(previous), changed);
    ListenJoins(AsMap(previous), changed, removed);
    forall id ensures Lookup(Listen(view, removed), id) == Lookup(AsMap(works), id) {
      ChangedSeen(previous, works, id);
      RemovedSeen(view, previous, works, id);
      MapLookup(works, id);
    }
    SameLookups(Listen(view, removed), AsMap(works));
  }

  lemma SameLookups(a: map<string, Work>, b: map<string, Work>)
    requires forall id :: Lookup(a, id) == Lookup(b, id)
    ensures a == b
  {
    forall id ensures id in a <==> id in b { assert Lookup(a, id) == Lookup(b, id); }
    forall id | id in a ensures a[id] == b[id] { assert Lookup(a, id) == Lookup(b, id); }
  }

  /** A removal names a live work that holds every removed publication, and
      names none exactly when there is no such work. */
  lemma {:induction false} ReplacementsLive(previous: seq<Work>, works: seq<Work>, e: Event)
    requires e in Difference(previous, works) && e.RemoveResult?
    ensures exists w | w in previous :: w.id == e.id && e.id !in Keys(works, IdOf)
              && (e.replacementId.None? <==> forall x | x in works :: !HoldsAll(x, w))
              && (e.replacementId.Some? ==> exists x | x in works :: x.id == e.replacementId.value && HoldsAll(x, w))
  {
    OnlyResults(previous, works);
    var w := RemovedOf(previous, works, e);
    var x := Replacement(works, w);
    assert x.Some? ==> x.value in works && x.value.id == e.replacementId.value && HoldsAll(x.value, w);
  }

  lemma {:induction false} OnlyResults(previous: seq<Work>, works: seq<Work>)
    ensures forall e | e in Changed(previous, works) :: e.Result?
    decreases |works|
  {
    if works != [] { OnlyResults(previous, works[..|works| - 1]); }
  }

  lemma {:induction false} RemovedOf(previous: seq<Work>, works: seq<Work>, e: Event) returns (w: Work)
    requires e in Removed(previous, works)
    ensures w in previous && w.id !in Keys(works, IdOf) && e == Removal(works, w)
    decreases |previous|
  {
    w := previous[|previous| - 1];
    if w.id in Keys(works, IdOf) || e != Removal(works, w) {
      w := RemovedOf(previous[..|previous| - 1], works, e);
    }
  }

  // ----- Every run -----

  datatype Call = AddQuery(query: string) | AddWork(incoming: Work)

  datatype Aggregate = Aggregate(queries: seq<string>, publications: seq<Work>, events: seq<Event>)

  predicate WantsQuery(r: Rules, queries: seq<string>, query: string) {
    r.hasWords(query) && !exists q | q in queries :: r.identity(q) == r.identity(query)
  }

  function Perform(r: Rules, a: Aggregate, c: Call): (after: Aggregate)
    requires a.queries != [] && Distinct(Keys(a.publications, IdOf))
    ensures after.queries != [] && Distinct(Keys(after.publications, IdOf))
  {
    match c
    case AddQuery(q) => if WantsQuery(r, a.queries, q) then a.(queries := a.queries + [q]) else a
    case AddWork(w) =>
      if !Accepts(r, a.queries, w) then a
      else
        PublishedHas(a.publications, w, "");
        var publications := Published(a.publications, w);
        a.(publications := publications,
           events := a.events + Difference(Rebuild(r, a.publications), Rebuild(r, publications)))
  }

  function PerformAll(r: Rules, a: Aggregate, calls: seq<Call>): (after: Aggregate)
    requires a.queries != [] && Distinct(Keys(a.publications, IdOf))
    ensures after.queries != [] && Distinct(Keys(after.publications, IdOf))
    decreases |calls|
  {
    if calls == [] then a
    else Perform(r, PerformAll(r, a, calls[..|calls| - 1]), calls[|calls| - 1])
  }

  /** Whether some accepted call of the run carried the publication. */
  predicate Carried(r: Rules, a: Aggregate, calls: seq<Call>, k: string)
    requires a.queries != [] && Distinct(Keys(a.publications, IdOf))
    decreases |calls|
  {
    calls != []
    && (Carried(r, a, calls[..|calls| - 1], k)
        || (calls[|calls| - 1].AddWork?
            && Accepts(r, PerformAll(r, a, calls[..|calls| - 1]).queries, calls[|calls| - 1].incoming)
            && HasKey(calls[|calls| - 1].incoming, k)))
  }

  /** After any run from an empty search: the folded stream is the current map
      of works, whose publications are those that accepted calls carried. */
  lemma {:induction false} EveryRun(r: Rules, query: string, calls: seq<Call>, k: string)
    ensures var after := PerformAll(r, Aggregate([query], [], []), calls);
            && Listen(map[], after.events) == AsMap(Rebuild(r, after.publications))
            && (Has(Rebuild(r, after.publications), k)
                <==> Carried(r, Aggregate([query], [], []), calls, k))
    decreases |calls|
  {
    var start := Aggregate([query], [], []);
    if calls == [] {
      assert Rebuild(r, []) == [];
      assert AsMap([]) == map[];
    } else {
      var init, last := calls[..|calls| - 1], calls[|calls| - 1];
      EveryRun(r, query, init, k);
      var a := PerformAll(r, start, init);
      NothingLost(r, a.publications, k);
      if last.AddWork? && Accepts(r, a.queries, last.incoming) {
        AcceptedStep(r, a, last.incoming, k);
      }
    }
  }

  lemma AcceptedStep(r: Rules, a: Aggregate, w: Work, k: string)
    requires a.queries != [] && Distinct(Keys(a.publications, IdOf)) && Accepts(r, a.queries, w)
    requires Listen(map[], a.events) == AsMap(Rebuild(r, a.publications))
    ensures var after := Perform(r, a, AddWork(w));
            && Listen(map[], after.events) == AsMap(Rebuild(r, after.publications))
            && (Has(Rebuild(r, after.publications), k) <==> Has(Rebuild(r, a.publications), k) || HasKey(w, k))
  {
    PublishedHas(a.publications, w, k);
    var publications := Published(a.publications, w);
    NothingLost(r, a.publications, k);
    NothingLost(r, publications, k);
    StreamInStep(Rebuild(r, a.publications), Rebuild(r, publications));
    ListenJoins(map[], a.events, Difference(Rebuild(r, a.publications), Rebuild(r, publications)));
  }
}
