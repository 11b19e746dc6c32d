/** The SearchResults class of components/content/results.ts. */
module SearchResults {
  import opened OrderedMaps
  import opened Ranking
  import opened SearchSteps
  import opened SearchTheorems
  import opened Variants
  import opened Wrappers

  class SearchResults {
    const rules: Rules
    var works: seq<Work>
    var publications: seq<Work>
    var queries: seq<string>
    var emitted: seq<Event>

    /** The works are a rebuild of the publications, and whoever listened since
        the beginning knows exactly them. */
    ghost predicate Valid()
      reads this
    {
      queries != [] && Distinct(Keys(publications, IdOf))
      && works == Rebuild(rules, publications)
      && Listen(map[], emitted) == AsMap(works)
    }

    constructor (query: string, rules: Rules)
      ensures Valid() && this.rules == rules && queries == [query] && publications == [] && emitted == []
    {
      this.rules := rules;
      works, publications, queries, emitted := [], [], [query], [];
      new;
      assert Rebuild(rules, []) == [];
      assert AsMap([]) == map[];
    }

    method AddQuery(query: string)
      requires Valid()
      modifies this`queries
      ensures Valid()
      ensures queries == old(queries) + if WantsQuery(rules, old(queries), query) then [query] else []
    {
      if rules.hasWords(query) && !exists q | q in queries :: rules.identity(q) == rules.identity(query) {
        queries := queries + [query];
      }
    }

    method Find(work: Work) returns (found: Option<Work>)
      requires Valid()
      ensures found.Some? ==> found.value in works && (found.value.id == work.id || rules.same(found.value, work))
      ensures found.None? ==> forall w | w in works :: w.id != work.id && !rules.same(w, work)
    {
      found := Get(works, IdOf, work.id);
      if found.None? {
        found := FirstSame(rules, works, work);
        forall w | w in works ensures w.id != work.id {
          var i :| 0 <= i < |works| && works[i] == w;
          assert Keys(works, IdOf)[i] == w.id;
        }
      }
    }

    method Add(incoming: Work) returns (accepted: bool)
      requires Valid()
      modifies this
      ensures Valid() && queries == old(queries)
      ensures accepted <==> Accepts(rules, queries, incoming)
      ensures publications == if accepted then Published(old(publications), incoming) else old(publications)
      ensures emitted == old(emitted) + Difference(old(works), works)
    {
      NothingLost(rules, publications, "");
      DifferenceOfSame(works);
      if incoming.id == "" || incoming.title == "" || incoming.variants == [] { return false; }
      if !rules.yearMatches(queries[0], incoming) || !exists q | q in queries :: rules.matches(q, incoming) {
        return false;
      }
      accepted := true;
      var publication := Combine(incoming);
      if Get(publications, IdOf, incoming.id) == Some(publication) {
        SetSame(publications, publication);
        return;
      }
      PublishedHas(publications, incoming, "");
      publications := Set(publications, IdOf, publication);
      Publish();
    }

    method Combine(incoming: Work) returns (publication: Work)
      ensures publication == Publication(publications, incoming)
    {
      var previous := Get(publications, IdOf, incoming.id);
      var merged := MergeVariants((if previous.Some? then previous.value.variants else []) + incoming.variants);
      publication := MergeMetadata(previous, incoming).(variants := merged);
    }

    method Publish()
      requires Distinct(Keys(publications, IdOf)) && Listen(map[], emitted) == AsMap(works)
      requires queries != []
      modifies this`works, this`emitted
      ensures Valid()
      ensures emitted == old(emitted) + Difference(old(works), works)
    {
      var previous := works;
      Recompute();
      StreamContinues(rules, publications, previous, emitted);
      Announce(previous);
    }

    method Recompute()
      requires Distinct(Keys(publications, IdOf))
      modifies this`works
      ensures works == Rebuild(rules, publications)
    {
      GatherAll();
      AttachEach();
    }

    method Announce(previous: seq<Work>)
      modifies this`emitted
      ensures emitted == old(emitted) + Difference(previous, works)
    {
      AnnounceChanged(previous);
      AnnounceRemoved(previous);
    }

    /** The publications become works, as GatherGroups describes them. */
    method GatherAll()
      modifies this`works
      ensures works == Gather(rules, publications)
    {
      works := [];
      for i := 0 to |publications|
        invariant works == Gather(rules, publications[..i])
      {
        assert publications[..i + 1][..i] == publications[..i];
        PlaceOne(publications[i]);
      }
      assert publications[..|publications|] == publications;
    }

    method AttachEach()
      requires Distinct(Keys(publications, IdOf)) && works == Gather(rules, publications)
      modifies this`works
      ensures works == Rebuild(rules, publications)
    {
      GatherIds(rules, publications);
      Snapshot(works);
      var current := works;
      var catalogs := Catalogs(current);
      assert current[0..] == current;
      for j := 0 to |current|
        invariant Linked(works, catalogs, current[j..])
        invariant AttachAll(rules, works, catalogs, current[j..]) == Rebuild(rules, publications)
      {
        assert current[j..][0] == current[j] && current[j..][1..] == current[j + 1..];
        AttachLinked(rules, works, catalogs, current[j..]);
        AttachOne(catalogs, current[j]);
      }
    }

    /** A publication joins the first work that is the same or founds one. */
    method PlaceOne(incoming: Work)
      modifies this`works
      ensures works == PlaceWork(rules, old(works), incoming)
    {
      var target := FirstSame(rules, works, incoming);
      var catalog := IsCatalog(incoming);
      if target.None? {
        Store(incoming);
      } else {
        var joined := if catalog then MergeMetadata(target, incoming) else target.value;
        Store(joined.(id := if catalog then incoming.id else target.value.id,
                      notes := Some(MergeNotes(target.value.notes, incoming.notes)),
                      variants := target.value.variants + incoming.variants));
        if catalog && target.value.id != incoming.id { works := Delete(works, IdOf, target.value.id); }
      }
    }

    method AttachOne(catalogs: seq<Work>, publication: Work)
      requires forall c | c in catalogs :: c.id in Keys(works, IdOf)
      modifies this`works
      ensures works == Attach(rules, old(works), catalogs, publication)
    {
      var catalog := MatchingCatalog(rules, publication, catalogs);
      if catalog.None? || catalog.value.id == publication.id { return; }
      var target := Get(works, IdOf, catalog.value.id).value;
      works := Delete(works, IdOf, publication.id);
      Store(target.(notes := Some(MergeNotes(target.notes, publication.notes)),
                    variants := target.variants + Refitted(rules, publication, catalog.value)));
    }

    method Store(work: Work)
      modifies this`works
      ensures works == SearchSteps.Store(rules, old(works), work)
    {
      var merged := MergeVariants(work.variants);
      var ranked := RankVariants(merged, rules.facets(work), rules.score);
      works := Set(works, IdOf, work.(variants := ranked));
    }

    method AnnounceChanged(previous: seq<Work>)
      modifies this`emitted
      ensures emitted == old(emitted) + Changed(previous, works)
    {
      for i := 0 to |works|
        invariant emitted == old(emitted) + Changed(previous, works[..i])
      {
        assert works[..i + 1][..i] == works[..i];
        if Get(previous, IdOf, works[i].id) != Some(works[i]) { emitted := emitted + [Result(works[i])]; }
      }
      assert works[..|works|] == works;
    }

    method AnnounceRemoved(previous: seq<Work>)
      modifies this`emitted
      ensures emitted == old(emitted) + Removed(previous, works)
    {
      for i := 0 to |previous|
        invariant emitted == old(emitted) + Removed(previous[..i], works)
      {
        var removed := previous[i];
        RemovedSnoc(previous, works, i);
        if removed.id !in Keys(works, IdOf) {
          var replacement := Replacement(works, removed);
          emitted := emitted + [RemoveResult(removed.id, if replacement.Some? then Some(replacement.value.id) else None)];
        }
      }
      assert previous[..|previous|] == previous;
    }
  }

  lemma StreamContinues(r: Rules, publications: seq<Work>, previous: seq<Work>, past: seq<Event>)
    requires Distinct(Keys(publications, IdOf)) && Listen(map[], past) == AsMap(previous)
    ensures Listen(map[], past + Difference(previous, Rebuild(r, publications))) == AsMap(Rebuild(r, publications))
  {
    var works := Rebuild(r, publications);
    NothingLost(r, publications, "");
    StreamInStep(previous, works);
    ListenJoins(map[], past, Difference(previous, works));
  }

  lemma RemovedSnoc(previous: seq<Work>, works: seq<Work>, i: nat)
    requires i < |previous|
    ensures Removed(previous[..i + 1], works)
         == Removed(previous[..i], works)
            + if previous[i].id in Keys(works, IdOf) then [] else [Removal(works, previous[i])]
  {
    assert previous[..i + 1][..i] == previous[..i];
  }

  lemma {:induction false} SetSame(works: seq<Work>, w: Work)
    requires Get(works, IdOf, w.id) == Some(w)
    ensures Set(works, IdOf, w) == works
  {
    if works[0].id != w.id { SetSame(works[1..], w); }
  }

  /** Nothing is announced twice: an unchanged list of works emits nothing. */
  lemma DifferenceOfSame(works: seq<Work>)
    requires Distinct(Keys(works, IdOf))
    ensures Difference(works, works) == []
  {
    NoneChanged(works, |works|);
    NoneRemoved(works, |works|);
    assert works[..|works|] == works;
  }

  lemma {:induction false} NoneChanged(works: seq<Work>, n: nat)
    requires n <= |works| && Distinct(Keys(works, IdOf))
    ensures Changed(works, works[..n]) == []
  {
    if n > 0 {
      NoneChanged(works, n - 1);
      assert works[..n][..n - 1] == works[..n - 1];
      GetMember(works, works[n - 1]);
    }
  }

  lemma {:induction false} NoneRemoved(works: seq<Work>, n: nat)
    requires n <= |works|
    ensures Removed(works[..n], works) == []
  {
    if n > 0 {
      NoneRemoved(works, n - 1);
      assert works[..n][..n - 1] == works[..n - 1];
      assert Keys(works, IdOf)[n - 1] == works[n - 1].id;
    }
  }
}
