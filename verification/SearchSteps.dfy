/** The rebuild of components/content/results.ts as functions: publications are
    gathered into works, works without a catalog page of their own are attached
    to the one catalog they match, and the difference is emitted as events. */
module SearchSteps {
  import opened OrderedMaps
  import opened Ranking
  import opened Variants
  import opened Wrappers

  datatype Work = Work(
    id: string,
    title: string,
    category: string,
    year: Option<int>,
    fields: map<string, string>,
    aliases: seq<string>,
    identifiers: map<string, string>,
    notes: Option<seq<Note>>,
    variants: seq<Variant>)

  function IdOf(w: Work): string { w.id }

  /** Title matching, language tables and scores, none of which matter here. */
  datatype Rules = Rules(
    same: (Work, Work) -> bool,
    yearMatches: (string, Work) -> bool,
    matches: (string, Work) -> bool,
    hasWords: string -> bool,
    identity: string -> string,
    candidate: (Work, Work) -> bool,
    refit: (Variant, Work) -> Option<(string, Option<string>)>,
    facets: Work -> Facets,
    score: Measure)

  // ----- Classes of works -----

  predicate IsUserUpload(w: Work) {
    forall v | v in w.variants :: v.kind == Some(Upload)
  }

  predicate IsCatalog(w: Work) {
    !IsUserUpload(w) && exists v | v in w.variants :: v.transport != Torrent
  }

  predicate TorrentsOnly(w: Work) {
    forall v | v in w.variants :: v.transport == Torrent
  }

  predicate EpisodeUpload(w: Work) {
    w.category == "anime" && IsUserUpload(w)
    && forall v | v in w.variants ::
         v.transport == Video && v.episode.Some? && v.episode.value != ""
         && v.duration.Some? && v.duration.value >= 15 * 60
  }

  predicate YearsDiffer(a: Work, b: Work) {
    a.year.Some? && b.year.Some? && a.year.value != 0 && b.year.value != 0 && a.year != b.year
  }

  predicate Matches(r: Rules, publication: Work, work: Work) {
    if (publication.category != "all" && work.category != publication.category) || YearsDiffer(publication, work)
    then false
    else if work.category == "books" || work.category == "manga" then r.same(publication, work)
    else r.candidate(publication, work)
  }

  function Candidates(r: Rules, publication: Work, catalogs: seq<Work>): (c: seq<Work>)
    ensures forall w | w in c :: w in catalogs && Matches(r, publication, w)
    decreases |catalogs|
  {
    if catalogs == [] then []
    else (if Matches(r, publication, catalogs[0]) then [catalogs[0]] else [])
         + Candidates(r, publication, catalogs[1..])
  }

  function MatchingCatalog(r: Rules, publication: Work, catalogs: seq<Work>): (c: Option<Work>)
    ensures c.Some? ==> c.value in catalogs && Matches(r, publication, c.value)
    ensures c.Some? ==> EpisodeUpload(publication) || TorrentsOnly(publication)
  {
    if !EpisodeUpload(publication) && !TorrentsOnly(publication) then None
    else
      var matches := Candidates(r, publication, catalogs);
      if |matches| == 1 then Some(matches[0]) else None
  }

  function Refitted(r: Rules, publication: Work, catalog: Work): (vs: seq<Variant>)
    ensures Keys(vs, KeyOf) == Keys(publication.variants, KeyOf)
  {
    seq(|publication.variants|, i requires 0 <= i < |publication.variants| =>
      var v := publication.variants[i];
      var e := if catalog.category == "anime" && v.transport == Torrent then r.refit(v, catalog) else None;
      if e.None? then v
      else v.(episode := Some(e.value.0), season := if e.value.1.Some? then e.value.1 else v.season))
  }

  // ----- Metadata -----

  function Overlaid(current: Work, incoming: Work): Work {
    Work(incoming.id, incoming.title, incoming.category, Newer(current.year, incoming.year),
         current.fields + incoming.fields, Unique(current.aliases + incoming.aliases),
         current.identifiers + incoming.identifiers, Some(MergeNotes(current.notes, incoming.notes)), incoming.variants)
  }

  /** The later title, category and other fields; the aliases, identifiers and
      notes of both, the later identifier of a site winning. */
  function MergeMetadata(current: Option<Work>, incoming: Work): (w: Work)
    ensures w.id == incoming.id && w.variants == incoming.variants
    ensures w.title == incoming.title && w.category == incoming.category
    ensures w.year == if incoming.year.Some? || current.None? then incoming.year else current.value.year
    ensures w.fields == (if current.Some? then current.value.fields else map[]) + incoming.fields
    ensures Distinct(w.aliases)
    ensures forall a :: a in w.aliases <==> a in incoming.aliases || (current.Some? && a in current.value.aliases)
    ensures forall k :: k in w.identifiers <==> k in incoming.identifiers || (current.Some? && k in current.value.identifiers)
    ensures forall k | k in incoming.identifiers :: w.identifiers[k] == incoming.identifiers[k]
    ensures forall k | k in w.identifiers && k !in incoming.identifiers :: w.identifiers[k] == current.value.identifiers[k]
    ensures w.notes.Some? && Distinct(w.notes.value)
    ensures forall n ::
              n in w.notes.value <==> n in Listed(incoming.notes) || (current.Some? && n in Listed(current.value.notes))
  {
    if current.None? then
      incoming.(aliases := Unique(incoming.aliases), notes := Some(MergeNotes(None, incoming.notes)))
    else
      Overlaid(current.value, incoming)
  }

  /** Metadata may be merged in any grouping, order of aliases and notes included. */
  lemma OverlaidAssociative(a: Work, b: Work, c: Work)
    ensures Overlaid(Overlaid(a, b), c) == Overlaid(a, Overlaid(b, c))
  {
    UniqueAssociative(a.aliases, b.aliases, c.aliases);
    MergeNotesAssociative(a.notes, b.notes, c.notes);
    OverlayMaps(a.fields, b.fields, c.fields);
    OverlayMaps(a.identifiers, b.identifiers, c.identifiers);
    assert Newer(Newer(a.year, b.year), c.year) == Newer(a.year, Newer(b.year, c.year));
  }

  function Stored(r: Rules, w: Work): (s: Work)
    ensures s.id == w.id
  {
    w.(variants := Rank(Merge(w.variants), r.facets(w), r.score))
  }

  function Store(r: Rules, works: seq<Work>, w: Work): seq<Work> {
    Set(works, IdOf, Stored(r, w))
  }

  // ----- Gathering publications -----

  function FirstSame(r: Rules, works: seq<Work>, w: Work): (t: Option<Work>)
    ensures t.Some? ==> t.value in works && r.same(t.value, w)
    ensures t.None? ==> forall x | x in works :: !r.same(x, w)
    decreases |works|
  {
    if works == [] then None
    else if r.same(works[0], w) then Some(works[0])
    else FirstSame(r, works[1..], w)
  }

  function Joined(target: Work, incoming: Work): Work {
    var catalog := IsCatalog(incoming);
    (if catalog then MergeMetadata(Some(target), incoming) else target)
    .(id := if catalog then incoming.id else target.id,
      notes := Some(MergeNotes(target.notes, incoming.notes)),
      variants := target.variants + incoming.variants)
  }

  function PlaceWork(r: Rules, works: seq<Work>, incoming: Work): seq<Work> {
    var target := FirstSame(r, works, incoming);
    if target.None? then Store(r, works, incoming)
    else
      var stored := Store(r, works, Joined(target.value, incoming));
      if IsCatalog(incoming) && target.value.id != incoming.id
      then Delete(stored, IdOf, target.value.id)
      else stored
  }

  function Gather(r: Rules, publications: seq<Work>): seq<Work>
    decreases |publications|
  {
    if publications == [] then []
    else PlaceWork(r, Gather(r, publications[..|publications| - 1]), publications[|publications| - 1])
  }

  // ----- Attaching to catalogs -----

  function Catalogs(works: seq<Work>): (c: seq<Work>)
    ensures forall w :: w in c <==> w in works && IsCatalog(w)
    decreases |works|
  {
    if works == [] then []
    else
      assert forall w :: w in works <==> w == works[0] || w in works[1..];
      (if IsCatalog(works[0]) then [works[0]] else []) + Catalogs(works[1..])
  }

  /** While works are attached: every catalog of the snapshot is still there, and
      so is every work that has not had its turn. */
  ghost predicate Linked(works: seq<Work>, catalogs: seq<Work>, pending: seq<Work>) {
    && Distinct(Keys(works, IdOf)) && Distinct(Keys(pending, IdOf))
    && (forall c | c in catalogs :: IsCatalog(c) && c.id in Keys(works, IdOf))
    && (forall p | p in pending :: Get(works, IdOf, p.id).Some?)
    && (forall p | p in pending :: IsCatalog(p) || forall c | c in catalogs :: c.id != p.id)
  }

  function Attach(r: Rules, works: seq<Work>, catalogs: seq<Work>, publication: Work): seq<Work>
    requires forall c | c in catalogs :: c.id in Keys(works, IdOf)
  {
    var catalog := MatchingCatalog(r, publication, catalogs);
    if catalog.None? || catalog.value.id == publication.id then works
    else
      // The lookup that the source asserts to be present.
      var target := Get(works, IdOf, catalog.value.id).value;
      Store(r, Delete(works, IdOf, publication.id),
            target.(notes := Some(MergeNotes(target.notes, publication.notes)),
                    variants := target.variants + Refitted(r, publication, catalog.value)))
  }

  lemma NotBoth(w: Work)
    requires EpisodeUpload(w) || TorrentsOnly(w)
    ensures !IsCatalog(w)
  {
  }

  lemma GetMember(works: seq<Work>, w: Work)
    requires w in works && Distinct(Keys(works, IdOf))
    ensures Get(works, IdOf, w.id) == Some(w)
  {
    var i :| 0 <= i < |works| && works[i] == w;
    var found := Get(works, IdOf, w.id);
    assert Keys(works, IdOf)[i] == w.id;
    var j :| 0 <= j < |works| && works[j] == found.value;
    assert Keys(works, IdOf)[j] == w.id;
  }

  lemma AttachIds(r: Rules, works: seq<Work>, catalogs: seq<Work>, publication: Work)
    requires Distinct(Keys(works, IdOf)) && forall c | c in catalogs :: c.id in Keys(works, IdOf)
    ensures Distinct(Keys(Attach(r, works, catalogs, publication), IdOf))
    ensures forall x :: x in Keys(Attach(r, works, catalogs, publication), IdOf)
                    <==> x in Keys(works, IdOf)
                         && (x != publication.id
                             || MatchingCatalog(r, publication, catalogs).None?
                             || MatchingCatalog(r, publication, catalogs).value.id == publication.id)
  {
    var catalog := MatchingCatalog(r, publication, catalogs);
    if catalog.Some? && catalog.value.id != publication.id {
      var target := Get(works, IdOf, catalog.value.id).value;
      DeleteKeys(works, IdOf, publication.id);
      var w := target.(notes := Some(MergeNotes(target.notes, publication.notes)),
                       variants := target.variants + Refitted(r, publication, catalog.value));
      SetKeys(Delete(works, IdOf, publication.id), IdOf, Stored(r, w));
    }
  }

  lemma DistinctTail(s: seq<string>)
    requires s != [] && Distinct(s)
    ensures Distinct(s[1..]) && s[0] !in s[1..]
  {
    forall i, j | 0 <= i < j < |s| - 1 ensures s[1..][i] != s[1..][j] {
      assert s[i + 1] != s[j + 1];
    }
  }

  lemma KeysTail(pending: seq<Work>)
    requires pending != [] && Distinct(Keys(pending, IdOf))
    ensures Distinct(Keys(pending[1..], IdOf))
    ensures forall q | q in pending[1..] :: q.id != pending[0].id && q in pending
  {
    KeysHead(pending, IdOf);
    DistinctTail(Keys(pending, IdOf));
    assert Keys(pending, IdOf)[1..] == Keys(pending[1..], IdOf);
    forall q | q in pending[1..] ensures q.id != pending[0].id && q in pending {
      var j :| 0 <= j < |pending| - 1 && pending[1..][j] == q;
      assert Keys(pending[1..], IdOf)[j] == q.id;
      assert pending[j + 1] == q;
    }
  }

  /** One step keeps the links, so the next lookup succeeds too. */
  lemma AttachLinked(r: Rules, works: seq<Work>, catalogs: seq<Work>, pending: seq<Work>)
    requires pending != [] && Linked(works, catalogs, pending)
    ensures Linked(Attach(r, works, catalogs, pending[0]), catalogs, pending[1..])
  {
    var p := pending[0];
    var after := Attach(r, works, catalogs, p);
    AttachIds(r, works, catalogs, p);
    KeysTail(pending);
    if MatchingCatalog(r, p, catalogs).Some? { NotBoth(p); }
    LinkedAfter(works, catalogs, pending, after);
  }

  lemma LinkedAfter(works: seq<Work>, catalogs: seq<Work>, pending: seq<Work>, after: seq<Work>)
    requires pending != [] && Linked(works, catalogs, pending)
    requires Distinct(Keys(pending[1..], IdOf)) && Distinct(Keys(after, IdOf))
    requires forall q | q in pending[1..] :: q.id != pending[0].id && q in pending
    requires forall x | x in Keys(works, IdOf) && x != pending[0].id :: x in Keys(after, IdOf)
    requires pending[0].id in Keys(after, IdOf) || !IsCatalog(pending[0])
    ensures Linked(after, catalogs, pending[1..])
  {
    forall c | c in catalogs ensures c.id in Keys(after, IdOf) {
      assert c.id in Keys(works, IdOf);
      if c.id == pending[0].id { assert pending[0] in pending; }
    }
  }

  function AttachAll(r: Rules, works: seq<Work>, catalogs: seq<Work>, pending: seq<Work>): seq<Work>
    requires Linked(works, catalogs, pending)
    decreases |pending|
  {
    if pending == [] then works
    else
      AttachLinked(r, works, catalogs, pending);
      AttachAll(r, Attach(r, works, catalogs, pending[0]), catalogs, pending[1..])
  }

  lemma Snapshot(works: seq<Work>)
    requires Distinct(Keys(works, IdOf))
    ensures Linked(works, Catalogs(works), works)
  {
    forall w | w in works ensures Get(works, IdOf, w.id) == Some(w) { GetMember(works, w); }
  }

  function Rebuild(r: Rules, publications: seq<Work>): seq<Work>
    requires Distinct(Keys(publications, IdOf))
  {
    var works := Gather(r, publications);
    GatherIds(r, publications);
    Snapshot(works);
    AttachAll(r, works, Catalogs(works), works)
  }

  // ----- Identifiers while gathering -----

  lemma PlaceIds(r: Rules, works: seq<Work>, incoming: Work)
    requires Distinct(Keys(works, IdOf))
    ensures Distinct(Keys(PlaceWork(r, works, incoming), IdOf))
    ensures forall x | x in Keys(PlaceWork(r, works, incoming), IdOf) :: x in Keys(works, IdOf) || x == incoming.id
  {
    var target := FirstSame(r, works, incoming);
    if target.None? {
      SetKeys(works, IdOf, Stored(r, incoming));
    } else {
      Replaced(works, Stored(r, Joined(target.value, incoming)), target.value);
    }
  }

  lemma Replaced(works: seq<Work>, stored: Work, target: Work)
    requires Distinct(Keys(works, IdOf)) && target in works
    ensures Distinct(Keys(Set(works, IdOf, stored), IdOf))
    ensures forall x :: x in Keys(Set(works, IdOf, stored), IdOf) <==> x in Keys(works, IdOf) || x == stored.id
    ensures Distinct(Keys(Delete(Set(works, IdOf, stored), IdOf, target.id), IdOf))
    ensures forall x :: x in Keys(Delete(Set(works, IdOf, stored), IdOf, target.id), IdOf)
                   <==> (x in Keys(works, IdOf) || x == stored.id) && x != target.id
    ensures target.id in Keys(works, IdOf)
  {
    var i :| 0 <= i < |works| && works[i] == target;
    assert Keys(works, IdOf)[i] == target.id;
    SetKeys(works, IdOf, stored);
    DeleteKeys(Set(works, IdOf, stored), IdOf, target.id);
  }

  lemma {:induction false} GatherIds(r: Rules, publications: seq<Work>)
    ensures Distinct(Keys(Gather(r, publications), IdOf))
    ensures forall x | x in Keys(Gather(r, publications), IdOf) :: x in Keys(publications, IdOf)
    decreases |publications|
  {
    if publications != [] {
      var init, last := publications[..|publications| - 1], publications[|publications| - 1];
      GatherIds(r, init);
      var works := Gather(r, init);
      PlaceIds(r, works, last);
      GatherStep(publications, Keys(works, IdOf), Keys(PlaceWork(r, works, last), IdOf));
    }
  }

  lemma GatherStep(publications: seq<Work>, before: seq<string>, after: seq<string>)
    requires publications != []
    requires forall x | x in before :: x in Keys(publications[..|publications| - 1], IdOf)
    requires forall x | x in after :: x in before || x == publications[|publications| - 1].id
    ensures forall x | x in after :: x in Keys(publications, IdOf)
  {
    assert Keys(publications, IdOf)
        == Keys(publications[..|publications| - 1], IdOf) + [publications[|publications| - 1].id];
  }

  // ----- The event stream -----

  datatype Event = Result(work: Work) | RemoveResult(id: string, replacementId: Option<string>)

  predicate HoldsAll(w: Work, removed: Work) {
    forall v | v in removed.variants :: KeyOf(v) in Keys(w.variants, KeyOf)
  }

  function Replacement(works: seq<Work>, removed: Work): (w: Option<Work>)
    ensures w.Some? ==> w.value in works && HoldsAll(w.value, removed)
    ensures w.None? ==> forall x | x in works :: !HoldsAll(x, removed)
    decreases |works|
  {
    if works == [] then None
    else if HoldsAll(works[0], removed) then Some(works[0])
    else Replacement(works[1..], removed)
  }

  function Changed(previous: seq<Work>, works: seq<Work>): seq<Event>
    decreases |works|
  {
    if works == [] then []
    else
      var w := works[|works| - 1];
      Changed(previous, works[..|works| - 1])
      + if Get(previous, IdOf, w.id) != Some(w) then [Result(w)] else []
  }

  function Removal(works: seq<Work>, removed: Work): Event {
    var w := Replacement(works, removed);
    RemoveResult(removed.id, if w.Some? then Some(w.value.id) else None)
  }

  function Removed(previous: seq<Work>, works: seq<Work>): seq<Event>
    decreases |previous|
  {
    if previous == [] then []
    else
      var w := previous[|previous| - 1];
      Removed(previous[..|previous| - 1], works)
      + if w.id in Keys(works, IdOf) then [] else [Removal(works, w)]
  }

  function Difference(previous: seq<Work>, works: seq<Work>): seq<Event> {
    Changed(previous, works) + Removed(previous, works)
  }

  /** What a listener makes of the stream. */
  function Apply(view: map<string, Work>, e: Event): map<string, Work> {
    match e
    case Result(w) => view[w.id := w]
    case RemoveResult(id, _) => view - {id}
  }

  function Listen(view: map<string, Work>, events: seq<Event>): map<string, Work>
    decreases |events|
  {
    if events == [] then view
    else Apply(Listen(view, events[..|events| - 1]), events[|events| - 1])
  }

  function AsMap(works: seq<Work>): map<string, Work> {
    map k | k in Keys(works, IdOf) :: Get(works, IdOf, k).value
  }

  // ----- Accepting a publication -----

  predicate Accepts(r: Rules, queries: seq<string>, incoming: Work)
    requires queries != []
  {
    incoming.id != "" && incoming.title != "" && incoming.variants != []
    && r.yearMatches(queries[0], incoming)
    && exists q | q in queries :: r.matches(q, incoming)
  }

  function Publication(publications: seq<Work>, incoming: Work): (p: Work)
    ensures p.id == incoming.id
  {
    var previous := Get(publications, IdOf, incoming.id);
    MergeMetadata(previous, incoming)
    .(variants := Merge((if previous.Some? then previous.value.variants else []) + incoming.variants))
  }

  function Published(publications: seq<Work>, incoming: Work): seq<Work> {
    Set(publications, IdOf, Publication(publications, incoming))
  }
}
