/** mergeNotes and mergeVariants of components/content/results.ts. A Map is a
    list of entries with distinct keys in insertion order. */
module Variants {
  import opened OrderedMaps
  import opened Wrappers

  datatype Note = Note(text: string, url: string, author: Option<string>)

  datatype Transport = Torrent | Video | Book | Manga | File

  datatype PublicationKind = Full | Patch | Fix | Optional | ArchivePart | Upload

  /** The fields that the search code branches on, and all others by name. A
      property that is undefined is absent. */
  datatype Variant = Variant(
    sourceId: string,
    id: string,
    transport: Transport,
    kind: Option<PublicationKind>,
    seeders: Option<int>,
    duration: Option<int>,
    episode: Option<string>,
    season: Option<string>,
    fields: map<string, string>,
    notes: Option<seq<Note>>)

  function KeyOf(v: Variant): string { v.sourceId + ":" + v.id }

  // ----- Notes -----

  function Listed(n: Option<seq<Note>>): seq<Note> {
    if n.Some? then n.value else []
  }

  function MergeNotes(a: Option<seq<Note>>, b: Option<seq<Note>>): (r: seq<Note>)
    ensures Distinct(r)
    ensures forall x :: x in r <==> x in Listed(a) || x in Listed(b)
  {
    Unique(Listed(a) + Listed(b))
  }

  lemma MergeNotesAssociative(a: Option<seq<Note>>, b: Option<seq<Note>>, c: Option<seq<Note>>)
    ensures MergeNotes(Some(MergeNotes(a, b)), c) == MergeNotes(a, Some(MergeNotes(b, c)))
  {
    UniqueAssociative(Listed(a), Listed(b), Listed(c));
  }

  // ----- Variants -----

  function Newer<T>(was: Option<T>, now: Option<T>): Option<T> {
    if now.Some? then now else was
  }

  /** A repeated publication: every defined field of the later one wins, and the
      notes of both are kept. */
  function Overlay(a: Variant, b: Variant): Variant {
    Variant(b.sourceId, b.id, b.transport, Newer(a.kind, b.kind), Newer(a.seeders, b.seeders),
            Newer(a.duration, b.duration), Newer(a.episode, b.episode), Newer(a.season, b.season),
            a.fields + b.fields, Some(MergeNotes(a.notes, b.notes)))
  }

  lemma OverlayMaps(a: map<string, string>, b: map<string, string>, c: map<string, string>)
    ensures (a + b) + c == a + (b + c)
  {
  }

  lemma OverlayAssociative(a: Variant, b: Variant, c: Variant)
    ensures Overlay(Overlay(a, b), c) == Overlay(a, Overlay(b, c))
  {
    MergeNotesAssociative(a.notes, b.notes, c.notes);
    OverlayMaps(a.fields, b.fields, c.fields);
  }

  function Insert(m: seq<Variant>, v: Variant): seq<Variant> {
    var previous := Get(m, KeyOf, KeyOf(v));
    Set(m, KeyOf, if previous.Some? then Overlay(previous.value, v) else v)
  }

  function MergeInto(m: seq<Variant>, vs: seq<Variant>): seq<Variant>
    decreases |vs|
  {
    if vs == [] then m else MergeInto(Insert(m, vs[0]), vs[1..])
  }

  function Merge(vs: seq<Variant>): seq<Variant> { MergeInto([], vs) }

  method MergeVariants(variants: seq<Variant>) returns (merged: seq<Variant>)
    ensures merged == Merge(variants)
  {
    merged := [];
    assert variants[0..] == variants;
    for k := 0 to |variants|
      invariant MergeInto(merged, variants[k..]) == Merge(variants)
    {
      assert variants[k..][1..] == variants[k + 1..];
      var variant := variants[k];
      var previous := Get(merged, KeyOf, KeyOf(variant));
      merged := Set(merged, KeyOf, if previous.Some? then Overlay(previous.value, variant) else variant);
    }
  }

  // ----- Structure of the merge -----

  lemma {:induction false} MergeIntoJoins(m: seq<Variant>, a: seq<Variant>, b: seq<Variant>)
    ensures MergeInto(m, a + b) == MergeInto(MergeInto(m, a), b)
    decreases |a|
  {
    if a == [] {
      assert a + b == b;
    } else {
      assert (a + b)[1..] == a[1..] + b;
      MergeIntoJoins(Insert(m, a[0]), a[1..], b);
    }
  }

  lemma {:induction false} MergeIntoKeys(m: seq<Variant>, vs: seq<Variant>)
    ensures Keys(MergeInto(m, vs), KeyOf) == Collect(Keys(m, KeyOf), Keys(vs, KeyOf))
    decreases |vs|
  {
    if vs != [] {
      var previous := Get(m, KeyOf, KeyOf(vs[0]));
      SetKeys(m, KeyOf, if previous.Some? then Overlay(previous.value, vs[0]) else vs[0]);
      KeysHead(vs, KeyOf);
      assert Keys(vs, KeyOf)[1..] == Keys(vs[1..], KeyOf);
      MergeIntoKeys(Insert(m, vs[0]), vs[1..]);
    }
  }

  /** The publications with one key, in order. */
  function Occurrences(vs: seq<Variant>, key: string): (r: seq<Variant>)
    ensures r != [] <==> key in Keys(vs, KeyOf)
    ensures forall v | v in r :: KeyOf(v) == key
  {
    if vs == [] then []
    else
      assert vs == vs[..|vs| - 1] + [vs[|vs| - 1]];
      assert Keys(vs, KeyOf) == Keys(vs[..|vs| - 1], KeyOf) + [KeyOf(vs[|vs| - 1])];
      Occurrences(vs[..|vs| - 1], key)
      + if KeyOf(vs[|vs| - 1]) == key then [vs[|vs| - 1]] else []
  }

  function OverlayAll(vs: seq<Variant>): (v: Variant)
    requires vs != []
    ensures KeyOf(v) == KeyOf(vs[|vs| - 1])
  {
    if |vs| == 1 then vs[0] else Overlay(OverlayAll(vs[..|vs| - 1]), vs[|vs| - 1])
  }

  lemma InsertGet(m: seq<Variant>, v: Variant, key: string)
    ensures Get(Insert(m, v), KeyOf, key)
         == if key != KeyOf(v) then Get(m, KeyOf, key)
            else if Get(m, KeyOf, key).Some? then Some(Overlay(Get(m, KeyOf, key).value, v)) else Some(v)
  {
    var previous := Get(m, KeyOf, KeyOf(v));
    SetGet(m, KeyOf, if previous.Some? then Overlay(previous.value, v) else v, key);
  }

  lemma MergeSnoc(init: seq<Variant>, v: Variant)
    ensures Merge(init + [v]) == Insert(Merge(init), v)
  {
    MergeIntoJoins([], init, [v]);
  }

  lemma OccurrencesSnoc(init: seq<Variant>, v: Variant, key: string)
    ensures Occurrences(init + [v], key) == Occurrences(init, key) + if KeyOf(v) == key then [v] else []
  {
    assert (init + [v])[..|init|] == init;
  }

  lemma OverlaySnoc(past: seq<Variant>, v: Variant)
    ensures OverlayAll(past + [v]) == if past == [] then v else Overlay(OverlayAll(past), v)
  {
    assert (past + [v])[..|past|] == past;
  }

  lemma {:induction false} EntryExact(vs: seq<Variant>, key: string)
    ensures Get(Merge(vs), KeyOf, key)
         == if Occurrences(vs, key) == [] then None else Some(OverlayAll(Occurrences(vs, key)))
  {
    if vs == [] {
      assert Merge(vs) == [] && Occurrences(vs, key) == [];
    } else {
      var init, v := vs[..|vs| - 1], vs[|vs| - 1];
      var past := Occurrences(init, key);
      EntryExact(init, key);
      assert vs == init + [v];
      MergeSnoc(init, v);
      OccurrencesSnoc(init, v, key);
      InsertGet(Merge(init), v, key);
      if KeyOf(v) == key {
        OverlaySnoc(past, v);
        assert Occurrences(vs, key) == past + [v];
      } else {
        assert Occurrences(vs, key) == past;
      }
    }
  }

  lemma MergeKeys(vs: seq<Variant>)
    ensures Keys(Merge(vs), KeyOf) == Unique(Keys(vs, KeyOf))
  {
    MergeIntoKeys([], vs);
    assert Keys([], KeyOf) == [];
  }

  /** What a merge is: the keys in the order of first occurrence, each with all
      of its publications laid over one another. */
  lemma MergeExact(vs: seq<Variant>)
    ensures Keys(Merge(vs), KeyOf) == Unique(Keys(vs, KeyOf))
    ensures forall key | key in Keys(vs, KeyOf) ::
              Get(Merge(vs), KeyOf, key) == Some(OverlayAll(Occurrences(vs, key)))
  {
    MergeKeys(vs);
    forall key | key in Keys(vs, KeyOf)
      ensures Get(Merge(vs), KeyOf, key) == Some(OverlayAll(Occurrences(vs, key)))
    {
      EntryExact(vs, key);
    }
  }

  /** What repeated publications leave of one optional property: the latest value
      that was given. */
  ghost predicate Latest<T>(given: seq<Option<T>>, r: Option<T>) {
    if r.None? then forall i | 0 <= i < |given| :: given[i].None?
    else exists j :: 0 <= j < |given| && given[j] == r && forall i | j < i < |given| :: given[i].None?
  }

  function Each<T>(vs: seq<Variant>, f: Variant -> T): (r: seq<T>)
    ensures |r| == |vs| && forall i | 0 <= i < |vs| :: r[i] == f(vs[i])
  {
    seq(|vs|, i requires 0 <= i < |vs| => f(vs[i]))
  }

  lemma LatestSnoc<T>(given: seq<Option<T>>, was: Option<T>, now: Option<T>, all: seq<Option<T>>)
    requires all == given + [now] && Latest(given, was)
    ensures Latest(all, Newer(was, now))
  {
    if now.Some? {
      assert all[|given|] == now;
    } else if was.Some? {
      var j :| 0 <= j < |given| && given[j] == was && forall i | j < i < |given| :: given[i].None?;
      assert all[j] == was;
    }
  }

  function FieldOf(v: Variant, name: string): Option<string> {
    if name in v.fields then Some(v.fields[name]) else None
  }

  ghost predicate NewerWins<T>(f: Variant -> Option<T>) {
    forall a, b {:trigger Overlay(a, b)} :: f(Overlay(a, b)) == Newer(f(a), f(b))
  }

  lemma NewerWinsHere<T>(vs: seq<Variant>, f: Variant -> Option<T>)
    requires |vs| > 1 && NewerWins(f)
    ensures f(OverlayAll(vs)) == Newer(f(OverlayAll(vs[..|vs| - 1])), f(vs[|vs| - 1]))
  {
  }

  lemma EachSnoc<T>(vs: seq<Variant>, f: Variant -> T)
    requires vs != []
    ensures Each(vs, f) == Each(vs[..|vs| - 1], f) + [f(vs[|vs| - 1])]
  {
  }

  lemma LatestOne<T>(vs: seq<Variant>, f: Variant -> Option<T>)
    requires |vs| == 1
    ensures Latest(Each(vs, f), f(OverlayAll(vs)))
  {
    assert Each(vs, f)[0] == f(vs[0]);
  }

  lemma {:induction false} LatestProperty<T>(vs: seq<Variant>, f: Variant -> Option<T>)
    requires vs != [] && NewerWins(f)
    ensures Latest(Each(vs, f), f(OverlayAll(vs)))
    decreases |vs|
  {
    if |vs| == 1 {
      LatestOne(vs, f);
    } else {
      var init := vs[..|vs| - 1];
      LatestProperty(init, f);
      NewerWinsHere(vs, f);
      EachSnoc(vs, f);
      LatestSnoc(Each(init, f), f(OverlayAll(init)), f(vs[|vs| - 1]), Each(vs, f));
    }
  }

  /** The entry of a repeated publication has the latest given value of every
      property, by itself. */
  lemma LatestValuesWin(vs: seq<Variant>)
    requires vs != []
    ensures OverlayAll(vs).transport == vs[|vs| - 1].transport
    ensures Latest(Each(vs, (x: Variant) => x.kind), OverlayAll(vs).kind)
    ensures Latest(Each(vs, (x: Variant) => x.seeders), OverlayAll(vs).seeders)
    ensures Latest(Each(vs, (x: Variant) => x.duration), OverlayAll(vs).duration)
  {
    LatestProperty(vs, (x: Variant) => x.kind);
    LatestProperty(vs, (x: Variant) => x.seeders);
    LatestProperty(vs, (x: Variant) => x.duration);
  }

  lemma LatestLabelsWin(vs: seq<Variant>, name: string)
    requires vs != []
    ensures Latest(Each(vs, (x: Variant) => x.episode), OverlayAll(vs).episode)
    ensures Latest(Each(vs, (x: Variant) => x.season), OverlayAll(vs).season)
    ensures Latest(Each(vs, (x: Variant) => FieldOf(x, name)), FieldOf(OverlayAll(vs), name))
  {
    LatestProperty(vs, (x: Variant) => x.episode);
    LatestProperty(vs, (x: Variant) => x.season);
    FieldsLatest(vs, name);
  }

  lemma FieldsLatest(vs: seq<Variant>, name: string)
    requires vs != []
    ensures Latest(Each(vs, (x: Variant) => FieldOf(x, name)), FieldOf(OverlayAll(vs), name))
  {
    LatestProperty(vs, (x: Variant) => FieldOf(x, name));
  }

  // ----- Incremental merging -----

  /** Laying two publications over an entry at once or one after the other. */
  lemma {:induction false} InsertOverlay(m: seq<Variant>, a: Variant, b: Variant)
    requires KeyOf(a) == KeyOf(b)
    ensures Insert(m, Overlay(a, b)) == Insert(Insert(m, a), b)
  {
    if m != [] {
      if KeyOf(m[0]) == KeyOf(a) {
        OverlayAssociative(m[0], a, b);
        assert Insert(m, a) == [Overlay(m[0], a)] + m[1..];
        assert Insert(m, a)[1..] == m[1..];
      } else {
        InsertOverlay(m[1..], a, b);
        assert Insert(m, a) == [m[0]] + Insert(m[1..], a);
        assert Insert(m, a)[1..] == Insert(m[1..], a);
      }
    }
  }

  lemma {:induction false} InsertsCommute(m: seq<Variant>, a: Variant, b: Variant)
    requires KeyOf(a) in Keys(m, KeyOf) && KeyOf(a) != KeyOf(b)
    ensures Insert(Insert(m, a), b) == Insert(Insert(m, b), a)
  {
    KeysHead(m, KeyOf);
    InsertHead(m, a);
    InsertHead(m, b);
    if KeyOf(m[0]) == KeyOf(a) {
      InsertHead(Insert(m, a), b);
      InsertHead(Insert(m, b), a);
      assert Insert(m, a)[1..] == m[1..];
    } else if KeyOf(m[0]) == KeyOf(b) {
      InsertHead(Insert(m, a), b);
      InsertHead(Insert(m, b), a);
      assert Insert(m, b)[1..] == m[1..];
    } else {
      InsertsCommute(m[1..], a, b);
      InsertHead(Insert(m, a), b);
      InsertHead(Insert(m, b), a);
    }
  }

  lemma InsertHead(m: seq<Variant>, v: Variant)
    requires m != []
    ensures KeyOf(m[0]) == KeyOf(v) ==> Insert(m, v) == [Overlay(m[0], v)] + m[1..]
    ensures KeyOf(m[0]) != KeyOf(v) ==> Insert(m, v) == [m[0]] + Insert(m[1..], v)
    ensures Insert(m, v)[1..] == if KeyOf(m[0]) == KeyOf(v) then m[1..] else Insert(m[1..], v)
  {
  }

  lemma InsertKeeps(m: seq<Variant>, v: Variant)
    ensures Keys(Insert(m, v), KeyOf) == Add(Keys(m, KeyOf), KeyOf(v))
  {
    var previous := Get(m, KeyOf, KeyOf(v));
    SetKeys(m, KeyOf, if previous.Some? then Overlay(previous.value, v) else v);
  }

  /** An update of a known entry may wait until other keys have been merged. */
  lemma {:induction false} UpdateWaits(m: seq<Variant>, v: Variant, rest: seq<Variant>)
    requires KeyOf(v) in Keys(m, KeyOf) && KeyOf(v) !in Keys(rest, KeyOf)
    ensures MergeInto(Insert(m, v), rest) == Insert(MergeInto(m, rest), v)
    decreases |rest|
  {
    if rest != [] {
      KeysHead(rest, KeyOf);
      assert KeyOf(rest[0]) in Keys(rest, KeyOf);
      InsertsCommute(m, v, rest[0]);
      InsertKeeps(m, rest[0]);
      UpdateWaits(Insert(m, rest[0]), v, rest[1..]);
    }
  }

  lemma {:induction false} InsertMoves(p: seq<Variant>, m: seq<Variant>, v: Variant)
    requires Distinct(Keys(m, KeyOf))
    ensures MergeInto(p, Insert(m, v)) == Insert(MergeInto(p, m), v)
    decreases |m|
  {
    if m == [] {
      assert Insert(m, v) == [v];
      assert MergeInto(p, [v]) == MergeInto(Insert(p, v), []);
    } else {
      KeysHead(m, KeyOf);
      InsertHead(m, v);
      var p1 := Insert(p, m[0]);
      assert MergeInto(p, m) == MergeInto(p1, m[1..]);
      if KeyOf(m[0]) == KeyOf(v) {
        InsertOverlay(p, m[0], v);
        InsertKeeps(p, m[0]);
        assert KeyOf(v) !in Keys(m[1..], KeyOf);
        UpdateWaits(p1, v, m[1..]);
        assert Insert(m, v)[0] == Overlay(m[0], v);
      } else {
        InsertMoves(p1, m[1..], v);
        assert Insert(m, v)[0] == m[0];
      }
    }
  }

  lemma {:induction false} MergeIntoMerged(p: seq<Variant>, vs: seq<Variant>)
    ensures MergeInto(p, Merge(vs)) == MergeInto(p, vs)
    decreases |vs|
  {
    if vs != [] {
      var init, v := vs[..|vs| - 1], vs[|vs| - 1];
      assert vs == init + [v];
      MergeIntoMerged(p, init);
      MergeIntoJoins(p, init, [v]);
      MergeIntoJoins([], init, [v]);
      MergeExact(init);
      InsertMoves(p, Merge(init), v);
    }
  }

  /** Merging in parts, in either association, is merging at once: same key
      order, same fields, same notes. */
  lemma MergeIncrementally(a: seq<Variant>, b: seq<Variant>)
    ensures Merge(Merge(a) + b) == Merge(a + b)
    ensures Merge(a + Merge(b)) == Merge(a + b)
    ensures Merge(Merge(a)) == Merge(a)
  {
    MergeIntoJoins([], a, b);
    MergeIntoJoins([], Merge(a), b);
    MergeIntoMerged([], a);
    MergeIntoJoins([], a, Merge(b));
    MergeIntoMerged(Merge(a), b);
  }
}
