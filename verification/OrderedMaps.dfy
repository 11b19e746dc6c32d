/** A JavaScript Map whose keys can be read off its values: a list of values in
    insertion order. Also lists without repetition, as `new Set(...)` makes them. */
module OrderedMaps {
  import opened Wrappers

  // ----- Values without repetition, in the order of their first occurrence -----

  predicate Distinct<T(==)>(s: seq<T>) {
    forall i, j | 0 <= i < j < |s| :: s[i] != s[j]
  }

  function Add<T(==)>(m: seq<T>, x: T): seq<T> {
    if x in m then m else m + [x]
  }

  function Collect<T(==,!new)>(m: seq<T>, s: seq<T>): (r: seq<T>)
    ensures forall x :: x in r <==> x in m || x in s
    ensures Distinct(m) ==> Distinct(r)
    ensures m <= r
    decreases |s|
  {
    if s == [] then m
    else
      assert forall x :: x in s <==> x == s[0] || x in s[1..];
      Collect(Add(m, s[0]), s[1..])
  }

  function Unique<T(==,!new)>(s: seq<T>): (r: seq<T>)
    ensures Distinct(r) && forall x :: x in r <==> x in s
  {
    Collect([], s)
  }

  lemma {:induction false} CollectJoins<T(!new)>(m: seq<T>, a: seq<T>, b: seq<T>)
    ensures Collect(m, a + b) == Collect(Collect(m, a), b)
    decreases |a|
  {
    if a == [] {
      assert a + b == b;
    } else {
      assert (a + b)[1..] == a[1..] + b;
      CollectJoins(Add(m, a[0]), a[1..], b);
    }
  }

  /** Collecting what is already collected adds nothing new. */
  lemma {:induction false} CollectUnique<T(!new)>(m: seq<T>, s: seq<T>)
    ensures Collect(m, Unique(s)) == Collect(m, s)
    decreases |s|
  {
    if s != [] {
      var init, x := s[..|s| - 1], s[|s| - 1];
      assert s == init + [x];
      CollectUnique(m, init);
      CollectJoins(m, init, [x]);
      CollectJoins([], init, [x]);
      assert Unique(s) == Add(Unique(init), x);
      if x !in init { CollectJoins(m, Unique(init), [x]); }
    }
  }

  /** Lists may be united in any grouping; the order is the same. */
  lemma UniqueAssociative<T(!new)>(x: seq<T>, y: seq<T>, z: seq<T>)
    ensures Unique(Unique(x + y) + z) == Unique(x + Unique(y + z))
  {
    calc {
      Unique(Unique(x + y) + z);
    ==  { CollectJoins([], Unique(x + y), z); CollectUnique([], x + y); }
      Collect(Unique(x + y), z);
    ==  { CollectJoins([], x, y); CollectJoins(Unique(x), y, z); }
      Collect(Unique(x), y + z);
    ==  { CollectUnique(Unique(x), y + z); CollectJoins([], x, Unique(y + z)); }
      Unique(x + Unique(y + z));
    }
  }

  // ----- Maps -----

  type Key<!T> = T -> string

  function Keys<T>(m: seq<T>, key: Key<T>): (ks: seq<string>)
    ensures |ks| == |m| && forall i | 0 <= i < |m| :: ks[i] == key(m[i])
  {
    seq(|m|, i requires 0 <= i < |m| => key(m[i]))
  }

  lemma KeysHead<T>(m: seq<T>, key: Key<T>)
    requires m != []
    ensures Keys(m, key) == [key(m[0])] + Keys(m[1..], key)
  {
  }

  function Get<T>(m: seq<T>, key: Key<T>, k: string): (r: Option<T>)
    ensures r.Some? ==> r.value in m && key(r.value) == k
    ensures r.None? <==> k !in Keys(m, key)
  {
    if m == [] then None
    else if key(m[0]) == k then Some(m[0])
    else
      assert Keys(m, key) == [key(m[0])] + Keys(m[1..], key);
      Get(m[1..], key, k)
  }

  /** Map.set: in place when the key is known, at the end otherwise. */
  function Set<T>(m: seq<T>, key: Key<T>, v: T): seq<T> {
    if m == [] then [v]
    else if key(m[0]) == key(v) then [v] + m[1..]
    else [m[0]] + Set(m[1..], key, v)
  }

  /** Map.delete. */
  function Delete<T>(m: seq<T>, key: Key<T>, k: string): seq<T> {
    if m == [] then []
    else if key(m[0]) == k then m[1..]
    else [m[0]] + Delete(m[1..], key, k)
  }

  lemma SetHead<T>(m: seq<T>, key: Key<T>, v: T)
    requires m != []
    ensures key(m[0]) == key(v) ==> Set(m, key, v) == [v] + m[1..] && Keys(Set(m, key, v), key) == Keys(m, key)
    ensures key(m[0]) != key(v) ==>
              Set(m, key, v) == [m[0]] + Set(m[1..], key, v)
              && Keys(Set(m, key, v), key) == [key(m[0])] + Keys(Set(m[1..], key, v), key)
  {
    var after := Set(m, key, v);
    KeysHead(m, key);
    KeysHead(after, key);
    assert after[1..] == if key(m[0]) == key(v) then m[1..] else Set(m[1..], key, v);
  }

  lemma {:induction false} SetKeys<T>(m: seq<T>, key: Key<T>, v: T)
    ensures Keys(Set(m, key, v), key) == Add(Keys(m, key), key(v))
  {
    if m != [] {
      KeysHead(m, key);
      SetHead(m, key, v);
      if key(m[0]) != key(v) { SetKeys(m[1..], key, v); }
    }
  }

  lemma {:induction false} SetGet<T>(m: seq<T>, key: Key<T>, v: T, k: string)
    ensures Get(Set(m, key, v), key, k) == if k == key(v) then Some(v) else Get(m, key, k)
  {
    if m != [] {
      if key(m[0]) == key(v) {
        assert Set(m, key, v)[1..] == m[1..];
      } else {
        SetGet(m[1..], key, v, k);
        assert Set(m, key, v)[1..] == Set(m[1..], key, v);
      }
    }
  }

  lemma {:induction false} DeleteKeys<T>(m: seq<T>, key: Key<T>, k: string)
    requires Distinct(Keys(m, key))
    ensures Distinct(Keys(Delete(m, key, k), key))
    ensures forall x :: x in Keys(Delete(m, key, k), key) <==> x in Keys(m, key) && x != k
  {
    if m != [] {
      KeysHead(m, key);
      assert Distinct(Keys(m[1..], key)) by {
        forall i, j | 0 <= i < j < |m| - 1 ensures Keys(m[1..], key)[i] != Keys(m[1..], key)[j] {
          assert Keys(m, key)[i + 1] != Keys(m, key)[j + 1];
        }
      }
      assert key(m[0]) !in Keys(m[1..], key);
      if key(m[0]) != k {
        DeleteKeys(m[1..], key, k);
        KeysHead(Delete(m, key, k), key);
        assert Delete(m, key, k)[1..] == Delete(m[1..], key, k);
      }
    }
  }

  lemma {:induction false} DeleteGet<T>(m: seq<T>, key: Key<T>, k: string, x: string)
    requires Distinct(Keys(m, key))
    ensures Get(Delete(m, key, k), key, x) == if x == k then None else Get(m, key, x)
  {
    DeleteKeys(m, key, k);
    if m != [] {
      KeysHead(m, key);
      if key(m[0]) != k {
        forall i, j | 0 <= i < j < |m| - 1 ensures Keys(m[1..], key)[i] != Keys(m[1..], key)[j] {
          assert Keys(m, key)[i + 1] != Keys(m, key)[j + 1];
        }
        DeleteGet(m[1..], key, k, x);
        assert Delete(m, key, k)[1..] == Delete(m[1..], key, k);
      }
    }
  }
}
