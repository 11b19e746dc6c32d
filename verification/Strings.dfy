/** The code-unit order of strings, which file listings, ordered sets and
    version identifiers all rely on. */
module Strings {

  predicate Less(a: string, b: string) {
    |b| > 0 && (|a| == 0 || a[0] < b[0] || (a[0] == b[0] && Less(a[1..], b[1..])))
  }

  lemma LessIrreflexive(a: string)
    ensures !Less(a, a)
  {
  }

  lemma {:induction false} LessTotal(a: string, b: string)
    ensures Less(a, b) || a == b || Less(b, a)
  {
    if |a| > 0 && |b| > 0 && a[0] == b[0] {
      LessTotal(a[1..], b[1..]);
      if a[1..] == b[1..] {
        assert a == [a[0]] + a[1..];
        assert b == [b[0]] + b[1..];
      }
    }
  }

  lemma {:induction false} LessTransitive(a: string, b: string, c: string)
    requires Less(a, b) && Less(b, c)
    ensures Less(a, c)
  {
    if |a| > 0 && a[0] == b[0] == c[0] {
      LessTransitive(a[1..], b[1..], c[1..]);
    }
  }

  lemma LessAsymmetric(a: string, b: string)
    requires Less(a, b)
    ensures !Less(b, a) && a != b
  {
    LessIrreflexive(a);
    if Less(b, a) {
      LessTransitive(a, b, a);
    }
  }

  /** Everything that begins with `prefix` sorts at or after it, and anything
      between the prefix and one of its extensions is an extension too. */
  lemma {:induction false} PrefixInterval(prefix: string, middle: string, extension: string)
    requires prefix <= extension
    requires !Less(middle, prefix) && !Less(extension, middle)
    ensures prefix <= middle
  {
    LessTotal(middle, prefix);
    if prefix != [] {
      assert middle != [];
      assert middle[0] == prefix[0] by {
        assert extension[0] == prefix[0];
      }
      assert prefix[1..] <= extension[1..];
      PrefixInterval(prefix[1..], middle[1..], extension[1..]);
      assert middle == [middle[0]] + middle[1..];
    }
  }

  lemma {:induction false} PrefixNotAfter(prefix: string, extension: string)
    requires prefix <= extension
    ensures !Less(extension, prefix)
  {
    if prefix != [] {
      PrefixNotAfter(prefix[1..], extension[1..]);
    }
  }

  // ----- Splitting at a separator -----

  predicate Free(s: string, c: char) { c !in s }

  predicate AllFree(parts: seq<string>, c: char) {
    forall i | 0 <= i < |parts| :: Free(parts[i], c)
  }

  /** QString::split: always at least one part. */
  function Split(s: string, c: char): (parts: seq<string>)
    ensures parts != [] && AllFree(parts, c)
  {
    if s == [] then [""]
    else
      var rest := Split(s[1..], c);
      if s[0] == c then [""] + rest else [[s[0]] + rest[0]] + rest[1..]
  }

  /** QStringList::join. */
  function Join(parts: seq<string>, c: char): string {
    if parts == [] then ""
    else if |parts| == 1 then parts[0]
    else parts[0] + [c] + Join(parts[1..], c)
  }

  lemma {:induction false} JoinSplit(s: string, c: char)
    ensures Join(Split(s, c), c) == s
  {
    if s != [] {
      var rest := Split(s[1..], c);
      JoinSplit(s[1..], c);
      var parts := Split(s, c);
      if s[0] == c {
        assert parts[1..] == rest;
      } else {
        assert parts[1..] == rest[1..];
      }
      assert s == [s[0]] + s[1..];
    }
  }

  lemma {:induction false} SplitFree(s: string, c: char)
    requires Free(s, c)
    ensures Split(s, c) == [s]
  {
    if s != [] {
      SplitFree(s[1..], c);
      assert s == [s[0]] + s[1..];
    }
  }

  lemma {:induction false} SplitFirst(s: string, c: char, rest: string)
    requires Free(s, c)
    ensures Split(s + [c] + rest, c) == [s] + Split(rest, c)
  {
    var all := s + [c] + rest;
    if s == [] {
      assert all[1..] == rest;
    } else {
      SplitFirst(s[1..], c, rest);
      assert all[1..] == s[1..] + [c] + rest;
      assert s == [s[0]] + s[1..];
    }
  }

  lemma {:induction false} SplitJoin(parts: seq<string>, c: char)
    requires parts != [] && AllFree(parts, c)
    ensures Split(Join(parts, c), c) == parts
  {
    if |parts| == 1 {
      SplitFree(parts[0], c);
    } else {
      SplitJoin(parts[1..], c);
      SplitFirst(parts[0], c, Join(parts[1..], c));
    }
  }

  lemma Associates<T>(a: seq<T>, b: seq<T>, c: seq<T>)
    ensures a + (b + c) == (a + b) + c
  {
  }
}
