/** Release versions of src/base/releaseupdater.cpp: parsing, precedence and the
    choice of the newest release. */
module Versions {
  import opened Strings
  import opened Wrappers

  datatype Version = Version(core: seq<string>, prerelease: seq<string>)

  predicate Digit(c: char) { '0' <= c <= '9' }

  predicate Numeric(s: string) {
    forall i | 0 <= i < |s| :: Digit(s[i])
  }

  predicate Letter(c: char) { Digit(c) || 'A' <= c <= 'Z' || 'a' <= c <= 'z' || c == '-' }

  /** 0|[1-9][0-9]* */
  predicate Natural(s: string) {
    s != "" && Numeric(s) && (|s| > 1 ==> s[0] != '0')
  }

  predicate Identifier(s: string) {
    s != "" && (forall i | 0 <= i < |s| :: Letter(s[i])) && (Numeric(s) ==> Natural(s))
  }

  predicate AllNatural(parts: seq<string>) {
    forall i | 0 <= i < |parts| :: Natural(parts[i])
  }

  predicate AllIdentifiers(parts: seq<string>) {
    forall i | 0 <= i < |parts| :: Identifier(parts[i])
  }

  predicate WellFormed(v: Version) {
    |v.core| == 3 && AllNatural(v.core) && AllIdentifiers(v.prerelease)
  }

  function Suffix(v: Version): string {
    if v.prerelease == [] then "" else "-" + Join(v.prerelease, '.')
  }

  function Print(v: Version): string {
    Join(v.core, '.') + Suffix(v)
  }

  // ----- Parsing -----

  /** Where the core ends: at the first hyphen. */
  function CoreLength(s: string): (n: nat)
    ensures n <= |s| && Free(s[..n], '-')
    ensures n < |s| ==> s[n] == '-'
  {
    if s == [] || s[0] == '-' then 0 else 1 + CoreLength(s[1..])
  }

  function ParseLine(s: string): (v: Option<Version>)
    ensures v.Some? ==> WellFormed(v.value)
  {
    var n := CoreLength(s);
    var core := Split(s[..n], '.');
    var prerelease := if n < |s| then Split(s[n + 1..], '.') else [];
    if |core| == 3 && AllNatural(core) && AllIdentifiers(prerelease)
    then Some(Version(core, prerelease))
    else None
  }

  /** The anchored pattern: its `$` also matches before one final line feed. */
  function Line(text: string): string {
    if text != "" && text[|text| - 1] == '\n' then text[..|text| - 1] else text
  }

  function Parse(text: string): (v: Option<Version>)
    ensures v.Some? ==> WellFormed(v.value)
  {
    if |text| > 128 then None else ParseLine(Line(text))
  }

  lemma {:induction false} JoinLetters(parts: seq<string>, c: char)
    requires forall i | 0 <= i < |parts| :: c !in parts[i]
    requires c != '.'
    ensures c !in Join(parts, '.')
  {
    if |parts| > 1 {
      JoinLetters(parts[1..], c);
    }
  }

  lemma {:induction false} CoreLengthAt(core: string, rest: string)
    requires '-' !in core && (rest == "" || rest[0] == '-')
    ensures CoreLength(core + rest) == |core|
  {
    if core != "" {
      CoreLengthAt(core[1..], rest);
      assert (core + rest)[1..] == core[1..] + rest;
    } else {
      assert core + rest == rest;
    }
  }

  lemma PrintsPlain(v: Version)
    requires WellFormed(v)
    ensures '\n' !in Print(v) && '-' !in Join(v.core, '.')
    ensures AllFree(v.core, '.') && AllFree(v.prerelease, '.')
  {
    JoinLetters(v.core, '\n');
    JoinLetters(v.core, '-');
    JoinLetters(v.prerelease, '\n');
  }

  lemma LineParses(v: Version)
    requires WellFormed(v)
    ensures ParseLine(Print(v)) == Some(v)
  {
    PrintsPlain(v);
    var s, core := Print(v), Join(v.core, '.');
    assert s == core + Suffix(v);
    CoreLengthAt(core, Suffix(v));
    assert s[..|core|] == core;
    SplitJoin(v.core, '.');
    if v.prerelease != [] {
      assert s[|core| + 1..] == Join(v.prerelease, '.');
      SplitJoin(v.prerelease, '.');
    }
  }

  lemma LinePrints(s: string)
    requires ParseLine(s).Some?
    ensures s == Print(ParseLine(s).value)
  {
    var n := CoreLength(s);
    var core, prerelease := Split(s[..n], '.'), if n < |s| then Split(s[n + 1..], '.') else [];
    assert ParseLine(s).value == Version(core, prerelease);
    JoinSplit(s[..n], '.');
    if n < |s| { JoinSplit(s[n + 1..], '.'); }
    CutPrints(s, n, Version(core, prerelease));
  }

  lemma CutPrints(s: string, n: nat, v: Version)
    requires n <= |s| && Join(v.core, '.') == s[..n]
    requires n < |s| ==> s[n] == '-' && v.prerelease != [] && Join(v.prerelease, '.') == s[n + 1..]
    requires n == |s| ==> v.prerelease == []
    ensures s == Print(v)
  {
    assert s == s[..n] + s[n..];
    if n < |s| { assert s[n..] == "-" + s[n + 1..]; }
  }

  /** Parsing is exact: a text is accepted precisely when it prints a version,
      but for one line feed at its end. */
  lemma ParseExact(text: string, v: Version)
    ensures Parse(text) == Some(v)
       <==> WellFormed(v) && |text| <= 128 && (text == Print(v) || text == Print(v) + "\n")
  {
    assert text == Line(text) || text == Line(text) + "\n";
    if Parse(text) == Some(v) { LinePrints(Line(text)); }
    if WellFormed(v) && (text == Print(v) || text == Print(v) + "\n") {
      PrintsPlain(v);
      assert Line(text) == Print(v);
      LineParses(v);
    }
  }

  // ----- Comparison -----

  function CompareText(a: string, b: string): int {
    if a == b then 0 else if Less(a, b) then -1 else 1
  }

  function CompareIdentifier(a: string, b: string): int {
    if Numeric(a) != Numeric(b) then (if Numeric(a) then -1 else 1)
    else if Numeric(a) && |a| != |b| then (if |a| < |b| then -1 else 1)
    else CompareText(a, b)
  }

  /** Left to right, then the shorter list first. */
  function CompareLists(a: seq<string>, b: seq<string>): int {
    if a == [] || b == [] then (if |a| > |b| then 1 else if |a| < |b| then -1 else 0)
    else if CompareIdentifier(a[0], b[0]) != 0 then CompareIdentifier(a[0], b[0])
    else CompareLists(a[1..], b[1..])
  }

  function CompareVersion(a: Version, b: Version): int
    requires |a.core| == 3 && |b.core| == 3
  {
    if CompareIdentifier(a.core[0], b.core[0]) != 0 then CompareIdentifier(a.core[0], b.core[0])
    else if CompareIdentifier(a.core[1], b.core[1]) != 0 then CompareIdentifier(a.core[1], b.core[1])
    else if CompareIdentifier(a.core[2], b.core[2]) != 0 then CompareIdentifier(a.core[2], b.core[2])
    else if (a.prerelease == []) != (b.prerelease == []) then (if a.prerelease == [] then 1 else -1)
    else CompareLists(a.prerelease, b.prerelease)
  }

  lemma IdentifierOrder(a: string, b: string)
    ensures CompareIdentifier(a, b) == -CompareIdentifier(b, a)
    ensures CompareIdentifier(a, b) == 0 <==> a == b
  {
    LessTotal(a, b);
    if a != b && Less(a, b) { LessAsymmetric(a, b); }
    if a != b && Less(b, a) { LessAsymmetric(b, a); }
  }

  lemma IdentifierTransitive(a: string, b: string, c: string)
    requires CompareIdentifier(a, b) < 0 && CompareIdentifier(b, c) < 0
    ensures CompareIdentifier(a, c) < 0
  {
    if Less(a, b) && Less(b, c) {
      LessTransitive(a, b, c);
      LessAsymmetric(a, c);
    }
  }

  lemma {:induction false} ListOrder(a: seq<string>, b: seq<string>)
    ensures CompareLists(a, b) == -CompareLists(b, a)
    ensures CompareLists(a, b) == 0 <==> a == b
  {
    if a != [] && b != [] {
      IdentifierOrder(a[0], b[0]);
      ListOrder(a[1..], b[1..]);
      assert a == [a[0]] + a[1..] && b == [b[0]] + b[1..];
    }
  }

  lemma {:induction false} ListTransitive(a: seq<string>, b: seq<string>, c: seq<string>)
    requires CompareLists(a, b) < 0 && CompareLists(b, c) < 0
    ensures CompareLists(a, c) < 0
  {
    if a != [] && b != [] && c != [] {
      IdentifierOrder(a[0], b[0]);
      IdentifierOrder(b[0], c[0]);
      IdentifierOrder(a[0], c[0]);
      if a[0] == b[0] == c[0] {
        ListTransitive(a[1..], b[1..], c[1..]);
      } else if a[0] != b[0] && b[0] != c[0] {
        IdentifierTransitive(a[0], b[0], c[0]);
      }
    }
  }

  /** A version as one list, so that its order is that of lists. "~" stands for a
      missing prerelease: no identifier that is parsed is above it. */
  function Flat(v: Version): seq<string> {
    v.core + if v.prerelease == [] then ["~"] else v.prerelease
  }

  lemma ListHead(a: seq<string>, b: seq<string>)
    requires a != [] && b != []
    ensures CompareLists(a, b)
         == if CompareIdentifier(a[0], b[0]) != 0 then CompareIdentifier(a[0], b[0]) else CompareLists(a[1..], b[1..])
  {
  }

  lemma BelowTilde(s: string)
    requires Identifier(s)
    ensures CompareIdentifier(s, "~") == -1 && CompareIdentifier("~", s) == 1
  {
    assert !Numeric("~") by { assert !Digit("~"[0]); }
    assert Letter(s[0]);
    assert Less(s, "~");
    IdentifierOrder(s, "~");
  }

  lemma FlatOrder(a: Version, b: Version)
    requires WellFormed(a) && WellFormed(b)
    ensures CompareVersion(a, b) == CompareLists(Flat(a), Flat(b))
    ensures Flat(a) == Flat(b) <==> a == b
  {
    var x, y := Flat(a), Flat(b);
    ListHead(x, y);
    ListHead(x[1..], y[1..]);
    ListHead(x[2..], y[2..]);
    assert x[1..][1..] == x[2..] && y[1..][1..] == y[2..];
    assert x[2..][1..] == x[3..] && y[2..][1..] == y[3..];
    var p, q := x[3..], y[3..];
    assert p == if a.prerelease == [] then ["~"] else a.prerelease;
    assert q == if b.prerelease == [] then ["~"] else b.prerelease;
    assert x[..3] == a.core && y[..3] == b.core;
    ListHead(p, q);
    if a.prerelease == [] && b.prerelease != [] { BelowTilde(q[0]); }
    if a.prerelease != [] && b.prerelease == [] { BelowTilde(p[0]); }
    if a.prerelease == [] && b.prerelease == [] { ListOrder(p, q); }
  }

  /** A total order: antisymmetric, zero only for equal versions, transitive. */
  lemma VersionOrder(a: Version, b: Version)
    requires WellFormed(a) && WellFormed(b)
    ensures CompareVersion(a, b) == -CompareVersion(b, a)
    ensures CompareVersion(a, b) == 0 <==> a == b
  {
    FlatOrder(a, b);
    FlatOrder(b, a);
    ListOrder(Flat(a), Flat(b));
  }

  lemma VersionTransitive(a: Version, b: Version, c: Version)
    requires WellFormed(a) && WellFormed(b) && WellFormed(c)
    requires CompareVersion(a, b) <= 0 && CompareVersion(b, c) <= 0
    ensures CompareVersion(a, c) <= 0
    ensures CompareVersion(a, b) < 0 || CompareVersion(b, c) < 0 ==> CompareVersion(a, c) < 0
  {
    FlatOrder(a, b);
    FlatOrder(b, c);
    FlatOrder(a, c);
    ListOrder(Flat(a), Flat(b));
    ListOrder(Flat(b), Flat(c));
    if CompareVersion(a, b) < 0 && CompareVersion(b, c) < 0 {
      ListTransitive(Flat(a), Flat(b), Flat(c));
    }
  }

  // ----- Agreement with item 11 of Semantic Versioning 2.0.0 -----

  function Value(s: string): nat
    requires Numeric(s)
  {
    if s == "" then 0 else 10 * Value(s[..|s| - 1]) + (s[|s| - 1] - '0') as nat
  }

  function Ten(n: nat): (p: nat)
    ensures p > 0
  {
    if n == 0 then 1 else 10 * Ten(n - 1)
  }

  lemma {:induction false} ValueBounds(s: string)
    requires Numeric(s)
    ensures Value(s) < Ten(|s|)
    ensures s != "" && s[0] != '0' ==> Value(s) >= Ten(|s| - 1)
  {
    if |s| > 1 {
      ValueBounds(s[..|s| - 1]);
    }
  }

  lemma {:induction false} TenGrows(m: nat, n: nat)
    requires m <= n
    ensures Ten(m) <= Ten(n)
  {
    if m < n { TenGrows(m, n - 1); }
  }

  /** Digit strings of one length compare like their first difference. */
  lemma {:induction false} SameLength(a: string, b: string)
    requires Numeric(a) && Numeric(b) && |a| == |b|
    ensures Less(a, b) <==> Value(a) < Value(b)
    ensures a == b <==> Value(a) == Value(b)
  {
    if a != "" {
      var n := |a| - 1;
      SameLength(a[..n], b[..n]);
      LessLast(a[..n], a[n], b[..n], b[n]);
      assert a == a[..n] + [a[n]] && b == b[..n] + [b[n]];
    }
  }

  lemma {:induction false} LessLast(a: string, x: char, b: string, y: char)
    requires |a| == |b|
    ensures Less(a + [x], b + [y]) <==> Less(a, b) || (a == b && x < y)
  {
    if a == "" {
      assert (a + [x])[1..] == "" && (b + [y])[1..] == "";
    } else {
      LessLast(a[1..], x, b[1..], y);
      assert (a + [x])[1..] == a[1..] + [x] && (b + [y])[1..] == b[1..] + [y];
      assert a == [a[0]] + a[1..] && b == [b[0]] + b[1..];
    }
  }

  /** Numbers of any length compare as integers. */
  lemma NumbersCompare(a: string, b: string)
    requires Natural(a) && Natural(b)
    ensures CompareIdentifier(a, b) < 0 <==> Value(a) < Value(b)
    ensures CompareIdentifier(a, b) == 0 <==> Value(a) == Value(b)
  {
    IdentifierOrder(a, b);
    ValueBounds(a);
    ValueBounds(b);
    if |a| == |b| {
      SameLength(a, b);
      LessIrreflexive(a);
    } else if |a| < |b| {
      TenGrows(|a|, |b| - 1);
    } else {
      TenGrows(|b|, |a| - 1);
    }
  }

  /** Items 11.4.1 to 11.4.3. */
  predicate IdentifierBelow(a: string, b: string)
    requires Identifier(a) && Identifier(b)
  {
    if Numeric(a) && Numeric(b) then Value(a) < Value(b)
    else if Numeric(a) then true
    else if Numeric(b) then false
    else Less(a, b)
  }

  /** Items 11.4 and 11.4.4: the first difference decides, else the length. */
  predicate PrereleaseBelow(a: seq<string>, b: seq<string>)
    requires AllIdentifiers(a) && AllIdentifiers(b)
  {
    (exists i | 0 <= i < |a| && i < |b| :: a[..i] == b[..i] && IdentifierBelow(a[i], b[i]))
    || (|a| < |b| && a == b[..|a|])
  }

  /** Items 11.2 and 11.3. */
  predicate Precedes(a: Version, b: Version)
    requires WellFormed(a) && WellFormed(b)
  {
    (exists i | 0 <= i < 3 :: a.core[..i] == b.core[..i] && Value(a.core[i]) < Value(b.core[i]))
    || (a.core == b.core
        && if a.prerelease == [] then false
           else b.prerelease == [] || PrereleaseBelow(a.prerelease, b.prerelease))
  }

  lemma BelowCompares(a: string, b: string)
    requires Identifier(a) && Identifier(b)
    ensures CompareIdentifier(a, b) < 0 <==> IdentifierBelow(a, b)
  {
    if Numeric(a) && Numeric(b) { NumbersCompare(a, b); }
    LessIrreflexive(a);
  }

  lemma {:induction false} PrereleaseCompares(a: seq<string>, b: seq<string>)
    requires AllIdentifiers(a) && AllIdentifiers(b)
    ensures CompareLists(a, b) < 0 <==> PrereleaseBelow(a, b)
  {
    if a != [] && b != [] {
      IdentifierOrder(a[0], b[0]);
      BelowCompares(a[0], b[0]);
      if a[0] == b[0] {
        PrereleaseCompares(a[1..], b[1..]);
        PrereleaseTail(a, b);
      } else {
        assert a[..0] == b[..0];
        assert forall i | 0 < i <= |a| && i <= |b| :: a[..i][0] == a[0] && b[..i][0] == b[0];
      }
    }
  }

  lemma PrereleaseTail(a: seq<string>, b: seq<string>)
    requires AllIdentifiers(a) && AllIdentifiers(b)
    requires a != [] && b != [] && a[0] == b[0]
    ensures PrereleaseBelow(a, b) <==> PrereleaseBelow(a[1..], b[1..])
  {
    IdentifierOrder(a[0], b[0]);
    BelowCompares(a[0], b[0]);
    if PrereleaseBelow(a, b) { BelowThenTail(a, b); }
    if PrereleaseBelow(a[1..], b[1..]) { TailThenBelow(a, b); }
  }

  lemma BelowThenTail(a: seq<string>, b: seq<string>)
    requires AllIdentifiers(a) && AllIdentifiers(b) && a != [] && b != [] && a[0] == b[0]
    requires !IdentifierBelow(a[0], b[0]) && PrereleaseBelow(a, b)
    ensures PrereleaseBelow(a[1..], b[1..])
  {
    if i :| 0 <= i < |a| && i < |b| && a[..i] == b[..i] && IdentifierBelow(a[i], b[i]) {
      assert a[1..][..i - 1] == a[..i][1..] && b[1..][..i - 1] == b[..i][1..];
      assert IdentifierBelow(a[1..][i - 1], b[1..][i - 1]);
    } else {
      assert a[1..] == b[..|a|][1..] == b[1..][..|a| - 1];
    }
  }

  lemma TailThenBelow(a: seq<string>, b: seq<string>)
    requires AllIdentifiers(a) && AllIdentifiers(b) && a != [] && b != [] && a[0] == b[0]
    requires PrereleaseBelow(a[1..], b[1..])
    ensures PrereleaseBelow(a, b)
  {
    if i :| 0 <= i < |a| - 1 && i < |b| - 1 && a[1..][..i] == b[1..][..i] && IdentifierBelow(a[1..][i], b[1..][i]) {
      assert a[..i + 1] == [a[0]] + a[1..][..i] && b[..i + 1] == [b[0]] + b[1..][..i];
      assert IdentifierBelow(a[i + 1], b[i + 1]);
    } else {
      assert a == [a[0]] + a[1..] && b[..|a|] == [b[0]] + b[1..][..|a| - 1];
    }
  }

  /** The comparison is the precedence of the standard. */
  lemma CompareIsPrecedence(a: Version, b: Version)
    requires WellFormed(a) && WellFormed(b)
    ensures CompareVersion(a, b) < 0 <==> Precedes(a, b)
  {
    forall i | 0 <= i < 3
      ensures CompareIdentifier(a.core[i], b.core[i]) < 0 <==> Value(a.core[i]) < Value(b.core[i])
      ensures CompareIdentifier(a.core[i], b.core[i]) == 0 <==> a.core[i] == b.core[i]
    {
      NumbersCompare(a.core[i], b.core[i]);
      IdentifierOrder(a.core[i], b.core[i]);
    }
    assert a.core[..0] == b.core[..0];
    assert a.core[..1] == b.core[..1] <==> a.core[0] == b.core[0];
    assert a.core[..2] == b.core[..2] <==> a.core[0] == b.core[0] && a.core[1] == b.core[1] by {
      assert a.core[..2] == [a.core[0], a.core[1]] && b.core[..2] == [b.core[0], b.core[1]];
    }
    assert a.core == b.core <==> a.core[0] == b.core[0] && a.core[1] == b.core[1] && a.core[2] == b.core[2] by {
      assert a.core == [a.core[0], a.core[1], a.core[2]] && b.core == [b.core[0], b.core[1], b.core[2]];
    }
    PrereleaseCompares(a.prerelease, b.prerelease);
  }
}
