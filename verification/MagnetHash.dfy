/** magnetHash of components/content/results.ts: one key for every spelling of a
    torrent hash. The base32 loop works in a 32-bit accumulator that overflows. */
module MagnetHash {
  import opened Wrappers

  /** What a variant says about its hash: an explicit field, and the `xt`
      parameters of its magnet link when the link parses. */
  datatype Links = Links(infoHash: string, xt: Option<seq<string>>)

  const WORD := 0x1_0000_0000

  function Lower(c: char): char {
    if 'A' <= c <= 'Z' then c - 'A' + 'a' else c
  }

  function LowerAll(s: string): (r: string)
    ensures |r| == |s| && forall i | 0 <= i < |s| :: r[i] == Lower(s[i])
  {
    seq(|s|, i requires 0 <= i < |s| => Lower(s[i]))
  }

  predicate LowerHex(c: char) { '0' <= c <= '9' || 'a' <= c <= 'f' }

  predicate AllHex(s: string) {
    forall i | 0 <= i < |s| :: LowerHex(Lower(s[i]))
  }

  predicate HexText(s: string) {
    forall i | 0 <= i < |s| :: LowerHex(s[i])
  }

  predicate Letter32(c: char) { 'a' <= c <= 'z' || '2' <= c <= '7' }

  predicate All32(s: string) {
    forall i | 0 <= i < |s| :: Letter32(s[i])
  }

  /** alphabet.indexOf in "abcdefghijklmnopqrstuvwxyz234567". */
  function Digit32(c: char): (d: nat)
    requires Letter32(c)
    ensures d < 32
  {
    if 'a' <= c <= 'z' then (c - 'a') as nat else (c - '2') as nat + 26
  }

  function Digit16(c: char): (d: nat)
    requires LowerHex(c)
    ensures d < 16
  {
    if c <= '9' then (c - '0') as nat else (c - 'a') as nat + 10
  }

  function Hex(d: nat): (c: char)
    requires d < 16
    ensures LowerHex(c) && Digit16(c) == d
  {
    if d < 10 then '0' + d as char else 'a' + (d - 10) as char
  }

  // ----- Positional values, most significant digit first -----

  function Value32(s: string): nat
    requires All32(s)
  {
    if s == [] then 0 else 32 * Value32(s[..|s| - 1]) + Digit32(s[|s| - 1])
  }

  function Value16(s: string): nat
    requires HexText(s)
  {
    if s == [] then 0 else 16 * Value16(s[..|s| - 1]) + Digit16(s[|s| - 1])
  }

  predicate Bytes(b: seq<nat>) {
    forall i | 0 <= i < |b| :: b[i] < 256
  }

  function Value256(b: seq<nat>): nat {
    if b == [] then 0 else 256 * Value256(b[..|b| - 1]) + b[|b| - 1]
  }

  /** Buffer.toString("hex"). */
  function HexString(b: seq<nat>): (s: string)
    requires Bytes(b)
    ensures |s| == 2 * |b| && HexText(s)
  {
    if b == [] then ""
    else
      HexString(b[..|b| - 1]) + [Hex(b[|b| - 1] / 16), Hex(b[|b| - 1] % 16)]
  }

  /** The big-endian bytes of a number. */
  function BytesOf(v: nat, n: nat): (b: seq<nat>)
    ensures |b| == n && Bytes(b)
  {
    if n == 0 then [] else BytesOf(v / 256, n - 1) + [v % 256]
  }

  lemma {:induction false} BytesUnique(b: seq<nat>, v: nat)
    requires Bytes(b) && Value256(b) == v
    ensures b == BytesOf(v, |b|)
  {
    if b != [] {
      var init, last := b[..|b| - 1], b[|b| - 1];
      assert v / 256 == Value256(init) && v % 256 == last;
      BytesUnique(init, v / 256);
      assert b == init + [last];
    }
  }

  lemma {:induction false} HexValue(b: seq<nat>)
    requires Bytes(b)
    ensures Value16(HexString(b)) == Value256(b)
  {
    if b != [] {
      var init, last := b[..|b| - 1], b[|b| - 1];
      HexValue(init);
      var s := HexString(b);
      var s1 := s[..|s| - 1];
      assert s1 == HexString(init) + [Hex(last / 16)];
      assert s1[..|s1| - 1] == HexString(init);
      assert Value16(s1) == 16 * Value16(HexString(init)) + last / 16;
      assert Value16(s) == 16 * Value16(s1) + last % 16;
    }
  }

  lemma LastDigit(s: string)
    requires s != "" && HexText(s)
    ensures HexText(s[..|s| - 1]) && LowerHex(s[|s| - 1])
    ensures Value16(s) / 16 == Value16(s[..|s| - 1]) && Value16(s) % 16 == Digit16(s[|s| - 1])
  {
  }

  lemma SameDigit(a: char, b: char)
    requires LowerHex(a) && LowerHex(b) && Digit16(a) == Digit16(b)
    ensures a == b
  {
  }

  lemma SameInit(s: string, t: string)
    requires s != "" && |s| == |t| && s[..|s| - 1] == t[..|t| - 1] && s[|s| - 1] == t[|t| - 1]
    ensures s == t
  {
    assert s == s[..|s| - 1] + [s[|s| - 1]];
  }

  lemma {:induction false} HexUnique(s: string, t: string)
    requires |s| == |t| && HexText(s) && HexText(t)
    requires Value16(s) == Value16(t)
    ensures s == t
  {
    if s != "" {
      LastDigit(s);
      LastDigit(t);
      HexUnique(s[..|s| - 1], t[..|t| - 1]);
      SameDigit(s[|s| - 1], t[|t| - 1]);
      SameInit(s, t);
    }
  }

  // ----- The accumulator loop -----

  /** m << k. */
  function Scale(m: nat, k: nat): nat { if k == 0 then m else 2 * Scale(m, k - 1) }

  /** v >>> k. */
  function Shift(v: nat, k: nat): nat
    decreases k
  {
    if k == 0 then v else Shift(v / 2, k - 1)
  }

  lemma {:induction false} ShiftTwice(v: nat, j: nat, k: nat)
    ensures Shift(v, j + k) == Shift(Shift(v, j), k)
    decreases j
  {
    if j > 0 { ShiftTwice(v / 2, j - 1, k); }
  }

  lemma {:induction false} ShiftSum(v: nat, m: nat, k: nat)
    ensures Shift(v + Scale(m, k), k) == Shift(v, k) + m
    decreases k
  {
    if k > 0 {
      assert (v + 2 * Scale(m, k - 1)) / 2 == v / 2 + Scale(m, k - 1);
      ShiftSum(v / 2, m, k - 1);
    }
  }

  lemma ShiftFive(v: nat, d: nat)
    requires d < 32
    ensures Shift(32 * v + d, 5) == v
  {
    assert Shift(d, 5) == 0;
    assert Scale(v, 1) == 2 * v && Scale(v, 2) == 2 * Scale(v, 1) && Scale(v, 3) == 2 * Scale(v, 2);
    assert Scale(v, 4) == 2 * Scale(v, 3) && Scale(v, 5) == 2 * Scale(v, 4);
    ShiftSum(d, v, 5);
  }

  /** Five more bits below the ones already emitted. */
  lemma ShiftIn(v: nat, d: nat, bits: nat)
    requires d < 32
    ensures Shift(32 * v + d, bits + 5) == Shift(v, bits)
    ensures bits >= 3 ==> Shift(32 * v + d, bits - 3) / 256 == Shift(v, bits)
  {
    ShiftFive(v, d);
    ShiftTwice(32 * v + d, 5, bits);
    if bits >= 3 {
      ShiftTwice(32 * v + d, bits - 3, 8);
      ShiftEight(Shift(32 * v + d, bits - 3));
    }
  }

  lemma ShiftEight(x: nat)
    ensures Shift(x, 8) == x / 256
  {
    ShiftTwice(x, 4, 4);
    assert Shift(x, 4) == x / 16;
    assert Shift(x / 16, 4) == x / 16 / 16;
  }

  /** Overflow never reaches the byte that is taken. */
  lemma {:induction false} LowBytesSurvive(v: nat, bits: nat)
    requires bits < 8
    ensures Shift(v % WORD, bits) % 256 == Shift(v, bits) % 256
    decreases v
  {
    if v >= WORD {
      LowBytesSurvive(v - WORD, bits);
      WordPeriod(v - WORD);
      OneWordMore(v - WORD, bits);
    }
  }

  lemma WordPeriod(v: nat)
    ensures (v + WORD) % WORD == v % WORD
  {
  }

  lemma OneWordMore(v: nat, bits: nat)
    requires bits < 8
    ensures Shift(v + WORD, bits) % 256 == Shift(v, bits) % 256
  {
    var m := WordsAreHigh(bits);
    ShiftSum(v, m, bits);
    WholeBytes(Shift(v, bits), m);
  }

  lemma WholeBytes(x: nat, m: nat)
    requires m % 256 == 0
    ensures (x + m) % 256 == x % 256
  {
  }

  lemma WordsAreHigh(bits: nat) returns (m: nat)
    requires bits < 8
    ensures m % 256 == 0 && Scale(m, bits) == WORD
  {
    match bits
    case 0 => m := 0x1_0000_0000;
    case 1 => m := 0x8000_0000;
    case 2 => m := 0x4000_0000;
    case 3 => m := 0x2000_0000;
    case 4 => m := 0x1000_0000; assert Scale(m, 2) == 0x4000_0000;
    case 5 => m := 0x800_0000; assert Scale(m, 3) == 0x4000_0000;
    case 6 => m := 0x400_0000; assert Scale(m, 3) == 0x2000_0000;
    case 7 => m := 0x200_0000; assert Scale(m, 3) == 0x1000_0000;
  }

  lemma WordStep(v: nat, d: nat)
    ensures (v % WORD * 32 + d) % WORD == (32 * v + d) % WORD
  {
    assert 32 * v + d == (v / WORD) * 32 * WORD + (v % WORD * 32 + d);
    assert ((v / WORD) * 32 * WORD + (v % WORD * 32 + d)) % WORD == (v % WORD * 32 + d) % WORD by {
      ModMultiple((v / WORD) * 32, v % WORD * 32 + d);
    }
  }

  lemma {:induction false} ModMultiple(k: nat, r: nat)
    ensures (k * WORD + r) % WORD == r % WORD
  {
    if k > 0 { ModMultiple(k - 1, r); }
  }

  /** One turn of the loop, on the number v spelt so far: the accumulator keeps
      its low 32 bits, and a byte that is taken is the next byte of the number. */
  lemma Turn(v: nat, d: nat, bits: nat)
    requires d < 32 && bits < 8
    ensures var n, a := 32 * v + d, (v % WORD * 32 + d) % WORD;
            && a == n % WORD
            && Shift(n, bits + 5) == Shift(v, bits)
            && (bits >= 3 ==> Shift(n, bits - 3) == 256 * Shift(v, bits) + Shift(a, bits - 3) % 256)
  {
    WordStep(v, d);
    ShiftIn(v, d, bits);
    if bits >= 3 { LowBytesSurvive(32 * v + d, bits - 3); }
  }

  lemma ValueSnoc(bytes: seq<nat>, x: nat)
    ensures Value256(bytes + [x]) == 256 * Value256(bytes) + x
  {
    assert (bytes + [x])[..|bytes|] == bytes;
  }

  lemma Spelt(letters: string, k: nat)
    requires All32(letters) && k < |letters|
    ensures Value32(letters[..k + 1]) == 32 * Value32(letters[..k]) + Digit32(letters[k])
  {
    assert letters[..k + 1][..k] == letters[..k];
  }

  /** Exact in spite of the wrap-around: the whole bytes of the number that the
      letters spell, and the twenty bytes of a 32-letter hash. */
  method Decode32(letters: string) returns (bytes: seq<nat>)
    requires All32(letters)
    ensures Bytes(bytes) && |bytes| == 5 * |letters| / 8
    ensures Value256(bytes) == Shift(Value32(letters), 5 * |letters| % 8)
    ensures |letters| == 32 ==> bytes == BytesOf(Value32(letters), 20)
  {
    var bits: nat, accumulator: nat := 0, 0;
    bytes := [];
    ghost var v := 0;
    for k := 0 to |letters|
      invariant bits < 8 && 8 * |bytes| + bits == 5 * k && Bytes(bytes)
      invariant v == Value32(letters[..k]) && accumulator == v % WORD
      invariant Value256(bytes) == Shift(v, bits)
    {
      var d := Digit32(letters[k]);
      Turn(v, d, bits);
      Spelt(letters, k);
      // accumulator << 5 | d, in 32 bits
      accumulator := (accumulator * 32 + d) % WORD;
      bits := bits + 5;
      if bits >= 8 {
        bits := bits - 8;
        // accumulator >>> bits & 255
        var byte := Shift(accumulator, bits) % 256;
        ValueSnoc(bytes, byte);
        bytes := bytes + [byte];
      }
      v := 32 * v + d;
    }
    assert letters[..|letters|] == letters;
    assert |bytes| == 5 * |letters| / 8 && bits == 5 * |letters| % 8;
    if |letters| == 32 { BytesUnique(bytes, Value32(letters)); }
  }

  // ----- The key -----

  predicate StartsWith(s: string, prefix: string) { prefix <= s }

  predicate HashUrn(x: string) {
    StartsWith(LowerAll(x), "urn:btih:") || StartsWith(LowerAll(x), "urn:btmh:")
  }

  function FirstUrn(xt: seq<string>): (r: Option<string>)
    ensures r.Some? ==> r.value in xt && HashUrn(r.value) && |r.value| >= 9
  {
    if xt == [] then None else if HashUrn(xt[0]) then Some(xt[0]) else FirstUrn(xt[1..])
  }

  /** The key, by the number the hash denotes. */
  function Key(l: Links): Option<string> {
    if |l.infoHash| == 40 && AllHex(l.infoHash) then Some("btih:" + LowerAll(l.infoHash))
    else if |l.infoHash| == 64 && AllHex(l.infoHash) then Some("btmh:1220" + LowerAll(l.infoHash))
    else if l.xt.None? then None
    else
      var urn := FirstUrn(l.xt.value);
      if urn.None? then None
      else
        var value := LowerAll(urn.value)[4..];
        var digits := value[5..];
        if StartsWith(value, "btih:") && |digits| == 40 && AllHex(digits) then Some(value)
        else if StartsWith(value, "btmh:1220") && |value| == 73 && AllHex(value[9..]) then Some(value)
        else if StartsWith(value, "btih:") && |digits| == 32 && All32(digits)
        then Some("btih:" + HexString(BytesOf(Value32(digits), 20)))
        else None
  }

  method MagnetHash(l: Links) returns (key: Option<string>)
    ensures key == Key(l)
  {
    if |l.infoHash| == 40 && AllHex(l.infoHash) { return Some("btih:" + LowerAll(l.infoHash)); }
    if |l.infoHash| == 64 && AllHex(l.infoHash) { return Some("btmh:1220" + LowerAll(l.infoHash)); }
    if l.xt.None? { return None; }
    var urn := FirstUrn(l.xt.value);
    if urn.None? { return None; }
    var value := LowerAll(urn.value)[4..];
    if StartsWith(value, "btih:") && |value| == 45 && AllHex(value[5..]) { return Some(value); }
    if StartsWith(value, "btmh:1220") && |value| == 73 && AllHex(value[9..]) { return Some(value); }
    if StartsWith(value, "btih:") && |value| == 37 && All32(value[5..]) {
      var bytes := Decode32(value[5..]);
      return Some("btih:" + HexString(bytes));
    }
    return None;
  }

  /** A hex field and a base32 magnet give the same key exactly when they spell
      the same number, in any letter case. */
  lemma SpellingsAgree(hex: string, letters: string)
    requires |hex| == 40 && AllHex(hex)
    requires |letters| == 32 && All32(LowerAll(letters))
    ensures Key(Links(hex, None)) == Key(Links("", Some(["urn:btih:" + letters])))
            <==> Value16(LowerAll(hex)) == Value32(LowerAll(letters))
  {
    var urn := "urn:btih:" + letters;
    var value := LowerAll(urn)[4..];
    assert LowerAll(urn)[..9] == "urn:btih:";
    assert value[..5] == "btih:" && value[5..] == LowerAll(letters);
    assert FirstUrn([urn]) == Some(urn);
    var bytes := BytesOf(Value32(LowerAll(letters)), 20);
    assert Key(Links("", Some([urn]))) == Some("btih:" + HexString(bytes));
    Bounded32(LowerAll(letters));
    BytesOfValue(Value32(LowerAll(letters)), 20);
    HexValue(bytes);
    if Value16(LowerAll(hex)) == Value32(LowerAll(letters)) {
      HexUnique(LowerAll(hex), HexString(bytes));
    }
    assert ("btih:" + LowerAll(hex))[5..] == LowerAll(hex);
    assert ("btih:" + HexString(bytes))[5..] == HexString(bytes);
  }

  function Power32(n: nat): nat { if n == 0 then 1 else 32 * Power32(n - 1) }

  function Power256(n: nat): nat { if n == 0 then 1 else 256 * Power256(n - 1) }

  lemma {:induction false} BytesOfValue(v: nat, n: nat)
    requires v < Power256(n)
    ensures Value256(BytesOf(v, n)) == v
  {
    if n > 0 {
      BytesOfValue(v / 256, n - 1);
      assert BytesOf(v, n)[..n - 1] == BytesOf(v / 256, n - 1);
    }
  }

  lemma {:induction false} Below32(s: string)
    requires All32(s)
    ensures Value32(s) < Power32(|s|)
  {
    if s != [] { Below32(s[..|s| - 1]); }
  }

  lemma Bounded32(s: string)
    requires All32(s) && |s| == 32
    ensures Value32(s) < Power256(20)
  {
    Below32(s);
    PowersMeet(4);
    assert Power32(32) == Power256(20);
  }

  /** 32 to the eighth is 256 to the fifth. */
  lemma {:induction false} PowersMeet(k: nat)
    ensures Power32(8 * k) == Power256(5 * k)
  {
    if k > 0 {
      PowersMeet(k - 1);
      Eight(8 * k);
      Five(5 * k);
    }
  }

  lemma Eight(n: nat)
    requires n >= 8
    ensures Power32(n) == 0x100_0000_0000 * Power32(n - 8)
  {
    assert Power32(n - 2) == 0x400 * Power32(n - 4);
    assert Power32(n - 4) == 32 * Power32(n - 5) && Power32(n - 5) == 32 * Power32(n - 6);
    assert Power32(n - 6) == 32 * Power32(n - 7) && Power32(n - 7) == 32 * Power32(n - 8);
  }

  lemma Five(n: nat)
    requires n >= 5
    ensures Power256(n) == 0x100_0000_0000 * Power256(n - 5)
  {
    assert Power256(n - 2) == 256 * Power256(n - 3);
    assert Power256(n - 3) == 256 * Power256(n - 4) && Power256(n - 4) == 256 * Power256(n - 5);
  }
}
