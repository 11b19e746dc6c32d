/** serializeParams and parseParams of src/app/application.cpp: how a second
    instance hands its command line to the running one. */
module CommandLine {
  import opened Strings
  import opened Wrappers

  const SEPARATOR := '|'

  datatype Params = Params(
    savePath: string,
    addStopped: Option<bool>,
    skipChecking: bool,
    category: string,
    sequential: bool,
    firstLastPiecePriority: bool,
    skipDialog: Option<bool>,
    sources: seq<string>)

  /** Qt: how a Path cleans its text, and how text reads as a number. */
  datatype Library = Library(clean: string -> string, toInt: string -> int)

  /** Cleaning drops or replaces separators and nothing else. */
  ghost predicate Sound(lib: Library) {
    (forall s :: |lib.clean(s)| <= |s| && (SEPARATOR in lib.clean(s) ==> SEPARATOR in s))
    && lib.toInt("1") == 1 && lib.toInt("0") == 0
  }

  function Empty(): Params { Params("", None, false, "", false, false, None, []) }

  /** QChar::isSpace. */
  predicate Space(c: char) {
    var u := c as int;
    u == 0x20 || 0x09 <= u <= 0x0D || u == 0x85 || u == 0xA0 || u == 0x1680 || 0x2000 <= u <= 0x200A
    || u == 0x2028 || u == 0x2029 || u == 0x202F || u == 0x205F || u == 0x3000
  }

  function TrimRight(s: string): (r: string)
    ensures r <= s && (r != "" ==> !Space(r[|r| - 1]))
    ensures r == s <==> s == "" || !Space(s[|s| - 1])
  {
    if s != "" && Space(s[|s| - 1]) then TrimRight(s[..|s| - 1]) else s
  }

  function TrimLeft(s: string): (r: string)
    ensures |r| <= |s| && (r == s <==> s == "" || !Space(s[0]))
  {
    if s != "" && Space(s[0]) then TrimLeft(s[1..]) else s
  }

  function Trim(s: string): string { TrimLeft(TrimRight(s)) }

  predicate Trimmed(s: string) {
    s != "" ==> !Space(s[0]) && !Space(s[|s| - 1])
  }

  // ----- Options -----

  datatype Key =
    SavePath | AddStopped | SkipChecking | Category | Sequential | FirstLastPiecePriority | SkipDialog

  function NameOf(k: Key): string {
    match k
    case SavePath => "@savePath"
    case AddStopped => "@addStopped"
    case SkipChecking => "@skipChecking"
    case Category => "@category"
    case Sequential => "@sequential"
    case FirstLastPiecePriority => "@firstLastPiecePriority"
    case SkipDialog => "@skipDialog"
  }

  function KeyOf(name: string): (k: Option<Key>)
    ensures k.Some? ==> NameOf(k.value) == name
  {
    if name == NameOf(SavePath) then Some(SavePath)
    else if name == NameOf(AddStopped) then Some(AddStopped)
    else if name == NameOf(SkipChecking) then Some(SkipChecking)
    else if name == NameOf(Category) then Some(Category)
    else if name == NameOf(Sequential) then Some(Sequential)
    else if name == NameOf(FirstLastPiecePriority) then Some(FirstLastPiecePriority)
    else if name == NameOf(SkipDialog) then Some(SkipDialog)
    else None
  }

  predicate PlainName(name: string) {
    name != "" && name[0] == '@' && !Space(name[|name| - 1]) && '=' !in name && SEPARATOR !in name
  }

  lemma NamesArePlain(k: Key)
    ensures PlainName(NameOf(k))
  {
  }

  lemma NamesAreDistinct(k: Key)
    ensures KeyOf(NameOf(k)) == Some(k)
  {
    assert NameOf(SavePath)[2] == 'a' && NameOf(AddStopped)[1] == 'a' && NameOf(SkipChecking)[5] == 'C';
    assert NameOf(SkipDialog)[5] == 'D' && NameOf(Category)[1] == 'c' && NameOf(Sequential)[2] == 'e';
    assert NameOf(FirstLastPiecePriority)[1] == 'f' && NameOf(SkipChecking)[2] == 'k' && NameOf(SkipDialog)[2] == 'k';
    assert forall j: Key :: NameOf(j)[1] == 's' ==> j in {SavePath, SkipChecking, Sequential, SkipDialog};
  }

  // ----- Printing -----

  function Digit(b: bool): string { if b then "1" else "0" }

  /** What follows the name of an option that is set. */
  function Suffix(p: Params, k: Key): Option<string> {
    match k
    case SavePath => if p.savePath != "" then Some("=" + p.savePath) else None
    case AddStopped => if p.addStopped.Some? then Some("=" + Digit(p.addStopped.value)) else None
    case SkipChecking => if p.skipChecking then Some("") else None
    case Category => if p.category != "" then Some("=" + p.category) else None
    case Sequential => if p.sequential then Some("") else None
    case FirstLastPiecePriority => if p.firstLastPiecePriority then Some("") else None
    case SkipDialog => if p.skipDialog.Some? then Some("=" + Digit(p.skipDialog.value)) else None
  }

  function Token(p: Params, k: Key): seq<string> {
    if Suffix(p, k).Some? then [NameOf(k) + Suffix(p, k).value] else []
  }

  function Options(p: Params): seq<string> {
    Token(p, SavePath) + Token(p, AddStopped) + Token(p, SkipChecking) + Token(p, Category)
    + Token(p, Sequential) + Token(p, FirstLastPiecePriority) + Token(p, SkipDialog)
  }

  function Serialize(p: Params): string { Join(Options(p) + p.sources, SEPARATOR) }

  method SerializeParams(p: Params) returns (s: string)
    ensures s == Serialize(p)
  {
    var result := FirstHalf(p);
    result := SecondHalf(p, result);
    result := result + p.sources;
    s := Join(result, SEPARATOR);
  }

  method FirstHalf(p: Params) returns (result: seq<string>)
    ensures result == Token(p, SavePath) + Token(p, AddStopped) + Token(p, SkipChecking) + Token(p, Category)
  {
    result := [];
    if p.savePath != "" { result := Bind(result, p, SavePath, "=" + p.savePath); }
    assert result == Token(p, SavePath);
    if p.addStopped.Some? { result := Bind(result, p, AddStopped, "=" + Digit(p.addStopped.value)); }
    assert result == Token(p, SavePath) + Token(p, AddStopped);
    if p.skipChecking { result := Bind(result, p, SkipChecking, ""); }
    assert result == Token(p, SavePath) + Token(p, AddStopped) + Token(p, SkipChecking);
    if p.category != "" { result := Bind(result, p, Category, "=" + p.category); }
  }

  method SecondHalf(p: Params, first: seq<string>) returns (result: seq<string>)
    ensures result == first + Token(p, Sequential) + Token(p, FirstLastPiecePriority) + Token(p, SkipDialog)
  {
    result := first;
    if p.sequential { result := Bind(result, p, Sequential, ""); }
    assert result == first + Token(p, Sequential);
    if p.firstLastPiecePriority { result := Bind(result, p, FirstLastPiecePriority, ""); }
    assert result == first + Token(p, Sequential) + Token(p, FirstLastPiecePriority);
    if p.skipDialog.Some? { result := Bind(result, p, SkipDialog, "=" + Digit(p.skipDialog.value)); }
  }

  /** result.append(bindParamValue(name, value)). */
  method Bind(result: seq<string>, ghost p: Params, k: Key, suffix: string) returns (r: seq<string>)
    requires Suffix(p, k) == Some(suffix)
    ensures r == result + Token(p, k)
  {
    r := result + [NameOf(k) + suffix];
  }

  // ----- Parsing -----

  function NameLength(s: string): (n: nat)
    ensures n <= |s|
  {
    if s == "" || s[0] == '=' then 0 else 1 + NameLength(s[1..])
  }

  function Name(s: string): string { s[..NameLength(s)] }

  function ValueOf(s: string): string {
    if NameLength(s) < |s| then s[NameLength(s) + 1..] else ""
  }

  function Assign(lib: Library, p: Params, k: Key, value: string): (r: Params)
    ensures r.sources == p.sources
  {
    match k
    case SavePath => p.(savePath := lib.clean(value))
    case AddStopped => p.(addStopped := Some(lib.toInt(value) != 0))
    case SkipChecking => p.(skipChecking := true)
    case Category => p.(category := value)
    case Sequential => p.(sequential := true)
    case FirstLastPiecePriority => p.(firstLastPiecePriority := true)
    case SkipDialog => p.(skipDialog := Some(lib.toInt(value) != 0))
  }

  predicate Reserved(name: string) { KeyOf(name).Some? }

  function Apply(lib: Library, p: Params, param: string): (r: Params)
    ensures !Reserved(Name(param)) ==> r == p.(sources := p.sources + [param])
    ensures Reserved(Name(param)) ==> r.sources == p.sources
  {
    if Reserved(Name(param)) then Assign(lib, p, KeyOf(Name(param)).value, ValueOf(param))
    else p.(sources := p.sources + [param])
  }

  function ApplyAll(lib: Library, p: Params, parts: seq<string>): Params
    decreases |parts|
  {
    if parts == [] then p
    else ApplyAll(lib, if parts[0] == "" then p else Apply(lib, p, Trim(parts[0])), parts[1..])
  }

  function Parse(lib: Library, s: string): Params { ApplyAll(lib, Empty(), Split(s, SEPARATOR)) }

  method ParseParams(lib: Library, s: string) returns (p: Params)
    ensures p == Parse(lib, s)
  {
    p := Empty();
    var parts := Split(s, SEPARATOR);
    assert parts[0..] == parts;
    for k := 0 to |parts|
      invariant ApplyAll(lib, p, parts[k..]) == Parse(lib, s)
    {
      assert parts[k..][1..] == parts[k + 1..];
      if parts[k] != "" { p := ParseOne(lib, p, Trim(parts[k])); }
    }
  }

  /** The body of the loop. */
  method ParseOne(lib: Library, parsed: Params, param: string) returns (p: Params)
    ensures p == Apply(lib, parsed, param)
  {
    var name, value := Name(param), ValueOf(param);
    NamesAreDistinct(SavePath);
    if name == NameOf(SavePath) { return parsed.(savePath := lib.clean(value)); }
    NamesAreDistinct(AddStopped);
    if name == NameOf(AddStopped) { return parsed.(addStopped := Some(lib.toInt(value) != 0)); }
    NamesAreDistinct(SkipChecking);
    if name == NameOf(SkipChecking) { return parsed.(skipChecking := true); }
    NamesAreDistinct(Category);
    if name == NameOf(Category) { return parsed.(category := value); }
    NamesAreDistinct(Sequential);
    if name == NameOf(Sequential) { return parsed.(sequential := true); }
    NamesAreDistinct(FirstLastPiecePriority);
    if name == NameOf(FirstLastPiecePriority) { return parsed.(firstLastPiecePriority := true); }
    NamesAreDistinct(SkipDialog);
    if name == NameOf(SkipDialog) { return parsed.(skipDialog := Some(lib.toInt(value) != 0)); }
    return parsed.(sources := parsed.sources + [param]);
  }

  // ----- The round trip -----

  predicate PlainSource(s: string) {
    s != "" && Trimmed(s) && SEPARATOR !in s && !Reserved(Name(s))
  }

  predicate PlainValue(s: string) {
    SEPARATOR !in s && (s != "" ==> !Space(s[|s| - 1]))
  }

  /** What a caller can check before handing the parameters over. */
  predicate Plain(p: Params) {
    PlainValue(p.savePath) && PlainValue(p.category)
    && forall i | 0 <= i < |p.sources| :: PlainSource(p.sources[i])
  }

  lemma {:induction false} ApplyJoins(lib: Library, p: Params, a: seq<string>, b: seq<string>)
    ensures ApplyAll(lib, p, a + b) == ApplyAll(lib, ApplyAll(lib, p, a), b)
    decreases |a|
  {
    if a == [] {
      assert a + b == b;
    } else {
      assert (a + b)[1..] == a[1..] + b;
      ApplyJoins(lib, if a[0] == "" then p else Apply(lib, p, Trim(a[0])), a[1..], b);
    }
  }

  lemma ApplyOne(lib: Library, p: Params, part: string)
    requires part != ""
    ensures ApplyAll(lib, p, [part]) == Apply(lib, p, Trim(part))
  {
  }

  lemma {:induction false} NameAt(name: string, value: string)
    requires '=' !in name
    ensures Name(name + "=" + value) == name && ValueOf(name + "=" + value) == value
  {
    NameLengthAt(name, "=" + value);
    assert name + "=" + value == name + ("=" + value);
  }

  lemma {:induction false} NameLengthAt(name: string, rest: string)
    requires '=' !in name && (rest == "" || rest[0] == '=')
    ensures NameLength(name + rest) == |name|
  {
    if name == "" {
      assert name + rest == rest;
    } else {
      assert (name + rest)[1..] == name[1..] + rest;
      NameLengthAt(name[1..], rest);
    }
  }

  lemma {:induction false} TrimKeepsHead(head: string, s: string)
    requires head != "" && !Space(head[0]) && !Space(head[|head| - 1])
    ensures Trim(head + s) == head + TrimRight(s)
  {
    if s == "" {
      assert head + s == head;
    } else if Space(s[|s| - 1]) {
      assert (head + s)[..|head + s| - 1] == head + s[..|s| - 1];
      TrimKeepsHead(head, s[..|s| - 1]);
    }
  }

  /** A field is restored, apart from trailing space in the two texts. */
  function Put(lib: Library, p: Params, a: Params, k: Key): Params {
    match k
    case SavePath => if p.savePath != "" then a.(savePath := lib.clean(TrimRight(p.savePath))) else a
    case AddStopped => if p.addStopped.Some? then a.(addStopped := p.addStopped) else a
    case SkipChecking => if p.skipChecking then a.(skipChecking := true) else a
    case Category => if p.category != "" then a.(category := TrimRight(p.category)) else a
    case Sequential => if p.sequential then a.(sequential := true) else a
    case FirstLastPiecePriority => if p.firstLastPiecePriority then a.(firstLastPiecePriority := true) else a
    case SkipDialog => if p.skipDialog.Some? then a.(skipDialog := p.skipDialog) else a
  }

  lemma ValueComesBack(name: string, value: string)
    requires PlainName(name)
    ensures Name(Trim(name + ("=" + value))) == name && ValueOf(Trim(name + ("=" + value))) == TrimRight(value)
  {
    assert name + ("=" + value) == name + "=" + value;
    TrimKeepsHead(name + "=", value);
    NameAt(name, TrimRight(value));
  }

  lemma FlagComesBack(name: string)
    requires PlainName(name)
    ensures Name(Trim(name + "")) == name
  {
    TrimKeepsHead(name, "");
    assert name + "" == name;
    NameLengthAt(name, "");
  }

  lemma DigitComesBack(lib: Library, b: bool)
    requires Sound(lib)
    ensures TrimRight(Digit(b)) == Digit(b) && (lib.toInt(Digit(b)) != 0 <==> b)
  {
  }

  lemma TokenParse(lib: Library, p: Params, a: Params, k: Key)
    requires Sound(lib)
    ensures ApplyAll(lib, a, Token(p, k)) == Put(lib, p, a, k)
  {
    NamesArePlain(k);
    NamesAreDistinct(k);
    FlagComesBack(NameOf(k));
    if Suffix(p, k).Some? { ApplyOne(lib, a, NameOf(k) + Suffix(p, k).value); }
    match k
    case SavePath => ValueComesBack(NameOf(k), p.savePath);
    case AddStopped =>
      if p.addStopped.Some? {
        ValueComesBack(NameOf(k), Digit(p.addStopped.value));
        DigitComesBack(lib, p.addStopped.value);
      }
    case Category => ValueComesBack(NameOf(k), p.category);
    case SkipDialog =>
      if p.skipDialog.Some? {
        ValueComesBack(NameOf(k), Digit(p.skipDialog.value));
        DigitComesBack(lib, p.skipDialog.value);
      }
    case _ =>
  }

  lemma NextToken(lib: Library, p: Params, a: Params, tokens: seq<string>, k: Key)
    requires Sound(lib)
    ensures ApplyAll(lib, a, tokens + Token(p, k)) == Put(lib, p, ApplyAll(lib, a, tokens), k)
  {
    ApplyJoins(lib, a, tokens, Token(p, k));
    TokenParse(lib, p, ApplyAll(lib, a, tokens), k);
  }

  /** All seven options, apart from trailing space of the two texts. */
  lemma OptionsParse(lib: Library, p: Params)
    requires Sound(lib)
    ensures ApplyAll(lib, Empty(), Options(p))
         == p.(savePath := if p.savePath == "" then "" else lib.clean(TrimRight(p.savePath)),
               category := TrimRight(p.category), sources := [])
  {
    var a := Empty();
    var t1 := Token(p, SavePath);
    var t2 := t1 + Token(p, AddStopped);
    var t3 := t2 + Token(p, SkipChecking);
    var t4 := t3 + Token(p, Category);
    var t5 := t4 + Token(p, Sequential);
    var t6 := t5 + Token(p, FirstLastPiecePriority);
    TokenParse(lib, p, a, SavePath);
    NextToken(lib, p, a, t1, AddStopped);
    NextToken(lib, p, a, t2, SkipChecking);
    NextToken(lib, p, a, t3, Category);
    NextToken(lib, p, a, t4, Sequential);
    NextToken(lib, p, a, t5, FirstLastPiecePriority);
    NextToken(lib, p, a, t6, SkipDialog);
    assert t6 + Token(p, SkipDialog) == Options(p);
    AllPut(lib, p);
  }

  lemma AllPut(lib: Library, p: Params)
    ensures Put(lib, p, Put(lib, p, Put(lib, p, Put(lib, p, Put(lib, p, Put(lib, p, Put(lib, p, Empty(),
              SavePath), AddStopped), SkipChecking), Category), Sequential), FirstLastPiecePriority), SkipDialog)
         == p.(savePath := if p.savePath == "" then "" else lib.clean(TrimRight(p.savePath)),
               category := TrimRight(p.category), sources := [])
  {
    var a3 := Put(lib, p, Put(lib, p, Put(lib, p, Empty(), SavePath), AddStopped), SkipChecking);
    assert a3 == Empty().(savePath := if p.savePath == "" then "" else lib.clean(TrimRight(p.savePath)),
                          addStopped := p.addStopped, skipChecking := p.skipChecking);
    var a5 := Put(lib, p, Put(lib, p, a3, Category), Sequential);
    assert a5 == a3.(category := TrimRight(p.category), sequential := p.sequential);
  }

  // ----- Sources -----

  predicate Keeps(part: string) { part != "" && !Reserved(Name(Trim(part))) }

  function Kept(parts: seq<string>): (r: seq<string>)
    ensures |r| <= |parts|
  {
    if parts == [] then [] else (if Keeps(parts[0]) then [Trim(parts[0])] else []) + Kept(parts[1..])
  }

  lemma KeptStep(lib: Library, p: Params, part: string)
    ensures var q := if part == "" then p else Apply(lib, p, Trim(part));
            && q.sources == p.sources + (if Keeps(part) then [Trim(part)] else [])
            && (Keeps(part) ==> q == p.(sources := p.sources + [Trim(part)]))
  {
  }

  predicate AllKept(parts: seq<string>) {
    forall i | 0 <= i < |parts| :: Keeps(parts[i])
  }

  lemma AllKeptTail(parts: seq<string>)
    requires parts != []
    ensures AllKept(parts) <==> Keeps(parts[0]) && AllKept(parts[1..])
  {
    assert forall i | 0 < i < |parts| :: parts[i] == parts[1..][i - 1];
  }

  lemma {:induction false} SourcesParse(lib: Library, p: Params, parts: seq<string>)
    ensures ApplyAll(lib, p, parts).sources == p.sources + Kept(parts)
    ensures AllKept(parts) ==> ApplyAll(lib, p, parts) == p.(sources := p.sources + Kept(parts))
    decreases |parts|
  {
    if parts == [] {
      assert p.sources + [] == p.sources;
    } else {
      var q := if parts[0] == "" then p else Apply(lib, p, Trim(parts[0]));
      var first := if Keeps(parts[0]) then [Trim(parts[0])] else [];
      KeptStep(lib, p, parts[0]);
      AllKeptTail(parts);
      SourcesParse(lib, q, parts[1..]);
      Associates(p.sources, first, Kept(parts[1..]));
    }
  }

  lemma {:induction false} KeptExact(parts: seq<string>)
    ensures Kept(parts) == parts <==> forall i | 0 <= i < |parts| :: Keeps(parts[i]) && Trim(parts[i]) == parts[i]
    decreases |parts|
  {
    if parts != [] {
      KeptExact(parts[1..]);
      assert parts == [parts[0]] + parts[1..];
      assert forall i | 0 < i < |parts| :: parts[i] == parts[1..][i - 1];
      if Kept(parts) == parts {
        assert Keeps(parts[0]);
        assert Kept(parts)[1..] == Kept(parts[1..]);
      }
      if forall i | 0 <= i < |parts| :: Keeps(parts[i]) && Trim(parts[i]) == parts[i] {
        assert forall i | 0 <= i < |parts| - 1 :: parts[1..][i] == parts[i + 1];
      }
    }
  }

  lemma TrimExact(s: string)
    ensures Trim(s) == s <==> Trimmed(s)
  {
    if Trim(s) == s { assert |TrimRight(s)| <= |s|; }
  }

  predicate FreeParams(p: Params) {
    SEPARATOR !in p.savePath && SEPARATOR !in p.category && AllFree(p.sources, SEPARATOR)
  }

  lemma ApplyFree(lib: Library, p: Params, param: string)
    requires Sound(lib) && FreeParams(p) && SEPARATOR !in param
    ensures FreeParams(Apply(lib, p, param))
  {
    assert SEPARATOR !in ValueOf(param);
    assert AllFree(p.sources + [param], SEPARATOR);
  }

  /** Nothing that is parsed contains a separator. */
  lemma {:induction false} ParsedFree(lib: Library, p: Params, parts: seq<string>)
    requires Sound(lib) && AllFree(parts, SEPARATOR) && FreeParams(p)
    ensures FreeParams(ApplyAll(lib, p, parts))
    decreases |parts|
  {
    if parts != [] {
      var q := if parts[0] == "" then p else Apply(lib, p, Trim(parts[0]));
      TrimFree(parts[0]);
      if parts[0] != "" { ApplyFree(lib, p, Trim(parts[0])); }
      ParsedFree(lib, q, parts[1..]);
    }
  }

  lemma {:induction false} LeftFree(s: string)
    requires SEPARATOR !in s
    ensures SEPARATOR !in TrimLeft(s)
  {
    if s != "" && Space(s[0]) { LeftFree(s[1..]); }
  }

  lemma TrimFree(s: string)
    requires SEPARATOR !in s
    ensures SEPARATOR !in Trim(s)
  {
    LeftFree(TrimRight(s));
  }

  lemma OptionsFree(p: Params)
    requires SEPARATOR !in p.savePath && SEPARATOR !in p.category
    ensures AllFree(Options(p), SEPARATOR)
  {
    NextFree(p, [], SavePath);
    assert [] + Token(p, SavePath) == Token(p, SavePath);
    var t1 := Token(p, SavePath);
    NextFree(p, t1, AddStopped);
    var t2 := t1 + Token(p, AddStopped);
    NextFree(p, t2, SkipChecking);
    var t3 := t2 + Token(p, SkipChecking);
    NextFree(p, t3, Category);
    var t4 := t3 + Token(p, Category);
    NextFree(p, t4, Sequential);
    var t5 := t4 + Token(p, Sequential);
    NextFree(p, t5, FirstLastPiecePriority);
    NextFree(p, t5 + Token(p, FirstLastPiecePriority), SkipDialog);
  }

  lemma NextFree(p: Params, tokens: seq<string>, k: Key)
    requires SEPARATOR !in p.savePath && SEPARATOR !in p.category && AllFree(tokens, SEPARATOR)
    ensures AllFree(tokens + Token(p, k), SEPARATOR)
  {
    TokenFree(p, k);
  }

  lemma TokenFree(p: Params, k: Key)
    requires SEPARATOR !in p.savePath && SEPARATOR !in p.category
    ensures AllFree(Token(p, k), SEPARATOR)
  {
    NamesArePlain(k);
    assert Suffix(p, k).Some? ==> SEPARATOR !in Suffix(p, k).value;
  }

  /** Printed parameters split into the options and the sources again. */
  lemma PrintedSplits(lib: Library, p: Params)
    requires Sound(lib)
    requires SEPARATOR !in p.savePath && SEPARATOR !in p.category && AllFree(p.sources, SEPARATOR)
    ensures Parse(lib, Serialize(p)) == ApplyAll(lib, ApplyAll(lib, Empty(), Options(p)), p.sources)
  {
    OptionsFree(p);
    var tokens := Options(p) + p.sources;
    ApplyJoins(lib, Empty(), Options(p), p.sources);
    if tokens == [] {
      assert ApplyAll(lib, Empty(), [""]) == Empty();
    } else {
      SplitJoin(tokens, SEPARATOR);
    }
  }

  /** The running instance receives what was sent exactly when the parameters are
      plain: no separator anywhere, no trailing space in the two texts, and
      sources that are trimmed, not empty and not named like an option. */
  lemma RoundTripExact(lib: Library, p: Params)
    requires Sound(lib) && lib.clean(p.savePath) == p.savePath
    ensures Parse(lib, Serialize(p)) == p <==> Plain(p)
  {
    ParsedFree(lib, Empty(), Split(Serialize(p), SEPARATOR));
    if SEPARATOR !in p.savePath && SEPARATOR !in p.category && AllFree(p.sources, SEPARATOR) {
      PrintedSplits(lib, p);
      OptionsParse(lib, p);
      FreeRoundTrip(lib, p, ApplyAll(lib, Empty(), Options(p)));
    }
  }

  lemma FreeRoundTrip(lib: Library, p: Params, o: Params)
    requires Sound(lib) && lib.clean(p.savePath) == p.savePath && AllFree(p.sources, SEPARATOR)
    requires SEPARATOR !in p.savePath && SEPARATOR !in p.category
    requires o == p.(savePath := if p.savePath == "" then "" else lib.clean(TrimRight(p.savePath)),
                     category := TrimRight(p.category), sources := [])
    ensures ApplyAll(lib, o, p.sources) == p <==> Plain(p)
  {
    SourcesParse(lib, o, p.sources);
    KeptExact(p.sources);
    AllPlain(p.sources);
    assert o.sources + Kept(p.sources) == Kept(p.sources);
    if Kept(p.sources) == p.sources {
      assert ApplyAll(lib, o, p.sources) == o.(sources := p.sources);
      TextsComeBack(lib, p, o);
    }
  }

  lemma AllPlain(sources: seq<string>)
    requires AllFree(sources, SEPARATOR)
    ensures (forall i | 0 <= i < |sources| :: PlainSource(sources[i]))
       <==> forall i | 0 <= i < |sources| :: Keeps(sources[i]) && Trim(sources[i]) == sources[i]
  {
    forall i | 0 <= i < |sources|
      ensures PlainSource(sources[i]) <==> Keeps(sources[i]) && Trim(sources[i]) == sources[i]
    {
      TrimExact(sources[i]);
    }
  }

  lemma TextsComeBack(lib: Library, p: Params, o: Params)
    requires Sound(lib) && lib.clean(p.savePath) == p.savePath
    requires SEPARATOR !in p.savePath && SEPARATOR !in p.category
    requires o == p.(savePath := if p.savePath == "" then "" else lib.clean(TrimRight(p.savePath)),
                     category := TrimRight(p.category), sources := [])
    ensures o.(sources := p.sources) == p <==> PlainValue(p.savePath) && PlainValue(p.category)
  {
    assert |lib.clean(TrimRight(p.savePath))| <= |TrimRight(p.savePath)|;
  }
}
