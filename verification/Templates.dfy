/** replaceVariables of src/app/application.cpp: variables of an external command
    are replaced in place, from right to left. */
module Templates {
  import opened Strings
  import opened Wrappers

  /** The torrent's texts, which may contain anything. */
  type Texts = char -> string

  predicate Known(c: char) {
    c in {'C', 'D', 'F', 'G', 'I', 'J', 'K', 'L', 'M', 'N', 'R', 'T', 'Z'}
  }

  /** A variable of the template starts at i. */
  predicate Variable(s: string, i: int) {
    0 <= i < |s| - 1 && s[i] == '%' && Known(s[i + 1])
  }

  /** What the user means: read once, left to right, every known variable
      stands for its text and everything else for itself. */
  function Expand(s: string, texts: Texts): string {
    if s == "" then ""
    else if Variable(s, 0) then texts(s[1]) + Expand(s[2..], texts)
    else [s[0]] + Expand(s[1..], texts)
  }

  lemma ExpandAt(s: string, texts: Texts, i: nat)
    requires i < |s|
    ensures Expand(s[i..], texts)
         == if Variable(s, i) then texts(s[i + 1]) + Expand(s[i + 2..], texts)
            else [s[i]] + Expand(s[i + 1..], texts)
  {
    assert s[i..][1..] == s[i + 1..];
    if i + 1 < |s| { assert s[i..][2..] == s[i + 2..]; }
  }

  /** The second of two characters is itself when neither pair is a variable. */
  lemma ExpandPast(s: string, texts: Texts, i: nat)
    requires i < |s| && !Variable(s, i)
    ensures s[..i] + Expand(s[i..], texts) == s[..i + 1] + Expand(s[i + 1..], texts)
  {
    ExpandAt(s, texts, i);
    assert s[..i + 1] == s[..i] + [s[i]];
  }

  method ReplaceVariables(template: string, texts: Texts) returns (str: string)
    ensures str == Expand(template, texts)
  {
    str := template;
    var i := |str| - 2;
    while i >= 0
      invariant -2 <= i <= |template| - 2
      invariant str == template[..i + 2] + Expand(template[i + 2..], texts)
      invariant i + 1 >= 0 ==> !Variable(template, i + 1)
      decreases i
    {
      assert str[i] == template[i] && str[i + 1] == template[i + 1];
      ExpandPast(template, texts, i + 1);
      assert str == template[..i + 1] + Expand(template[i + 1..], texts);
      if str[i] != '%' {
        i := i - 1;
        continue;
      }
      var specifier := str[i + 1];
      if Known(specifier) {
        ExpandAt(template, texts, i);
        assert str[..i] == template[..i] && str[i + 2..] == Expand(template[i + 2..], texts);
        str := str[..i] + texts(specifier) + str[i + 2..];
        assert str == template[..i] + (texts(specifier) + Expand(template[i + 2..], texts));
      } else {
        ExpandPast(template, texts, i);
      }
      assert str == template[..i] + Expand(template[i..], texts);
      assert i > 0 ==> !Variable(template, i - 1);
      i := i - 2;
    }
    if i == -1 { ExpandPast(template, texts, 0); }
    assert template[0..] == template;
  }

  lemma VariableShift(s: string, k: nat, i: nat)
    requires k <= |s|
    ensures Variable(s[k..], i) == Variable(s, i + k)
  {
  }

  lemma VariableJoins(a: string, b: string, k: nat)
    requires k < |a| && !Variable(a + b, |a| - 1)
    ensures k < |a| - 1 ==> !Variable(a[k + 1..] + b, |a[k + 1..]| - 1)
  {
    assert k < |a| - 1 ==> (a + b)[k + 1..] == a[k + 1..] + b;
    if k < |a| - 1 { VariableShift(a + b, k + 1, |a| - k - 2); }
  }

  lemma ExpandHead(a: string, b: string, texts: Texts)
    requires a != "" && !Variable(a + b, |a| - 1)
    ensures Variable(a, 0) ==>
              |a| >= 2 && Expand(a, texts) == texts(a[1]) + Expand(a[2..], texts)
              && Expand(a + b, texts) == texts(a[1]) + Expand(a[2..] + b, texts)
    ensures !Variable(a, 0) ==>
              Expand(a, texts) == [a[0]] + Expand(a[1..], texts)
              && Expand(a + b, texts) == [a[0]] + Expand(a[1..] + b, texts)
  {
    assert Variable(a + b, 0) == Variable(a, 0);
    assert (a + b)[1..] == a[1..] + b;
    if Variable(a, 0) { assert (a + b)[2..] == a[2..] + b; }
  }

  /** Parts expand independently unless a variable lies across the cut. */
  lemma {:induction false} ExpandJoins(a: string, b: string, texts: Texts)
    requires a == "" || !Variable(a + b, |a| - 1)
    ensures Expand(a + b, texts) == Expand(a, texts) + Expand(b, texts)
  {
    if a == "" {
      assert a + b == b;
    } else {
      ExpandHead(a, b, texts);
      if Variable(a, 0) {
        VariableJoins(a, b, 1);
        ExpandJoins(a[2..], b, texts);
        Associates(texts(a[1]), Expand(a[2..], texts), Expand(b, texts));
      } else {
        VariableJoins(a, b, 0);
        ExpandJoins(a[1..], b, texts);
        Associates([a[0]], Expand(a[1..], texts), Expand(b, texts));
      }
    }
  }

  /** A text that is put in stays as it is, even if it looks like a variable. */
  lemma InsertedTextIsFinal(before: string, c: char, after: string, texts: Texts)
    requires Known(c) && (before == "" || before[|before| - 1] != '%')
    ensures Expand(before + ['%', c] + after, texts) == Expand(before, texts) + texts(c) + Expand(after, texts)
  {
    var rest := ['%', c] + after;
    assert before + ['%', c] + after == before + rest;
    ExpandJoins(before, rest, texts);
    ExpandAt(rest, texts, 0);
    assert rest[0..] == rest && rest[2..] == after;
  }

  /** A percent sign in front of a variable stays, and does not escape it. */
  lemma PercentDoesNotEscape(c: char, after: string, texts: Texts)
    requires Known(c)
    ensures Expand("%%" + [c] + after, texts) == "%" + texts(c) + Expand(after, texts)
  {
    var s := "%%" + [c] + after;
    ExpandAt(s, texts, 0);
    ExpandAt(s, texts, 1);
    assert s[0..] == s && s[3..] == after && s[1..][2..] == after;
  }

  /** What a torrent gives for its variables; numbers and the joined tags as they
      are printed. It may lack one of its two hashes. */
  datatype Torrent = Torrent(
    filesCount: string, savePath: string, contentPath: string, tags: string, v1: Option<string>, v2: Option<string>,
    id: string, category: string, comment: string, name: string, rootPath: string, tracker: string, totalSize: string)

  function OrDash(hash: Option<string>): string { if hash.Some? then hash.value else "-" }

  function TextsOf(t: Torrent): Texts {
    (c: char) =>
      match c
      case 'C' => t.filesCount
      case 'D' => t.savePath
      case 'F' => t.contentPath
      case 'G' => t.tags
      case 'I' => OrDash(t.v1)
      case 'J' => OrDash(t.v2)
      case 'K' => t.id
      case 'L' => t.category
      case 'M' => t.comment
      case 'N' => t.name
      case 'R' => t.rootPath
      case 'T' => t.tracker
      case 'Z' => t.totalSize
      case _ => ""
  }

  lemma OneVariable(c: char, texts: Texts)
    ensures Expand(['%', c], texts) == if Known(c) then texts(c) else ['%', c]
  {
    var s := ['%', c];
    ExpandAt(s, texts, 0);
    if !Known(c) { ExpandAt(s, texts, 1); }
    assert s[0..] == s && s[2..] == "" && s[1..][1..] == "";
    assert Expand("", texts) == "";
  }

  /** A command that is one variable becomes that property of the torrent, and any
      other letter after a percent sign stays. */
  lemma VariableTable(t: Torrent, c: char)
    ensures var out := Expand(['%', c], TextsOf(t));
            && (c == 'N' ==> out == t.name) && (c == 'L' ==> out == t.category) && (c == 'M' ==> out == t.comment)
            && (c == 'F' ==> out == t.contentPath) && (c == 'R' ==> out == t.rootPath) && (c == 'D' ==> out == t.savePath)
            && (c == 'G' ==> out == t.tags) && (c == 'T' ==> out == t.tracker) && (c == 'K' ==> out == t.id)
            && (c == 'C' ==> out == t.filesCount) && (c == 'Z' ==> out == t.totalSize)
            && (c == 'I' ==> out == if t.v1.Some? then t.v1.value else "-")
            && (c == 'J' ==> out == if t.v2.Some? then t.v2.value else "-")
            && (c !in "NLMFRDGTKCZIJ" ==> out == ['%', c])
  {
    OneVariable(c, TextsOf(t));
    assert "NLMFRDGTKCZIJ" == ['N', 'L', 'M', 'F', 'R', 'D', 'G', 'T', 'K', 'C', 'Z', 'I', 'J'];
  }
}
