/** reserveTargets of src/base/profileimport.cpp: an ordered set of path
    identities in which no path equals or contains another, kept so by one walk
    over the parents and one lower_bound per candidate. */
module Reservations {
  import opened Wrappers
  import opened Strings

  /** A filename the session may use for one file, resolved. An empty identity
      stands for a path that cannot be resolved. */
  datatype Alias = Alias(identity: string, linked: bool, present: bool)

  /** One file of a torrent: padding files own no name, the others have five. */
  datatype Mapping = Mapping(pad: bool, actual: string, aliases: seq<Alias>)

  const MAX_TARGETS := 65536
  const ALIASES := 5

  predicate Within(path: string, directory: string) {
    directory + "/" <= path
  }

  predicate Comparable(a: string, b: string) {
    a == b || Within(a, b) || Within(b, a)
  }

  ghost predicate Independent(s: set<string>) {
    forall a, b | a in s && b in s && a != b :: !Comparable(a, b)
  }

  function Identities(m: Mapping): set<string> {
    set a | a in m.aliases :: a.identity
  }

  /** The conditions on one file, given everything reserved before it. */
  ghost predicate FileOk(reserved: set<string>, m: Mapping, protectedDirs: seq<string>, imported: bool) {
    && |reserved| <= MAX_TARGETS
    && m.actual != ""
    && (forall a | a in m.aliases ::
          && a.identity != ""
          && !(imported && (a.linked || (a.identity != m.actual && a.present)))
          && forall p | p in protectedDirs :: !Comparable(a.identity, p))
    && Independent(reserved + Identities(m))
    && reserved !! Identities(m)
  }

  ghost predicate AllOk(reserved: set<string>, files: seq<Mapping>, protectedDirs: seq<string>, imported: bool)
    decreases |files|
  {
    files != [] ==>
      if files[0].pad then AllOk(reserved, files[1..], protectedDirs, imported)
      else
        && FileOk(reserved, files[0], protectedDirs, imported)
        && AllOk(reserved + Identities(files[0]), files[1..], protectedDirs, imported)
  }

  function Reserved(reserved: set<string>, files: seq<Mapping>): set<string>
    decreases |files|
  {
    if files == [] then reserved
    else Reserved(if files[0].pad then reserved else reserved + Identities(files[0]), files[1..])
  }

  // ----- The ordered set -----

  ghost predicate Ordered(s: seq<string>) {
    forall i, j | 0 <= i < j < |s| :: Less(s[i], s[j])
  }

  function Elements(s: seq<string>): set<string> {
    set t | t in s
  }

  /** std::set::lower_bound. */
  function LowerBound(s: seq<string>, key: string): (k: nat)
    ensures k <= |s|
    ensures forall i | 0 <= i < k :: Less(s[i], key)
    ensures k < |s| ==> !Less(s[k], key)
  {
    if s == [] || !Less(s[0], key) then 0 else 1 + LowerBound(s[1..], key)
  }

  function Insert(s: seq<string>, t: string): seq<string> {
    var k := LowerBound(s, t);
    if k < |s| && s[k] == t then s else s[..k] + [t] + s[k..]
  }

  lemma InsertOrdered(s: seq<string>, t: string)
    requires Ordered(s)
    ensures Ordered(Insert(s, t))
    ensures Elements(Insert(s, t)) == Elements(s) + {t}
    ensures |Insert(s, t)| <= |s| + 1
  {
    var k := LowerBound(s, t);
    var r := Insert(s, t);
    if k < |s| { LessTotal(s[k], t); }
    if r != s {
      forall i, j | 0 <= i < j < |r| ensures Less(r[i], r[j]) {
        if i == k && j > k + 1 { LessTransitive(t, s[k], s[j - 1]); }
        if j == k + 1 && k < |s| && i == k { assert r[j] == s[k]; }
      }
      forall x ensures x in r <==> x in s || x == t {
        if x in s {
          var i :| 0 <= i < |s| && s[i] == x;
          assert r[if i < k then i else i + 1] == x;
        }
        assert r[k] == t;
      }
    }
  }

  lemma OrderedCardinality(s: seq<string>)
    requires Ordered(s)
    ensures |Elements(s)| == |s|
  {
    if s != [] {
      var init, last := s[..|s| - 1], s[|s| - 1];
      OrderedCardinality(init);
      if last in init {
        var i :| 0 <= i < |init| && init[i] == last;
        assert Less(s[i], s[|s| - 1]);
        LessIrreflexive(last);
      }
      assert s == init + [last];
      assert Elements(s) == Elements(init) + {last};
    }
  }

  /** lower_bound(p + "/") lands on a descendant of p whenever there is one, no
      matter which siblings sort between the two. */
  lemma LowerBoundFindsDescendant(s: seq<string>, prefix: string)
    requires Ordered(s)
    ensures var k := LowerBound(s, prefix);
            (k < |s| && prefix <= s[k]) <==> exists t :: t in s && prefix <= t
  {
    var k := LowerBound(s, prefix);
    if k < |s| && prefix <= s[k] { assert s[k] in s; }
    if t :| t in s && prefix <= t {
      var i :| 0 <= i < |s| && s[i] == t;
      PrefixNotAfter(prefix, t);
      assert k <= i;
      if k < i { LessAsymmetric(s[k], s[i]); } else { LessIrreflexive(t); }
      PrefixInterval(prefix, s[k], t);
    }
  }

  /** QString::lastIndexOf, for strings that contain the character. */
  function LastSlash(s: string): (k: nat)
    requires '/' in s
    ensures k < |s| && s[k] == '/' && forall i | k < i < |s| :: s[i] != '/'
  {
    if s[|s| - 1] == '/' then |s| - 1
    else
      assert s == s[..|s| - 1] + [s[|s| - 1]];
      LastSlash(s[..|s| - 1])
  }

  class Reservations {
    /** Strictly ascending, as a std::set iterates. */
    var targets: seq<string>

    ghost predicate Valid()
      reads this
    {
      && Ordered(targets)
      && "" !in targets
      && Independent(Elements(targets))
      && |targets| <= MAX_TARGETS + ALIASES
    }

    constructor ()
      ensures Valid() && targets == []
    {
      targets := [];
    }

    /** The walk over the parents. */
    method ContainsAncestor(identity: string) returns (found: bool)
      requires Valid()
      ensures found <==> exists t :: t in targets && (t == identity || Within(identity, t))
    {
      var parent := identity;
      while parent != ""
        invariant parent <= identity
        invariant parent == identity || (|parent| < |identity| && identity[|parent|] == '/')
        invariant forall t | t in targets && (t == identity || Within(identity, t)) :: |t| <= |parent|
        decreases |parent|
      {
        if parent in targets {
          assert parent == identity || Within(identity, parent);
          return true;
        }
        forall t | t in targets && (t == identity || Within(identity, t))
          ensures |t| < |parent| && t <= parent && parent[|t|] == '/'
        {
          assert t == identity[..|t|] && parent == identity[..|parent|];
          assert |t| == |parent| ==> t == parent;
        }
        if '/' !in parent { return false; }
        var k := LastSlash(parent);
        parent := parent[..k];
      }
      assert forall t | t in targets :: t != "";
      return false;
    }

    /** Both checks and the insertion for one identity. */
    method Claim(identity: string) returns (ok: bool)
      requires Valid() && identity != "" && |targets| < MAX_TARGETS + ALIASES
      modifies this
      ensures Valid()
      ensures ok <==> forall t | t in old(targets) :: !Comparable(identity, t)
      ensures Elements(targets) == if ok then old(Elements(targets)) + {identity} else old(Elements(targets))
      ensures |targets| == old(|targets|) + if ok then 1 else 0
    {
      var above := ContainsAncestor(identity);
      if above { return false; }
      var prefix := identity + "/";
      var k := LowerBound(targets, prefix);
      LowerBoundFindsDescendant(targets, prefix);
      if k < |targets| && prefix <= targets[k] {
        assert Comparable(identity, targets[k]);
        return false;
      }
      InsertOrdered(targets, identity);
      ghost var before := targets;
      targets := Insert(targets, identity);
      assert identity !in before;
      OrderedCardinality(before);
      OrderedCardinality(targets);
      assert forall t :: t in targets <==> t in Elements(targets);
      assert forall t :: t in before <==> t in Elements(before);
      return true;
    }

    method ClaimAll(identities: seq<string>) returns (ok: bool)
      requires Valid() && |targets| + |identities| <= MAX_TARGETS + ALIASES
      requires "" !in identities
      requires forall i, j | 0 <= i < j < |identities| :: identities[i] != identities[j]
      modifies this
      ensures Valid() && old(Elements(targets)) <= Elements(targets)
      ensures ok <==> Independent(old(Elements(targets)) + Elements(identities)) && old(Elements(targets)) !! Elements(identities)
      ensures ok ==> Elements(targets) == old(Elements(targets)) + Elements(identities)
    {
      ghost var start := Elements(targets);
      for i := 0 to |identities|
        invariant Valid() && |targets| + |identities| - i <= MAX_TARGETS + ALIASES
        invariant Elements(targets) == start + Elements(identities[..i])
        invariant start !! Elements(identities[..i])
      {
        assert identities[..i + 1] == identities[..i] + [identities[i]];
        assert Elements(identities[..i + 1]) == Elements(identities[..i]) + {identities[i]};
        assert identities[i] !in identities[..i];
        ghost var here := Elements(targets);
        assert forall t :: t in targets <==> t in here;
        var claimed := Claim(identities[i]);
        if !claimed {
          ghost var t :| t in here && Comparable(identities[i], t);
          assert identities[i] in Elements(identities);
          if t in start { } else {
            assert t in Elements(identities[..i]) && t in Elements(identities) && t != identities[i];
          }
          return false;
        }
      }
      assert identities[..|identities|] == identities;
      return true;
    }

    /** The loop over the aliases of one file: every condition that does not
        look at the other files, and the distinct identities. */
    method CheckAliases(m: Mapping, protectedDirs: seq<string>, imported: bool) returns (ok: bool, identities: seq<string>)
      requires |m.aliases| == ALIASES
      ensures ok <==> forall a | a in m.aliases ::
                        && a.identity != ""
                        && !(imported && (a.linked || (a.identity != m.actual && a.present)))
                        && forall p | p in protectedDirs :: !Comparable(a.identity, p)
      ensures ok ==> "" !in identities && |identities| <= ALIASES && Elements(identities) == Identities(m)
      ensures ok ==> forall i, j | 0 <= i < j < |identities| :: identities[i] != identities[j]
    {
      identities := [];
      for i := 0 to |m.aliases|
        invariant forall a | a in m.aliases[..i] ::
                    && a.identity != ""
                    && !(imported && (a.linked || (a.identity != m.actual && a.present)))
                    && forall p | p in protectedDirs :: !Comparable(a.identity, p)
        invariant "" !in identities && |identities| <= i
        invariant Elements(identities) == set a | a in m.aliases[..i] :: a.identity
        invariant forall k, j | 0 <= k < j < |identities| :: identities[k] != identities[j]
      {
        var a := m.aliases[i];
        assert a in m.aliases;
        assert m.aliases[..i + 1] == m.aliases[..i] + [a];
        if a.identity == "" { return false, []; }
        if imported && (a.linked || (a.identity != m.actual && a.present)) { return false, []; }
        for j := 0 to |protectedDirs|
          invariant forall p | p in protectedDirs[..j] :: !Comparable(a.identity, p)
        {
          if Comparable(a.identity, protectedDirs[j]) { return false, []; }
        }
        assert protectedDirs[..|protectedDirs|] == protectedDirs;
        ghost var before := identities;
        if a.identity !in identities { identities := identities + [a.identity]; }
        assert Elements(identities) == Elements(before) + {a.identity};
      }
      assert m.aliases[..|m.aliases|] == m.aliases;
      ok := true;
    }

    /** reserveTargets. It succeeds exactly when every file meets its conditions
        against everything reserved before it; even on failure the set stays
        free of equal and nested paths. */
    method ReserveTargets(files: Option<seq<Mapping>>, protectedDirs: seq<string>, imported: bool) returns (ok: bool)
      requires Valid()
      requires files.Some? ==> forall m | m in files.value :: |m.aliases| == ALIASES
      modifies this
      ensures Valid()
      ensures old(Elements(targets)) <= Elements(targets)
      ensures ok <==> files.Some? && "" !in protectedDirs && AllOk(old(Elements(targets)), files.value, protectedDirs, imported)
      ensures ok ==> Elements(targets) == Reserved(old(Elements(targets)), files.value)
      ensures ok ==>
                forall i | 0 <= i < |files.value| && !files.value[i].pad :: Identities(files.value[i]) <= Elements(targets)
    {
      if files.None? || "" in protectedDirs { return false; }
      var mapped := files.value;
      ghost var start := Elements(targets);
      for i := 0 to |mapped|
        invariant Valid() && start <= Elements(targets)
        invariant AllOk(start, mapped, protectedDirs, imported) <==> AllOk(Elements(targets), mapped[i..], protectedDirs, imported)
        invariant Reserved(start, mapped) == Reserved(Elements(targets), mapped[i..])
      {
        var m := mapped[i];
        assert mapped[i..][0] == m && mapped[i..][1..] == mapped[i + 1..];
        if !m.pad {
          OrderedCardinality(targets);
          if |targets| > MAX_TARGETS || m.actual == "" { return false; }
          var fine, identities := CheckAliases(m, protectedDirs, imported);
          if !fine { return false; }
          var claimed := ClaimAll(identities);
          if !claimed { return false; }
        }
      }
      ReservedGrows(start, mapped);
      return true;
    }
  }

  // ----- What success means for the whole import -----

  lemma {:induction false} ReservedGrows(reserved: set<string>, files: seq<Mapping>)
    ensures reserved <= Reserved(reserved, files)
    ensures forall i | 0 <= i < |files| && !files[i].pad :: Identities(files[i]) <= Reserved(reserved, files)
    decreases |files|
  {
    if files != [] {
      ReservedGrows(if files[0].pad then reserved else reserved + Identities(files[0]), files[1..]);
      forall i | 0 <= i < |files| && !files[i].pad ensures Identities(files[i]) <= Reserved(reserved, files) {
        if i > 0 { assert files[i] == files[1..][i - 1]; }
      }
    }
  }

  /** After a successful call no name of one file equals, contains or lies in a
      name of another file, of an earlier torrent, or of a protected directory. */
  lemma {:induction false} FilesAreIndependent(reserved: set<string>, files: seq<Mapping>, protectedDirs: seq<string>,
                                               imported: bool, i: nat, j: nat, a: string, b: string)
    requires AllOk(reserved, files, protectedDirs, imported)
    requires i < |files| && !files[i].pad && a in Identities(files[i])
    requires j < i ==> !files[j].pad
    requires if j < i then b in Identities(files[j]) else b in reserved
    ensures !Comparable(a, b)
    ensures forall p | p in protectedDirs :: !Comparable(a, p)
    decreases |files|
  {
    if i == 0 {
      assert FileOk(reserved, files[0], protectedDirs, imported);
    } else {
      var next := if files[0].pad then reserved else reserved + Identities(files[0]);
      assert files[i] == files[1..][i - 1];
      if 0 < j < i {
        assert files[j] == files[1..][j - 1];
        FilesAreIndependent(next, files[1..], protectedDirs, imported, i - 1, j - 1, a, b);
      } else {
        assert b in next;
        FilesAreIndependent(next, files[1..], protectedDirs, imported, i - 1, i - 1, a, b);
      }
    }
  }

  // ----- Success stated outright -----

  /** What is asked of the names of one file by itself. */
  ghost predicate NamesFine(m: Mapping, protectedDirs: seq<string>, imported: bool) {
    && m.actual != ""
    && forall a | a in m.aliases ::
         && a.identity != "" && (forall p | p in protectedDirs :: !Comparable(a.identity, p))
         && (imported ==> !a.linked && (a.present ==> a.identity == m.actual))
  }

  /** File i finds its own names free, and no more than the limit reserved. */
  ghost predicate FindsRoom(reserved: set<string>, files: seq<Mapping>, i: nat)
    requires i < |files|
  {
    Reserved(reserved, files[..i]) !! Identities(files[i]) && |Reserved(reserved, files[..i])| <= MAX_TARGETS
  }

  ghost predicate EachFine(reserved: set<string>, files: seq<Mapping>, protectedDirs: seq<string>, imported: bool) {
    forall i | 0 <= i < |files| && !files[i].pad ::
      NamesFine(files[i], protectedDirs, imported) && FindsRoom(reserved, files, i)
  }

  ghost predicate OnlyPads(files: seq<Mapping>) {
    forall m | m in files :: m.pad
  }

  lemma IndependentPart(s: set<string>, t: set<string>)
    requires Independent(t) && s <= t
    ensures Independent(s)
  {
  }

  lemma EachFineHead(reserved: set<string>, files: seq<Mapping>, protectedDirs: seq<string>, imported: bool)
    requires files != []
    ensures var next := if files[0].pad then reserved else reserved + Identities(files[0]);
            EachFine(reserved, files, protectedDirs, imported) <==>
              && (!files[0].pad ==>
                    NamesFine(files[0], protectedDirs, imported) && reserved !! Identities(files[0])
                    && |reserved| <= MAX_TARGETS)
              && EachFine(next, files[1..], protectedDirs, imported)
  {
    var next := if files[0].pad then reserved else reserved + Identities(files[0]);
    assert files[..0] == [];
    forall i | 0 < i < |files|
      ensures FindsRoom(reserved, files, i) <==> FindsRoom(next, files[1..], i - 1)
      ensures files[i] == files[1..][i - 1]
    {
      assert files[..i][0] == files[0] && files[..i][1..] == files[1..][..i - 1];
    }
    assert forall i | 0 <= i < |files| - 1 :: files[1..][i] == files[i + 1]
             && (FindsRoom(next, files[1..], i) <==> FindsRoom(reserved, files, i + 1));
  }

  lemma OnlyPadsReserve(reserved: set<string>, files: seq<Mapping>)
    requires OnlyPads(files)
    ensures Reserved(reserved, files) == reserved
  {
  }

  /** The call succeeds exactly when the names of every file are fine, none of them
      is taken twice, and all names that are reserved in the end are independent. */
  lemma {:induction false} AllOkExact(reserved: set<string>, files: seq<Mapping>, protectedDirs: seq<string>, imported: bool)
    ensures AllOk(reserved, files, protectedDirs, imported)
            <==> EachFine(reserved, files, protectedDirs, imported)
                 && (OnlyPads(files) || Independent(Reserved(reserved, files)))
    decreases |files|
  {
    if files != [] {
      var next := if files[0].pad then reserved else reserved + Identities(files[0]);
      AllOkExact(next, files[1..], protectedDirs, imported);
      EachFineHead(reserved, files, protectedDirs, imported);
      ReservedGrows(next, files[1..]);
      assert OnlyPads(files) <==> files[0].pad && OnlyPads(files[1..]);
      if !files[0].pad {
        if Independent(Reserved(reserved, files)) { IndependentPart(next, Reserved(reserved, files)); }
        if OnlyPads(files[1..]) { OnlyPadsReserve(next, files[1..]); }
        assert FileOk(reserved, files[0], protectedDirs, imported) <==>
               NamesFine(files[0], protectedDirs, imported) && Independent(next)
               && reserved !! Identities(files[0]) && |reserved| <= MAX_TARGETS;
      }
    }
  }
}
