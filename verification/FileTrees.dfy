/** Files and directories as the profile import sees them, with the recursive
    copy, removal and inventory of src/base/profileimport.cpp.

    A disk operation (create a directory, write a file, unlink, rmdir) is one
    atomic step. Before each step the environment decides its fate: it works,
    it fails without effect, or the process dies. */
module FileTrees {
  import opened Wrappers
  import opened Strings

  type Path = seq<string>

  datatype Tree = File(bytes: Bytes) | Dir(kids: Forest) | Link

  /** A directory listing, one entry per name, in name order when `Sorted`. */
  datatype Forest = Nil | Cons(name: string, tree: Tree, rest: Forest)

  datatype Bytes = Bytes(size: nat, text: Text)

  datatype Text =
    | Opaque(id: int)
    | Ini(values: map<string, string>, intact: bool)
    | Journal(manifest: Manifest)
    | Index(listing: map<Path, Mark>)

  /** What the backup index records of one entry. */
  datatype Mark = Directory | Content(digest: Digest)

  /** SHA-256, taken to be injective. */
  datatype Digest = Sha256(bytes: Bytes)

  datatype State = Prepared | Installing | Committed | RolledBack | Unknown

  datatype Location = Location(folder: string, name: string)

  datatype Manifest = Manifest(version: int, state: State, backup: Option<Location>, digest: Option<Digest>)

  datatype Fate = Works | Fails | Crashes

  datatype Outcome = Done | Failed | Crashed

  /** What is left or made at a place, and the fates still to come. Once every
      recorded fate is used up, operations work. */
  datatype Slot = Slot(tree: Option<Tree>, fates: seq<Fate>, out: Outcome)
  datatype Part = Part(kids: Forest, fates: seq<Fate>, out: Outcome)

  const MAX_DEPTH := 8
  const MAX_ENTRIES := 30000
  const MAX_FILE := 512 * 1024 * 1024
  const MAX_BACKUP := 1024 * 1024 * 1024

  predicate Reliable(fates: seq<Fate>) {
    forall i | 0 <= i < |fates| :: fates[i] == Works
  }

  function Next(fates: seq<Fate>): Fate {
    if fates == [] then Works else fates[0]
  }

  function Later(fates: seq<Fate>): seq<Fate> {
    if fates == [] then [] else fates[1..]
  }

  function After(fate: Fate): Outcome {
    match fate
    case Works => Done
    case Fails => Failed
    case Crashes => Crashed
  }

  // ----- Directory listings -----

  function Find(f: Forest, name: string): Option<Tree> {
    match f
    case Nil => None
    case Cons(n, t, rest) => if n == name then Some(t) else Find(rest, name)
  }

  function Put(f: Forest, name: string, tree: Tree): Forest {
    match f
    case Nil => Cons(name, tree, Nil)
    case Cons(n, t, rest) =>
      if n == name then Cons(name, tree, rest)
      else if Less(name, n) then Cons(name, tree, f)
      else Cons(n, t, Put(rest, name, tree))
  }

  function Drop(f: Forest, name: string): Forest {
    match f
    case Nil => Nil
    case Cons(n, t, rest) => if n == name then Drop(rest, name) else Cons(n, t, Drop(rest, name))
  }

  predicate Sorted(f: Forest) {
    f.Cons? ==> (f.rest.Cons? ==> Less(f.name, f.rest.name)) && Sorted(f.rest)
  }

  predicate Canonical(t: Tree) {
    t.Dir? ==> CanonicalKids(t.kids)
  }

  predicate CanonicalKids(f: Forest) {
    Sorted(f) && (f.Cons? ==> Canonical(f.tree) && CanonicalKids(f.rest))
  }

  lemma FindPut(f: Forest, name: string, tree: Tree, other: string)
    ensures Find(Put(f, name, tree), other) == if other == name then Some(tree) else Find(f, other)
  {
  }

  lemma FindDrop(f: Forest, name: string, other: string)
    ensures Find(Drop(f, name), other) == if other == name then None else Find(f, other)
  {
  }

  lemma {:induction false} PutSorted(f: Forest, name: string, tree: Tree)
    requires Sorted(f)
    ensures Sorted(Put(f, name, tree))
  {
    if f.Cons? && f.name != name {
      LessTotal(f.name, name);
      if Less(name, f.name) {
        assert Put(f, name, tree) == Cons(name, tree, f);
      } else {
        PutSorted(f.rest, name, tree);
      }
    }
  }

  lemma {:induction false} PutCanonical(f: Forest, name: string, tree: Tree)
    requires CanonicalKids(f) && Canonical(tree)
    ensures CanonicalKids(Put(f, name, tree))
  {
    PutSorted(f, name, tree);
    if f.Cons? {
      PutCanonical(f.rest, name, tree);
    }
  }

  lemma FindCanonical(f: Forest, name: string)
    requires CanonicalKids(f)
    ensures Find(f, name).Some? ==> Canonical(Find(f, name).value)
  {
  }

  /** In a listing, everything after an entry has a later name. */
  lemma {:induction false} RestIsLater(f: Forest, name: string)
    requires Sorted(f) && f.Cons? && Find(f.rest, name).Some?
    ensures Less(f.name, name)
  {
    if f.rest.name != name {
      RestIsLater(f.rest, name);
      LessTransitive(f.name, f.rest.name, name);
    }
  }

  lemma RestLacksHead(f: Forest)
    requires Sorted(f) && f.Cons?
    ensures Find(f.rest, f.name).None?
  {
    if Find(f.rest, f.name).Some? {
      RestIsLater(f, f.name);
      LessIrreflexive(f.name);
    }
  }

  lemma {:induction false} DropSorted(f: Forest, name: string)
    requires Sorted(f)
    ensures Sorted(Drop(f, name))
    ensures Drop(f, name).Cons? ==> Find(f, Drop(f, name).name).Some?
  {
    if f.Cons? {
      DropSorted(f.rest, name);
      if f.name != name && Drop(f.rest, name).Cons? {
        RestIsLater(f, Drop(f.rest, name).name);
      }
    }
  }

  // ----- Limits -----

  /** What copyObject accepts: no link, at most eight levels below the object,
      bounded directories and files. */
  predicate Copyable(t: Tree, depth: nat) {
    depth <= MAX_DEPTH &&
    match t
    case Link => false
    case File(bytes) => bytes.size <= MAX_FILE
    case Dir(kids) => Entries(kids) <= MAX_ENTRIES && CopyableKids(kids, depth + 1)
  }

  predicate CopyableKids(f: Forest, depth: nat) {
    f.Cons? ==> Copyable(f.tree, depth) && CopyableKids(f.rest, depth)
  }

  /** What removeObject accepts. Its depth is counted from the path it is given. */
  predicate Removable(t: Tree, depth: nat) {
    depth <= MAX_DEPTH &&
    match t
    case Link => false
    case File(_) => true
    case Dir(kids) => RemovableKids(kids, depth + 1)
  }

  predicate RemovableKids(f: Forest, depth: nat) {
    f.Cons? ==> Removable(f.tree, depth) && RemovableKids(f.rest, depth)
  }

  function Entries(f: Forest): nat {
    if f.Nil? then 0 else 1 + Entries(f.rest)
  }

  // ----- Copy and removal, step by step -----

  /** copyObject onto an empty place: the tree made there and how it ended. */
  function CopyTree(fates: seq<Fate>, t: Tree, depth: nat): Slot
    decreases t, 1
  {
    if t.Link? || depth > MAX_DEPTH then Slot(None, fates, Failed)
    else match t
      case File(bytes) =>
        if bytes.size > MAX_FILE then Slot(None, fates, Failed)
        else Slot(if Next(fates).Works? then Some(t) else None, Later(fates), After(Next(fates)))
      case Dir(kids) =>
        if !Next(fates).Works? then Slot(None, Later(fates), After(Next(fates)))
        else if Entries(kids) > MAX_ENTRIES then Slot(Some(Dir(Nil)), Later(fates), Failed)
        else
          var part := CopyKids(Later(fates), kids, depth + 1);
          Slot(Some(Dir(part.kids)), part.fates, part.out)
  }

  function CopyKids(fates: seq<Fate>, f: Forest, depth: nat): Part
    decreases f, 0
  {
    match f
    case Nil => Part(Nil, fates, Done)
    case Cons(name, t, rest) =>
      var first := CopyTree(fates, t, depth);
      if first.out != Done then
        Part(if first.tree.Some? then Cons(name, first.tree.value, Nil) else Nil, first.fates, first.out)
      else
        var others := CopyKids(first.fates, rest, depth);
        Part(if first.tree.Some? then Cons(name, first.tree.value, others.kids) else others.kids,
             others.fates, others.out)
  }

  function CopyObject(fates: seq<Fate>, source: Option<Tree>): Slot {
    if source.None? then Slot(None, fates, Done) else CopyTree(fates, source.value, 0)
  }

  /** removeObject: what is left of the tree and how it ended. */
  function RemoveTree(fates: seq<Fate>, t: Tree, depth: nat): Slot
    decreases t, 1
  {
    if t.Link? || depth > MAX_DEPTH then Slot(Some(t), fates, Failed)
    else match t
      case File(_) =>
        Slot(if Next(fates).Works? then None else Some(t), Later(fates), After(Next(fates)))
      case Dir(kids) =>
        var part := RemoveKids(fates, kids, depth + 1);
        if part.out != Done then Slot(Some(Dir(part.kids)), part.fates, part.out)
        else Slot(if Next(part.fates).Works? then None else Some(Dir(Nil)), Later(part.fates), After(Next(part.fates)))
  }

  function RemoveKids(fates: seq<Fate>, f: Forest, depth: nat): Part
    decreases f, 0
  {
    match f
    case Nil => Part(Nil, fates, Done)
    case Cons(name, t, rest) =>
      var first := RemoveTree(fates, t, depth);
      if first.out != Done then
        Part(if first.tree.Some? then Cons(name, first.tree.value, rest) else rest, first.fates, first.out)
      else RemoveKids(first.fates, rest, depth)
  }

  function RemoveObject(fates: seq<Fate>, target: Option<Tree>): Slot {
    if target.None? then Slot(None, fates, Done) else RemoveTree(fates, target.value, 0)
  }

  lemma ReliableLater(fates: seq<Fate>)
    requires Reliable(fates)
    ensures Next(fates).Works? && Reliable(Later(fates))
  {
  }

  /** A finished copy is exact; a reliable disk finishes it exactly for
      copyable trees; whatever a copy leaves behind can be removed again. */
  lemma {:induction false} CopyTreeExact(fates: seq<Fate>, t: Tree, depth: nat)
    ensures var r := CopyTree(fates, t, depth);
            && (r.out.Done? ==> r.tree == Some(t) && Copyable(t, depth))
            && (Reliable(fates) ==> Reliable(r.fates) && (r.out.Done? <==> Copyable(t, depth)) && !r.out.Crashed?)
            && (r.tree.Some? ==> Removable(r.tree.value, depth))
    decreases t, 1
  {
    if t.Dir? {
      if Reliable(fates) { ReliableLater(fates); }
      CopyKidsExact(Later(fates), t.kids, depth + 1);
    }
  }

  lemma {:induction false} CopyKidsExact(fates: seq<Fate>, f: Forest, depth: nat)
    ensures var r := CopyKids(fates, f, depth);
            && (r.out.Done? ==> r.kids == f && CopyableKids(f, depth))
            && (Reliable(fates) ==> Reliable(r.fates) && (r.out.Done? <==> CopyableKids(f, depth)) && !r.out.Crashed?)
            && RemovableKids(r.kids, depth)
    decreases f, 0
  {
    if f.Cons? {
      CopyTreeExact(fates, f.tree, depth);
      CopyKidsExact(CopyTree(fates, f.tree, depth).fates, f.rest, depth);
    }
  }

  /** Removal empties the place when it finishes; a reliable disk finishes it
      exactly for removable trees; an interrupted removal can be resumed; and a
      reliable removal that stops leaves a tree that can never be removed. */
  lemma {:induction false} RemoveTreeExact(fates: seq<Fate>, t: Tree, depth: nat)
    ensures var r := RemoveTree(fates, t, depth);
            && (r.out.Done? <==> r.tree.None?)
            && (r.out.Done? ==> Removable(t, depth))
            && (Reliable(fates) ==> Reliable(r.fates) && (r.out.Done? <==> Removable(t, depth)) && !r.out.Crashed?)
            && (r.tree.Some? && Removable(t, depth) ==> Removable(r.tree.value, depth))
            && (r.tree.Some? && !Removable(t, depth) ==> !Removable(r.tree.value, depth))
    decreases t, 1
  {
    if t.Dir? && depth <= MAX_DEPTH {
      RemoveKidsExact(fates, t.kids, depth + 1);
      var part := RemoveKids(fates, t.kids, depth + 1);
      if part.out.Done? && Reliable(part.fates) { ReliableLater(part.fates); }
    }
  }

  lemma {:induction false} RemoveKidsExact(fates: seq<Fate>, f: Forest, depth: nat)
    ensures var r := RemoveKids(fates, f, depth);
            && (r.out.Done? ==> r.kids.Nil? && RemovableKids(f, depth))
            && (Reliable(fates) ==> Reliable(r.fates) && (r.out.Done? <==> RemovableKids(f, depth)) && !r.out.Crashed?)
            && (RemovableKids(f, depth) ==> RemovableKids(r.kids, depth))
            && (!RemovableKids(f, depth) ==> !RemovableKids(r.kids, depth))
    decreases f, 0
  {
    if f.Cons? {
      RemoveTreeExact(fates, f.tree, depth);
      RemoveKidsExact(RemoveTree(fates, f.tree, depth).fates, f.rest, depth);
    }
  }

  /** Removal never alters a file: it is there unchanged or gone. */
  lemma {:induction false} RemovalKeepsFiles(fates: seq<Fate>, f: Forest, depth: nat, name: string)
    requires Sorted(f) && Find(f, name).Some? && Find(f, name).value.File?
    ensures Sorted(RemoveKids(fates, f, depth).kids)
    ensures Find(RemoveKids(fates, f, depth).kids, name) in {None, Find(f, name)}
  {
    RemovalSorted(fates, f, depth);
    RemovalFinds(fates, f, depth, name);
  }

  lemma {:induction false} RemovalSorted(fates: seq<Fate>, f: Forest, depth: nat)
    requires Sorted(f)
    ensures Sorted(RemoveKids(fates, f, depth).kids)
    decreases f
  {
    if f.Cons? {
      RemovalSorted(RemoveTree(fates, f.tree, depth).fates, f.rest, depth);
    }
  }

  lemma {:induction false} RemovalFinds(fates: seq<Fate>, f: Forest, depth: nat, name: string)
    requires Sorted(f)
    requires Find(f, name).Some? ==> Find(f, name).value.File?
    ensures Find(RemoveKids(fates, f, depth).kids, name) in {None, Find(f, name)}
    decreases f
  {
    if f.Cons? {
      RestLacksHead(f);
      RemovalFinds(RemoveTree(fates, f.tree, depth).fates, f.rest, depth, name);
    }
  }

  /** The last file of a listing goes last: while anything else is left, it is
      left as well. */
  lemma {:induction false} LastFileGoesLast(fates: seq<Fate>, f: Forest, depth: nat, name: string)
    requires Sorted(f) && Find(f, name).Some? && Find(f, name).value.File?
    requires forall n :: Find(f, n).Some? ==> !Less(name, n)
    ensures var left := RemoveKids(fates, f, depth).kids;
            Find(left, name) == Find(f, name) || left.Nil?
    decreases f
  {
    var first := RemoveTree(fates, f.tree, depth);
    assert f.rest.Cons? ==> Find(f, f.rest.name).Some?;
    if f.name == name {
      assert f.rest.Nil?;
    } else if first.out.Done? {
      forall n | Find(f.rest, n).Some? ensures !Less(name, n) {
        if n == f.name { RestLacksHead(f); }
        assert Find(f, n).Some?;
      }
      LastFileGoesLast(first.fates, f.rest, depth, name);
    }
  }

  // ----- Inventory -----

  predicate Linked(f: Forest) {
    f.Cons? && (f.tree.Link? || (f.tree.Dir? && Linked(f.tree.kids)) || Linked(f.rest))
  }

  function AllEntries(f: Forest): nat {
    if f.Nil? then 0
    else 1 + (if f.tree.Dir? then AllEntries(f.tree.kids) else 0) + AllEntries(f.rest)
  }

  function TotalSize(f: Forest): nat {
    if f.Nil? then 0
    else (match f.tree
          case File(bytes) => bytes.size
          case Dir(kids) => TotalSize(kids)
          case Link => 0) + TotalSize(f.rest)
  }

  function MarkOf(t: Tree): Mark {
    if t.File? then Content(Sha256(t.bytes)) else Directory
  }

  function Below(name: string, m: map<Path, Mark>): map<Path, Mark> {
    map p | p in (set q | q in m :: [name] + q) :: m[p[1..]]
  }

  /** The flat JSON object of relative paths that inventory() returns. */
  function Listing(f: Forest): map<Path, Mark> {
    match f
    case Nil => map[]
    case Cons(name, t, rest) =>
      Listing(rest) + (if t.Dir? then Below(name, Listing(t.kids)) else map[]) + map[[name] := MarkOf(t)]
  }

  function Inventory(t: Tree): Option<map<Path, Mark>> {
    if !t.Dir? || Linked(t.kids) || AllEntries(t.kids) > MAX_ENTRIES || TotalSize(t.kids) > MAX_BACKUP then None
    else Some(Listing(t.kids))
  }

  function At(f: Forest, p: Path): Option<Mark>
    decreases |p|
  {
    if p == [] then None
    else
      var t := Find(f, p[0]);
      if t.None? then None
      else if |p| == 1 then Some(MarkOf(t.value))
      else if t.value.Dir? then At(t.value.kids, p[1..])
      else None
  }

  lemma {:induction false} ListingAt(f: Forest, p: Path)
    requires CanonicalKids(f)
    ensures p in Listing(f) <==> At(f, p).Some?
    ensures p in Listing(f) ==> Listing(f)[p] == At(f, p).value
  {
    if f.Cons? {
      ListingAt(f.rest, p);
      RestLacksHead(f);
      if f.tree.Dir? {
        var m := Listing(f.tree.kids);
        if p != [] && p[0] == f.name {
          assert p == [f.name] + p[1..];
          ListingAt(f.tree.kids, p[1..]);
          assert p in Below(f.name, m) <==> p[1..] in m;
        }
      }
      if p != [] && p[0] == f.name && |p| == 1 {
        assert p == [f.name];
      }
    }
  }

  /** Two well-formed link-free directories with one flat inventory are the
      same directory: file for file, byte for byte. */
  lemma {:induction false} InventoryInjective(a: Forest, b: Forest)
    requires CanonicalKids(a) && CanonicalKids(b)
    requires !Linked(a) && !Linked(b)
    requires Listing(a) == Listing(b)
    ensures a == b
    decreases a
  {
    forall p ensures At(a, p) == At(b, p) {
      ListingAt(a, p);
      ListingAt(b, p);
    }
    SameMarksSameForest(a, b);
  }

  lemma {:induction false} SameMarksSameForest(a: Forest, b: Forest)
    requires CanonicalKids(a) && CanonicalKids(b)
    requires !Linked(a) && !Linked(b)
    requires forall p :: At(a, p) == At(b, p)
    ensures a == b
    decreases a
  {
    var first := if a.Cons? then [a.name] else if b.Cons? then [b.name] else [];
    assert At(a, first) == At(b, first);
    if a.Cons? && b.Cons? {
      SameFirstName(a, b);
      assert At(a, [a.name]) == At(b, [a.name]);
      if a.tree.Dir? {
        forall p ensures At(a.tree.kids, p) == At(b.tree.kids, p) {
          if p != [] {
            var q := [a.name] + p;
            assert q[1..] == p;
            assert At(a, q) == At(b, q);
          }
        }
        SameMarksSameForest(a.tree.kids, b.tree.kids);
      }
      RestLacksHead(a);
      RestLacksHead(b);
      forall p ensures At(a.rest, p) == At(b.rest, p) {
        assert At(a, p) == At(b, p);
      }
      SameMarksSameForest(a.rest, b.rest);
    }
  }

  lemma SameFirstName(a: Forest, b: Forest)
    requires Sorted(a) && Sorted(b) && a.Cons? && b.Cons?
    requires forall p :: At(a, p) == At(b, p)
    ensures a.name == b.name
  {
    assert At(a, [a.name]).Some? && At(b, [a.name]).Some?;
    assert At(b, [b.name]).Some? && At(a, [b.name]).Some?;
    if a.name != b.name {
      RestIsLater(a, b.name);
      RestIsLater(b, a.name);
      LessAsymmetric(a.name, b.name);
    }
  }
}
