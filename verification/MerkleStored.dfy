/** Insertion with its own writes: the new leaf, the new parent, the headers of the node allocator and the
    write-back of every node on the path, all in the memory the insertion reads. If memory shows the tree
    along the path, no write-back is seen by a later read, and neither is a new node off the path. */
module MerkleStored {
  import opened Bytes
  import opened MerkleVerify
  import opened MerkleTree
  import opened MerkleUntrusted
  import opened MerkleStatic
  import opened Options

  function Put(f: Image, a: nat, n: Node): Image {
    (x: nat) => if x == a then n else f(x)
  }

  /** What taking a node from the free lists and giving one back do to memory. */
  datatype Allocator = Allocator(take: Image -> Image, give: Image -> Image)

  // ---------------------------------------------------------------- merk_insert with its writes

  /** The interior node merk_splice_node puts over a leaf and the new one. */
  function Split(H: Hasher, f: Image, at: nat, leaf: nat): Node {
    if f(leaf).ptr < f(at).ptr
    then Node(f(at).ptr, H(EncChild(Some(f(leaf))) + EncChild(Some(f(at)))), leaf, at)
    else Node(f(leaf).ptr, H(EncChild(Some(f(at))) + EncChild(Some(f(leaf)))), at, leaf)
  }

  /** merk_splice_node: give the old leaf back, or take a node and make it the parent of both. */
  function Splice(H: Hasher, al: Allocator, f: Image, at: nat, leaf: nat, parent: nat): Image {
    if f(leaf).ptr == f(at).ptr then al.give(f) else Put(al.take(f), parent, Split(H, al.take(f), at, leaf))
  }

  /** Memory during a round: the read of the node in hand, the sixth, comes after the splice. */
  function Phases(f: Image, g: Image): Memory {
    (n: nat, a: nat) => if n < 5 then f(a) else g(a)
  }

  /** The upward loop; after each round the node in hand is written back. */
  function StoredRounds(H: Hasher, al: Allocator, root: Node, path: seq<nat>, curr: Node, base: Node, steps: seq<Step>,
                        f: Image, leaf: nat, parent: nat): (Outcome, Image)
    requires |path| > 0
    decreases |path|
  {
    var i, at := |path|, path[|path| - 1];
    var spliced := curr.left == 0 && curr.right == 0;
    var g := if spliced then Splice(H, al, f, at, leaf, parent) else f;
    var fam := ReadRound(root, path, Phases(f, g), 0);
    var r := Turned(H, fam, at, curr, Phases(f, g), 0, leaf, parent);
    if !FamilyOk(H, fam) then (Refused, f)
    else if r.None? then (Stopped, g)
    else
      var top := if spliced then SpliceTop(at, Phases(f, g), 0, leaf, parent) else at;
      var back := Put(g, top, r.value.held);
      var (b, below) := if spliced then (r.value.held, []) else (base, steps);
      if i == 1 then (Done(r.value.next, b, below), back)
      else StoredRounds(H, al, root, path[..i - 1], r.value.next, b, [Step(fam.onRight, fam.par.ptr, fam.sibling)]
        + below, back, leaf, parent)
  }

  /** Memory when the walk begins. */
  function Begun(al: Allocator, f: Image, key: U64, hash: Digest, leaf: nat): Image {
    Put(al.take(f), leaf, Node(key, hash, 0, 0))
  }

  function StoredInsert(H: Hasher, al: Allocator, root: Node, key: U64, hash: Digest, f: Image, leaf: nat,
                        parent: nat): (Outcome, Image) {
    var f0 := Begun(al, f, key, hash, leaf);
    if root.right == 0 then
      (Done(root.(hash := H(Enc(key, hash)), right := leaf), Node(key, hash, 0, 0), []), f0)
    else
      var path := Walked(Static(f0), 0, root.right, key, MAX_DEPTH - 2);
      var curr := f0(path[|path| - 1]);
      StoredRounds(H, al, root, path, curr, curr, [], f0, leaf, parent)
  }

  /** merk_insert as the source runs it, writes included. */
  method MerkInsertStored(H: Hasher, al: Allocator, root: Node, key: U64, hash: Digest, f: Image, leaf: nat,
                          parent: nat)
    returns (out: Outcome, f': Image)
    requires Guardian(root)
    ensures (out, f') == StoredInsert(H, al, root, key, hash, f, leaf, parent)
  {
    f' := Put(al.take(f), leaf, Node(key, hash, 0, 0));
    if root.right == 0 {
      return Done(root.(hash := H(Enc(key, hash)), right := leaf), Node(key, hash, 0, 0), []), f';
    }
    var path, i := WalkDown(root, key, Static(f'));
    out, f' := ClimbStored(H, al, root, path, f'(path[i]), f', leaf, parent);
  }

  method ClimbStored(H: Hasher, al: Allocator, root: Node, path: seq<nat>, curr0: Node, f0: Image, leaf: nat,
                     parent: nat)
    returns (out: Outcome, f: Image)
    requires |path| > 0
    ensures (out, f) == StoredRounds(H, al, root, path, curr0, curr0, [], f0, leaf, parent)
  {
    hide ReadRound, FamilyOk, Turned, Splice, SpliceTop;
    f := f0;
    var curr, base, steps, rest := curr0, curr0, [], path;
    while true
      invariant 0 < |rest|
      invariant StoredRounds(H, al, root, rest, curr, base, steps, f, leaf, parent)
             == StoredRounds(H, al, root, path, curr0, curr0, [], f0, leaf, parent)
      decreases |rest|
    {
      var at, spliced := rest[|rest| - 1], curr.left == 0 && curr.right == 0;
      var g := if spliced then Splice(H, al, f, at, leaf, parent) else f;
      var fam, ok, r := OneRound(H, root, rest, curr, Phases(f, g), 0, leaf, parent);
      if !ok {
        return Refused, f;
      }
      if r.None? {
        return Stopped, g;
      }
      if spliced {
        base, steps := r.value.held, [];
      }
      f := Put(g, if spliced then SpliceTop(at, Phases(f, g), 0, leaf, parent) else at, r.value.held);
      curr := r.value.next;
      if |rest| == 1 {
        return Done(curr, base, steps), f;
      }
      steps := [Step(fam.onRight, fam.par.ptr, fam.sibling)] + steps;
      rest := rest[..|rest| - 1];
    }
  }

  lemma {:induction false} StoredGuard(H: Hasher, al: Allocator, root: Node, path: seq<nat>, curr: Node, base: Node,
                                       steps: seq<Step>, f: Image, leaf: nat, parent: nat)
    requires |path| > 0 && Guardian(root) && root.right == path[0]
    ensures var out := StoredRounds(H, al, root, path, curr, base, steps, f, leaf, parent).0;
      out.Done? ==> Guardian(out.root)
    decreases |path|
  {
    var i, at := |path|, path[|path| - 1];
    var spliced := curr.left == 0 && curr.right == 0;
    var g := if spliced then Splice(H, al, f, at, leaf, parent) else f;
    var fam := ReadRound(root, path, Phases(f, g), 0);
    var r := Turned(H, fam, at, curr, Phases(f, g), 0, leaf, parent);
    if i > 1 && FamilyOk(H, fam) && r.Some? {
      var back := Put(g, if spliced then SpliceTop(at, Phases(f, g), 0, leaf, parent) else at, r.value.held);
      var (b, below) := if spliced then (r.value.held, []) else (base, steps);
      StoredGuard(H, al, root, path[..i - 1], r.value.next, b, [Step(fam.onRight, fam.par.ptr, fam.sibling)] + below,
                  back, leaf, parent);
    }
  }

  /** The new root is again a guardian. */
  lemma StoredStays(H: Hasher, al: Allocator, root: Node, key: U64, hash: Digest, f: Image, leaf: nat, parent: nat)
    requires Guardian(root)
    ensures var out := StoredInsert(H, al, root, key, hash, f, leaf, parent).0; out.Done? ==> Guardian(out.root)
  {
    if root.right != 0 {
      var f0 := Begun(al, f, key, hash, leaf);
      var path := Walked(Static(f0), 0, root.right, key, MAX_DEPTH - 2);
      var curr := f0(path[|path| - 1]);
      StoredGuard(H, al, root, path, curr, curr, [], f0, leaf, parent);
    }
  }

  // ---------------------------------------------------------------- the path in memory

  function Next(n: Node, key: U64): nat {
    if key < n.ptr then n.left else n.right
  }

  function Other(n: Node, key: U64): nat {
    if key < n.ptr then n.right else n.left
  }

  /** The first i nodes of the search path and the siblings of all but the topmost of them. */
  function PathReads(f: Image, t: Tree, at: nat, key: U64, i: nat): set<nat>
    decreases t
  {
    if t.Leaf? || i <= 1 then {at}
    else {at, Other(f(at), key)} + PathReads(f, Child(t, key), Next(f(at), key), key, i - 1)
  }

  /** Memory that agrees there shows the same tree. */
  lemma {:induction false} ShowsFrame(H: Hasher, f: Image, f': Image, t: Tree, at: nat, key: U64)
    requires Shows(H, f, t, at, key)
    requires forall a :: a in PathReads(f, t, at, key, |Path(t, key)|) ==> f'(a) == f(a)
    ensures Shows(H, f', t, at, key) && Trail(f', t, at, key) == Trail(f, t, at, key)
    decreases t
  {
    if t.Inner? {
      ShowsFrame(H, f, f', Child(t, key), Next(f(at), key), key);
    }
  }

  lemma {:induction false} PathReadsFrame(H: Hasher, f: Image, f': Image, t: Tree, at: nat, key: U64, i: nat)
    requires Shows(H, f, t, at, key)
    requires forall a :: a in PathReads(f, t, at, key, |Path(t, key)|) ==> f'(a) == f(a)
    ensures PathReads(f', t, at, key, i) == PathReads(f, t, at, key, i)
    decreases t
  {
    if t.Inner? && i > 1 {
      PathReadsFrame(H, f, f', Child(t, key), Next(f(at), key), key, i - 1);
    }
  }

  /** A round reads the node, its parent and its sibling. */
  lemma {:induction false} ReadsAt(H: Hasher, f: Image, t: Tree, at: nat, key: U64, i: nat)
    requires Shows(H, f, t, at, key) && 0 < i <= |Path(t, key)|
    ensures var a, all := Trail(f, t, at, key), PathReads(f, t, at, key, i);
      && a[i - 1] in all
      && (i > 1 ==> a[i - 2] in all && Other(f(a[i - 2]), key) in all && PathReads(f, t, at, key, i - 1) <= all)
    decreases t
  {
    if t.Inner? && i > 1 {
      ReadsAt(H, f, Child(t, key), Next(f(at), key), key, i - 1);
    }
  }

  lemma {:induction false} ReadsGrow(f: Image, t: Tree, at: nat, key: U64, i: nat, j: nat)
    requires i <= j
    ensures PathReads(f, t, at, key, i) <= PathReads(f, t, at, key, j)
    decreases t
  {
    if t.Inner? && i > 1 {
      ReadsGrow(f, Child(t, key), Next(f(at), key), key, i - 1, j - 1);
    }
  }

  // ---------------------------------------------------------------- no two of its nodes at one address

  lemma {:induction false} PathPages(H: Hasher, t: Tree, pages: map<U64, seq<byte>>, key: U64, i: nat)
    requires StoresPages(H, t, pages) && i < |Path(t, key)|
    ensures var q := Path(t, key)[i];
      Keys(q) <= Keys(t) && StoresPages(H, q, pages) && Inputs(H, q, pages) <= Inputs(H, t, pages)
  {
    if t.Inner? && i > 0 {
      PathPages(H, Child(t, key), pages, key, i - 1);
    }
  }

  lemma ChildPages(H: Hasher, t: Tree, pages: map<U64, seq<byte>>, key: U64)
    requires t.Inner? && StoresPages(H, t, pages) && Ordered(t)
    ensures Ordered(Child(t, key)) && StoresPages(H, Child(t, key), pages) && StoresPages(H, Sibling(t, key), pages)
    ensures Inputs(H, Child(t, key), pages) <= Inputs(H, t, pages)
    ensures Inputs(H, Sibling(t, key), pages) <= Inputs(H, t, pages)
  {}

  /** One node cannot stand for two subtrees with different keys. */
  lemma OneNode(H: Hasher, n: Node, q: Tree, r: Tree, t: Tree, pages: map<U64, seq<byte>>)
    requires StoresPages(H, t, pages) && StoresPages(H, q, pages) && StoresPages(H, r, pages)
    requires Inputs(H, q, pages) <= Inputs(H, t, pages) && Inputs(H, r, pages) <= Inputs(H, t, pages)
    requires Matches(H, n, q) && Matches(H, n, r) && Keys(q) != Keys(r)
    ensures Clash(H, Inputs(H, t, pages), Inputs(H, t, pages))
  {
    TwinTrees(H, q, r, pages);
    ClashGrows(H, Inputs(H, q, pages), Inputs(H, r, pages), Inputs(H, t, pages), Inputs(H, t, pages));
  }

  /** A subtree below the top of the path has keys other than the whole tree's and the sibling's. */
  lemma BelowKeys(H: Hasher, t: Tree, pages: map<U64, seq<byte>>, key: U64, i: nat)
    requires Ordered(t) && StoresPages(H, t, pages) && 0 < i < |Path(t, key)|
    ensures Keys(Path(t, key)[i]) != Keys(t) && Keys(Path(t, key)[i]) != Keys(Sibling(t, key))
  {
    PathPages(H, Child(t, key), pages, key, i - 1);
    var k := SomeKey(Sibling(t, key));
    var l := SomeKey(Path(t, key)[i]);
    assert k in Keys(t) && k !in Keys(Child(t, key)) && l in Keys(Child(t, key)) && l !in Keys(Sibling(t, key));
  }

  /** A node of the path is not where a node above it or the sibling of one is, or two inputs clash. */
  lemma {:induction false} Unaliased(H: Hasher, f: Image, t: Tree, at: nat, key: U64, i: nat,
                                     pages: map<U64, seq<byte>>)
    requires Shows(H, f, t, at, key) && Ordered(t) && StoresPages(H, t, pages) && 1 < i <= |Path(t, key)|
    ensures Trail(f, t, at, key)[i - 1] !in PathReads(f, t, at, key, i - 1)
         || Clash(H, Inputs(H, t, pages), Inputs(H, t, pages))
    decreases t
  {
    hide HashOf, EncTree, Keys, Inputs, StoresPages, Clash, Ordered;
    var a, q, child, all := Trail(f, t, at, key)[i - 1], Path(t, key)[i - 1], Child(t, key), Inputs(H, t, pages);
    ShowsAt(H, f, t, at, key, i - 1);
    PathPages(H, t, pages, key, i - 1);
    BelowKeys(H, t, pages, key, i - 1);
    ChildPages(H, t, pages, key);
    if a == at {
      OneNode(H, f(a), t, q, t, pages);
    } else if i > 2 {
      if a == Other(f(at), key) {
        OneNode(H, f(a), Sibling(t, key), q, t, pages);
      } else {
        Unaliased(H, f, child, Next(f(at), key), key, i - 1, pages);
        if Clash(H, Inputs(H, child, pages), Inputs(H, child, pages)) {
          ClashGrows(H, Inputs(H, child, pages), Inputs(H, child, pages), all, all);
        }
      }
    }
  }

  // ---------------------------------------------------------------- the writes are not seen

  /** A node of the path hangs below the one before it, on the side of the key. */
  lemma Parent(H: Hasher, f: Image, t: Tree, at: nat, key: U64, i: nat)
    requires Shows(H, f, t, at, key) && 1 < i <= |Path(t, key)|
    ensures var a := Trail(f, t, at, key);
      var n := f(a[i - 2]);
      n.left != 0 && n.right != 0 && n.left != n.right && a[i - 1] == Next(n, key)
  {
    ShowsAt(H, f, t, at, key, i - 2);
  }

  /** A round over memory that agrees on what it reads reads the same. */
  lemma SameFamily(H: Hasher, f: Image, f': Image, g: Image, root: Node, t: Tree, key: U64, i: nat, n: nat)
    requires Shows(H, g, t, root.right, key) && Guardian(root) && 0 < i <= |Path(t, key)|
    requires forall x :: x in PathReads(g, t, root.right, key, i) ==> f(x) == g(x)
    ensures var a := Trail(g, t, root.right, key);
      && ReadRound(root, a[..i], Phases(f, f'), 0) == ReadRound(root, a[..i], Static(g), n)
      && (i > 1 ==> var par := ReadRound(root, a[..i], Static(g), n).par; par.left != 0 && par.right != 0)
  {
    hide Shows, PathReads, Trail, Path;
    var a := Trail(g, t, root.right, key);
    ReadsAt(H, g, t, root.right, key, i);
    assert a[..i][i - 1] == a[i - 1];
    if i > 1 {
      Parent(H, g, t, root.right, key, i);
      assert a[..i][i - 2] == a[i - 2];
    }
  }

  /** Above the splice: each write-back goes where no later round looks. */
  lemma {:induction false} WriteBacks(H: Hasher, al: Allocator, f: Image, g: Image, root: Node, t: Tree,
                                      pages: map<U64, seq<byte>>,
                                      key: U64, i: nat, curr: Node, base: Node, steps: seq<Step>, n: nat, leaf: nat,
                                        parent: nat)
    requires Shows(H, g, t, root.right, key) && Guardian(root) && Ordered(t) && StoresPages(H, t, pages)
    requires !Clash(H, Inputs(H, t, pages), Inputs(H, t, pages))
    requires 0 < i < |Path(t, key)| && (curr.left != 0 || curr.right != 0)
    requires forall x :: x in PathReads(g, t, root.right, key, i) ==> f(x) == g(x)
    ensures var path := Trail(g, t, root.right, key)[..i];
      StoredRounds(H, al, root, path, curr, base, steps, f, leaf, parent).0
        == Rounds(H, root, path, curr, base, steps, Static(g), n, leaf, parent)
    decreases i
  {
    hide Shows, PathReads, Clash, Inputs, StoresPages, ReadRound, FamilyOk;
    var a := Trail(g, t, root.right, key);
    var path := a[..i];
    SameFamily(H, f, f, g, root, t, key, i, n);
    var fam := ReadRound(root, path, Static(g), n);
    var r := Turned(H, fam, path[i - 1], curr, Static(g), n, leaf, parent);
    assert r == Turned(H, fam, path[i - 1], curr, Phases(f, f), 0, leaf, parent);
    if i > 1 && FamilyOk(H, fam) && r.Some? {
      Unaliased(H, g, t, root.right, key, i, pages);
      ReadsAt(H, g, t, root.right, key, i);
      assert path[..i - 1] == a[..i - 1];
      WriteBacks(H, al, Put(f, a[i - 1], curr), g, root, t, pages, key, i - 1, r.value.next, base,
                 [Step(fam.onRight, fam.par.ptr, fam.sibling)] + steps, n + 6, leaf, parent);
    }
  }

  /** The allocator writes only its own addresses. */
  ghost predicate Confined(al: Allocator, own: set<nat>) {
    forall f: Image, x: nat :: x !in own ==> al.take(f)(x) == f(x) && al.give(f)(x) == f(x)
  }

  /** The allocator's own addresses are off the search path and its siblings, and the new leaf is not one of
      them. If the search ends in another key's leaf, the new parent is off all of these. */
  ghost predicate Quiet(own: set<nat>, f: Image, t: Tree, at: nat, key: U64, leaf: nat, parent: nat) {
    var all := PathReads(f, t, at, key, |Path(t, key)|);
    && own !! all && leaf !in own && leaf != 0
    && (Descend(t, key).key != key ==> parent !in own + all && parent != leaf && parent != 0)
  }

  /** Then the new leaf is off the path as well. */
  ghost predicate Fresh(own: set<nat>, f: Image, t: Tree, at: nat, key: U64, leaf: nat, parent: nat) {
    Quiet(own, f, t, at, key, leaf, parent) && leaf !in PathReads(f, t, at, key, |Path(t, key)|)
  }

  /** Memory with both new nodes in it: what a run without write-backs would read. */
  function Settled(H: Hasher, al: Allocator, f: Image, key: U64, hash: Digest, at: nat, leaf: nat, parent: nat): Image {
    var f0 := Begun(al, f, key, hash, leaf);
    if f0(leaf).ptr == f0(at).ptr then f0 else Put(f0, parent, Split(H, f0, at, leaf))
  }

  /** The bottom round: what the splice writes is what it reads back. */
  lemma SameTurn(H: Hasher, al: Allocator, own: set<nat>, fam: Family, f0: Image, g: Image, at: nat, curr: Node, n: nat,
                 leaf: nat, parent: nat)
    requires Confined(al, own) && leaf !in own && at !in own
    requires f0(leaf) == g(leaf) && f0(at) == g(at)
    requires f0(leaf).ptr != f0(at).ptr ==> g(parent) == Split(H, f0, at, leaf)
    ensures var mem := Phases(f0, Splice(H, al, f0, at, leaf, parent));
      && Turned(H, fam, at, curr, mem, 0, leaf, parent) == Turned(H, fam, at, curr, Static(g), n, leaf, parent)
      && SpliceTop(at, mem, 0, leaf, parent) == SpliceTop(at, Static(g), n, leaf, parent)
  {
    assert al.take(f0)(leaf) == f0(leaf) && al.take(f0)(at) == f0(at) && al.give(f0)(leaf) == f0(leaf);
  }

  lemma SpliceElsewhere(H: Hasher, al: Allocator, own: set<nat>, f0: Image, at: nat, leaf: nat, parent: nat, x: nat)
    requires Confined(al, own) && x !in own && (f0(leaf).ptr != f0(at).ptr ==> x != parent)
    ensures Splice(H, al, f0, at, leaf, parent)(x) == f0(x)
  {
    assert al.take(f0)(x) == f0(x) && al.give(f0)(x) == f0(x);
  }

  /** A round splices exactly at a leaf, and the parent it rewrites has children. */
  lemma TurnShape(H: Hasher, fam: Family, at: nat, curr: Node, mem: Memory, n: nat, leaf: nat, parent: nat)
    ensures var r := Turned(H, fam, at, curr, mem, n, leaf, parent);
      r.Some? ==>
        && r.value.spliced == (curr.left == 0 && curr.right == 0)
        && (fam.par.left != 0 && fam.par.right != 0 ==> r.value.next.left != 0 || r.value.next.right != 0)
  {}

  lemma TopNew(at: nat, mem: Memory, n: nat, leaf: nat, parent: nat)
    ensures SpliceTop(at, mem, n, leaf, parent) == if mem(n + 3, leaf).ptr == mem(n + 4, at).ptr then leaf else parent
  {}

  /** The search ends in the leaf that memory shows there. */
  lemma LastKey(H: Hasher, f: Image, t: Tree, at: nat, key: U64)
    requires Shows(H, f, t, at, key)
    ensures f(Trail(f, t, at, key)[|Path(t, key)| - 1]).ptr == Descend(t, key).key
  {
    ShowsAt(H, f, t, at, key, |Path(t, key)| - 1);
  }

  lemma FirstWrites(H: Hasher, al: Allocator, own: set<nat>, f0: Image, g: Image, root: Node, t: Tree,
                    pages: map<U64, seq<byte>>, key: U64, curr: Node, n: nat, leaf: nat, parent: nat)
    requires Shows(H, g, t, root.right, key) && Guardian(root) && Ordered(t) && StoresPages(H, t, pages)
    requires !Clash(H, Inputs(H, t, pages), Inputs(H, t, pages)) && curr.left == 0 && curr.right == 0
    requires Confined(al, own) && Fresh(own, g, t, root.right, key, leaf, parent)
    requires forall x :: x in PathReads(g, t, root.right, key, |Path(t, key)|) ==> f0(x) == g(x)
    requires f0(leaf) == g(leaf) && f0(leaf).ptr == key
    requires var at := Trail(g, t, root.right, key)[|Path(t, key)| - 1];
      f0(leaf).ptr != f0(at).ptr ==> g(parent) == Split(H, f0, at, leaf)
    ensures var path := Trail(g, t, root.right, key);
      StoredRounds(H, al, root, path, curr, curr, [], f0, leaf, parent).0
        == Rounds(H, root, path, curr, curr, [], Static(g), n, leaf, parent)
  {
    hide Shows, PathReads, Path, Trail, Clash, Inputs, StoresPages, ReadRound, FamilyOk, Confined, Splice, Split,
      Turned, SpliceTop;
    var d, a := |Path(t, key)|, Trail(g, t, root.right, key);
    var at := a[d - 1];
    var sp := Splice(H, al, f0, at, leaf, parent);
    assert a[..d] == a;
    LastKey(H, g, t, root.right, key);
    ReadsAt(H, g, t, root.right, key, d);
    SameFamily(H, f0, sp, g, root, t, key, d, n);
    var fam := ReadRound(root, a, Static(g), n);
    SameTurn(H, al, own, fam, f0, g, at, curr, n, leaf, parent);
    var r := Turned(H, fam, at, curr, Static(g), n, leaf, parent);
    TurnShape(H, fam, at, curr, Static(g), n, leaf, parent);
    if d > 1 && FamilyOk(H, fam) && r.Some? {
      TopNew(at, Static(g), n, leaf, parent);
      var back := Put(sp, SpliceTop(at, Static(g), n, leaf, parent), r.value.held);
      forall x | x in PathReads(g, t, root.right, key, d - 1)
        ensures back(x) == g(x)
      {
        SpliceElsewhere(H, al, own, f0, at, leaf, parent, x);
      }
      assert a[..d - 1] == a[..d][..d - 1];
      WriteBacks(H, al, back, g, root, t, pages, key, d - 1, r.value.next, r.value.held,
                 [Step(fam.onRight, fam.par.ptr, fam.sibling)] + [], n + 6, leaf, parent);
    }
  }

  /** What the walk and the splice leave in memory, at the addresses that matter. */
  lemma SettledAgrees(H: Hasher, al: Allocator, own: set<nat>, f: Image, t: Tree, at: nat, key: U64, hash: Digest,
                      leaf: nat, parent: nat, x: nat)
    requires Shows(H, f, t, at, key) && Confined(al, own) && Fresh(own, f, t, at, key, leaf, parent)
    requires x in PathReads(f, t, at, key, |Path(t, key)|)
    ensures var last := Trail(f, t, at, key)[|Path(t, key)| - 1];
      var f0, g := Begun(al, f, key, hash, leaf), Settled(H, al, f, key, hash, last, leaf, parent);
      f0(x) == f(x) && g(x) == f(x)
  {
    hide Shows, PathReads, Path, Trail;
    var last := Trail(f, t, at, key)[|Path(t, key)| - 1];
    LastKey(H, f, t, at, key);
    ReadsAt(H, f, t, at, key, |Path(t, key)|);
    assert al.take(f)(x) == f(x) && al.take(f)(last) == f(last);
  }

  lemma SettledLeaf(H: Hasher, al: Allocator, own: set<nat>, f: Image, t: Tree, at: nat, key: U64, hash: Digest,
                    leaf: nat, parent: nat)
    requires Shows(H, f, t, at, key) && Confined(al, own) && Fresh(own, f, t, at, key, leaf, parent)
    ensures var last := Trail(f, t, at, key)[|Path(t, key)| - 1];
      var f0, g := Begun(al, f, key, hash, leaf), Settled(H, al, f, key, hash, last, leaf, parent);
      && f0(leaf) == g(leaf) && f0(leaf).ptr == key
      && (f0(leaf).ptr != f0(last).ptr ==> g(parent) == Split(H, f0, last, leaf))
  {
    hide Shows, PathReads, Path, Trail, Split;
    var last := Trail(f, t, at, key)[|Path(t, key)| - 1];
    LastKey(H, f, t, at, key);
    ReadsAt(H, f, t, at, key, |Path(t, key)|);
    assert al.take(f)(last) == f(last);
  }

  lemma SettledShows(H: Hasher, al: Allocator, own: set<nat>, f: Image, t: Tree, at: nat, key: U64, hash: Digest,
                     leaf: nat, parent: nat) returns (last: nat)
    requires Shows(H, f, t, at, key) && Confined(al, own) && Fresh(own, f, t, at, key, leaf, parent)
    ensures last == Trail(f, t, at, key)[|Path(t, key)| - 1]
    ensures var f0, g := Begun(al, f, key, hash, leaf), Settled(H, al, f, key, hash, last, leaf, parent);
      && Shows(H, f0, t, at, key) && Shows(H, g, t, at, key) && Fresh(own, g, t, at, key, leaf, parent)
      && Trail(f0, t, at, key) == Trail(g, t, at, key) == Trail(f, t, at, key)
      && (forall x :: x in PathReads(g, t, at, key, |Path(t, key)|) ==> f0(x) == g(x))
      && f0(leaf) == g(leaf) && f0(leaf).ptr == key
      && (f0(leaf).ptr != f0(last).ptr ==> g(parent) == Split(H, f0, last, leaf))
  {
    hide Shows, PathReads, Path, Trail, Split, Begun, Settled, Confined;
    last := Trail(f, t, at, key)[|Path(t, key)| - 1];
    var f0, g, d := Begun(al, f, key, hash, leaf), Settled(H, al, f, key, hash, last, leaf, parent), |Path(t, key)|;
    forall x | x in PathReads(f, t, at, key, d)
      ensures f0(x) == f(x) && g(x) == f(x)
    {
      SettledAgrees(H, al, own, f, t, at, key, hash, leaf, parent, x);
    }
    SettledLeaf(H, al, own, f, t, at, key, hash, leaf, parent);
    ShowsFrame(H, f, f0, t, at, key);
    ShowsFrame(H, f, g, t, at, key);
    PathReadsFrame(H, f, g, t, at, key, d);
  }

  /** The walk visits the same nodes with and without the new parent in memory. */
  lemma SameWalk(H: Hasher, f0: Image, g: Image, t: Tree, at: nat, key: U64)
    requires Shows(H, f0, t, at, key) && Shows(H, g, t, at, key) && Trail(f0, t, at, key) == Trail(g, t, at, key)
    requires forall x :: x in PathReads(g, t, at, key, |Path(t, key)|) ==> f0(x) == g(x)
    ensures var d := Least(|Path(t, key)|, MAX_DEPTH - 1);
      var path := Trail(g, t, at, key)[..d];
      && Walked(Static(f0), 0, at, key, MAX_DEPTH - 2) == path && Walked(Static(g), 0, at, key, MAX_DEPTH - 2) == path
      && f0(path[d - 1]) == g(path[d - 1])
      && (forall x :: x in PathReads(g, t, at, key, d) ==> f0(x) == g(x))
      && (d == |Path(t, key)| ==> g(path[d - 1]).left == 0 && g(path[d - 1]).right == 0)
      && (d < |Path(t, key)| ==> g(path[d - 1]).left != 0)
  {
    var d := Least(|Path(t, key)|, MAX_DEPTH - 1);
    ShownWalk(H, f0, t, at, key, 0, MAX_DEPTH - 2);
    ShownWalk(H, g, t, at, key, 0, MAX_DEPTH - 2);
    ShowsAt(H, g, t, at, key, d - 1);
    ReadsAt(H, g, t, at, key, d);
    ReadsGrow(g, t, at, key, d, |Path(t, key)|);
  }

  lemma RootThere(H: Hasher, f: Image, t: Tree, at: nat, key: U64)
    requires Shows(H, f, t, at, key)
    ensures at != 0
  {}

  /** An insertion whose writes land in the memory it reads computes what it would compute without them,
      if memory shows a tree along the path: or two inputs of that tree clash. */
  lemma WritesUnseen(H: Hasher, al: Allocator, own: set<nat>, root: Node, t: Tree, pages: map<U64, seq<byte>>,
                     key: U64, hash: Digest, f: Image, leaf: nat, parent: nat)
    requires Shows(H, f, t, root.right, key) && Guardian(root) && Ordered(t) && StoresPages(H, t, pages)
    requires !Clash(H, Inputs(H, t, pages), Inputs(H, t, pages))
    requires Confined(al, own) && Fresh(own, f, t, root.right, key, leaf, parent)
    ensures var last := Trail(f, t, root.right, key)[|Path(t, key)| - 1];
      var g := Settled(H, al, f, key, hash, last, leaf, parent);
      StoredInsert(H, al, root, key, hash, f, leaf, parent).0 == InsertRun(H, root, key, hash, Static(g), leaf, parent)
  {
    hide Shows, PathReads, Path, Trail, Clash, Inputs, StoresPages, Confined, Fresh, Settled, Begun, Split,
      StoredRounds, Rounds, Walked;
    var last := SettledShows(H, al, own, f, t, root.right, key, hash, leaf, parent);
    var f0, g := Begun(al, f, key, hash, leaf), Settled(H, al, f, key, hash, last, leaf, parent);
    var d, a := Least(|Path(t, key)|, MAX_DEPTH - 1), Trail(g, t, root.right, key);
    SameWalk(H, f0, g, t, root.right, key);
    RootThere(H, g, t, root.right, key);
    var curr := g(a[d - 1]);
    if d == |Path(t, key)| {
      assert a[..d] == a;
      FirstWrites(H, al, own, f0, g, root, t, pages, key, curr, 65, leaf, parent);
    } else {
      WriteBacks(H, al, f0, g, root, t, pages, key, d, curr, curr, [], 65, leaf, parent);
    }
  }

  /** The node the splice reads back is the inserted subtree's. */
  lemma SettledWritten(H: Hasher, al: Allocator, own: set<nat>, f: Image, t: Tree, at: nat, key: U64, hash: Digest,
                       leaf: nat, parent: nat)
    requires Shows(H, f, t, at, key) && Confined(al, own) && Fresh(own, f, t, at, key, leaf, parent)
    ensures var last := Trail(f, t, at, key)[|Path(t, key)| - 1];
      var g := Settled(H, al, f, key, hash, last, leaf, parent);
      Shows(H, g, t, at, key) && Written(H, g, t, key, hash, leaf, parent)
  {
    var last := SettledShows(H, al, own, f, t, at, key, hash, leaf, parent);
    var f0, d := Begun(al, f, key, hash, leaf), |Path(t, key)|;
    ShowsAt(H, f0, t, at, key, d - 1);
    ReadsAt(H, f, t, at, key, d);
    var q := Descend(t, key);
    EncLeaf(H, q, f0(last));
    EncLeaf(H, Leaf(leaf, key, hash), f0(leaf));
    InnerNode(H, parent, q.key, Leaf(leaf, key, hash), q);
    InnerNode(H, parent, key, q, Leaf(leaf, key, hash));
  }

  /** With the new nodes off the path the new root stands for the tree with the key inserted, or for the tree
      as it was if the path is too long. */
  lemma FreshCommits(H: Hasher, al: Allocator, own: set<nat>, root: Node, t: Tree, pages: map<U64, seq<byte>>,
                      key: U64, hash: Digest, f: Image, leaf: nat, parent: nat)
    requires Shows(H, f, t, root.right, key) && Guardian(root) && Ordered(t) && StoresPages(H, t, pages)
    requires !Clash(H, Inputs(H, t, pages), Inputs(H, t, pages))
    requires Confined(al, own) && Fresh(own, f, t, root.right, key, leaf, parent)
    ensures var out := StoredInsert(H, al, root, key, hash, f, leaf, parent).0;
      out.Done? && Commits(H, out.root, Grown(t, key, hash, leaf, parent, Reached(t, key)))
  {
    hide StoredInsert, InsertRun, Shows, Settled, Grown;
    WritesUnseen(H, al, own, root, t, pages, key, hash, f, leaf, parent);
    SettledWritten(H, al, own, f, t, root.right, key, hash, leaf, parent);
    var last := Trail(f, t, root.right, key)[|Path(t, key)| - 1];
    ShownInsert(H, Settled(H, al, f, key, hash, last, leaf, parent), root, t, key, hash, leaf, parent);
  }
}
