/** Insertion into memory that answers every read of one address alike: what makes the new root right,
    and what makes it wrong. */
module MerkleStatic {
  import opened Bytes
  import opened MerkleVerify
  import opened MerkleTree
  import opened MerkleUntrusted
  import opened MerkleCommit
  import opened Options

  type Image = nat -> Node

  function Static(f: Image): Memory {
    (n: nat, a: nat) => f(a)
  }

  /** Along the search path of `key` the memory shows t: keys and digests are the tree's, interior nodes
      have two children at different addresses, and the siblings are the tree's too. Nothing is said
      about the rest of memory. */
  ghost predicate Shows(H: Hasher, f: Image, t: Tree, at: nat, key: U64)
    decreases t
  {
    var n := f(at);
    && at != 0 && Matches(H, n, t)
    && match t
       case Leaf(_, _, _) => n.left == 0 && n.right == 0
       case Inner(_, k, _, _) =>
         && n.left != 0 && n.right != 0 && n.left != n.right
         && Matches(H, f(if key < k then n.right else n.left), Sibling(t, key))
         && Shows(H, f, Child(t, key), if key < k then n.left else n.right, key)
  }

  /** The addresses on that path. */
  function Trail(f: Image, t: Tree, at: nat, key: U64): (p: seq<nat>)
    ensures |p| == |Path(t, key)| && p[0] == at
    decreases t
  {
    match t
    case Leaf(_, _, _) => [at]
    case Inner(_, k, _, _) => [at] + Trail(f, Child(t, key), if key < k then f(at).left else f(at).right, key)
  }

  lemma {:induction false} ShowsAt(H: Hasher, f: Image, t: Tree, at: nat, key: U64, i: nat)
    requires Shows(H, f, t, at, key) && i < |Path(t, key)|
    ensures var p, a := Path(t, key), Trail(f, t, at, key);
      && Shows(H, f, p[i], a[i], key)
      && (p[i].Inner? <==> i + 1 < |p|)
      && (p[i].Inner? ==> p[i + 1] == Child(p[i], key)
                          && a[i + 1] == if key < p[i].key then f(a[i]).left else f(a[i]).right)
      && (p[i].Leaf? ==> p[i] == Descend(t, key))
    decreases t
  {
    if t.Inner? && i > 0 {
      ShowsAt(H, f, Child(t, key), if key < t.key then f(at).left else f(at).right, key, i - 1);
    }
  }

  /** The walk follows the path for as long as there is room. */
  lemma {:induction false} ShownWalk(H: Hasher, f: Image, t: Tree, at: nat, key: U64, n: nat, room: nat)
    requires Shows(H, f, t, at, key)
    ensures Walked(Static(f), n, at, key, room) == Trail(f, t, at, key)[..Least(|Path(t, key)|, room + 1)]
    decreases t
  {
    if t.Inner? && room > 0 {
      var next := if key < t.key then f(at).left else f(at).right;
      ShownWalk(H, f, Child(t, key), next, key, n + 2, room - 1);
      var rest := Trail(f, Child(t, key), next, key);
      assert ([at] + rest)[..Least(|rest|, room) + 1] == [at] + rest[..Least(|rest|, room)];
    }
  }

  function Least(a: nat, b: nat): nat {
    if a < b then a else b
  }

  /** The family of a node on the path: it checks, and it is the tree's. */
  ghost predicate TrueFamily(H: Hasher, g: Family, q: Tree, at: nat, key: U64)
    requires q.Inner?
  {
    && Matches(H, g.par, q) && g.onRight == (q.key <= key) && FamilyOk(H, g)
    && g.sibling.Some? && Matches(H, g.sibling.value, Sibling(q, key))
    && g.par.left != 0 && g.par.right != 0 && (if g.onRight then g.par.right else g.par.left) == at
  }

  lemma EncMatches(H: Hasher, n: Node, t: Tree)
    requires Matches(H, n, t)
    ensures EncChild(Some(n)) == EncTree(H, t)
  {}

  lemma ShownFamily(H: Hasher, f: Image, root: Node, t: Tree, at: nat, key: U64, i: nat, n: nat)
    requires Shows(H, f, t, at, key) && 1 < i <= |Path(t, key)|
    ensures var p, a := Path(t, key), Trail(f, t, at, key);
      && p[i - 2].Inner? && p[i - 1] == Child(p[i - 2], key)
      && TrueFamily(H, ReadRound(root, a[..i], Static(f), n), p[i - 2], a[i - 1], key)
  {
    ShowsAt(H, f, t, at, key, i - 2);
    ShowsAt(H, f, t, at, key, i - 1);
    var p, a := Path(t, key), Trail(f, t, at, key);
    var g := ReadRound(root, a[..i], Static(f), n);
    var q := p[i - 2];
    assert a[..i][i - 2] == a[i - 2] && a[..i][i - 1] == a[i - 1];
    EncMatches(H, g.seen, p[i - 1]);
    EncMatches(H, g.sibling.value, Sibling(q, key));
  }

  /** An insertion visits at most 31 nodes. If it has not met a leaf by then, it splices nothing in. */
  predicate Reached(t: Tree, key: U64) {
    |Path(t, key)| < 32
  }

  /** What an insertion makes of a subtree on the path. */
  function Grown(t: Tree, key: U64, hash: Digest, leaf: nat, parent: nat, reached: bool): Tree {
    if reached then Inserted(t, key, hash, leaf, parent) else t
  }

  /** What the splice leaves is read back as written. */
  ghost predicate Written(H: Hasher, f: Image, t: Tree, key: U64, hash: Digest, leaf: nat, parent: nat) {
    var last := Descend(t, key);
    && leaf != 0 && f(leaf) == Node(key, hash, 0, 0)
    && (last.key != key ==> parent != 0 && Matches(H, f(parent), Inserted(last, key, hash, leaf, parent)))
  }

  /** The node in hand when round i begins. */
  ghost predicate InHand(H: Hasher, t: Tree, key: U64, hash: Digest, leaf: nat, parent: nat, reached: bool, i: nat,
                         curr: Node)
    requires 0 < i <= |Path(t, key)|
  {
    var p := Path(t, key);
    if i == |p| then Matches(H, curr, p[i - 1]) && curr.left == 0 && curr.right == 0
    else Matches(H, curr, Grown(p[i - 1], key, hash, leaf, parent, reached)) && (curr.left != 0 || curr.right != 0)
  }

  /** A round turns the node in hand into the inserted subtree. */
  lemma ShownTurn(H: Hasher, f: Image, g: Family, t: Tree, at: nat, key: U64, hash: Digest, leaf: nat, parent: nat,
                  reached: bool, i: nat, curr: Node, n: nat)
    requires Shows(H, f, t, at, key) && (reached ==> Written(H, f, t, key, hash, leaf, parent))
    requires 0 < i <= |Path(t, key)| && (i == |Path(t, key)| ==> reached)
    requires InHand(H, t, key, hash, leaf, parent, reached, i, curr)
    requires (if g.onRight then g.par.right else g.par.left) == Trail(f, t, at, key)[i - 1]
    ensures var r := Turned(H, g, Trail(f, t, at, key)[i - 1], curr, Static(f), n, leaf, parent);
      && r.Some? && r.value.spliced == (i == |Path(t, key)|)
      && Matches(H, r.value.held, Grown(Path(t, key)[i - 1], key, hash, leaf, parent, reached))
      && r.value.next.ptr == g.par.ptr && r.value.next.hash == H(Pair(g.onRight, g.sibling, r.value.held))
      && var top := SpliceTop(Trail(f, t, at, key)[i - 1], Static(f), n, leaf, parent);
         && r.value.next.left == (if r.value.spliced && !g.onRight then top else g.par.left)
         && r.value.next.right == (if r.value.spliced && g.onRight then top else g.par.right)
  {
    ShowsAt(H, f, t, at, key, i - 1);
  }

  /** The rewritten parent is the next larger inserted subtree, and the steps follow it. */
  lemma ShownStep(H: Hasher, g: Family, q: Tree, at: nat, key: U64, hash: Digest, leaf: nat, parent: nat,
                  reached: bool, held: Node, base: Node, steps: seq<Step>)
    requires q.Inner? && TrueFamily(H, g, q, at, key)
    requires Matches(H, held, Grown(Child(q, key), key, hash, leaf, parent, reached))
    requires Follows(H, Grown(Child(q, key), key, hash, leaf, parent, reached), base, steps)
    ensures var up := Grown(q, key, hash, leaf, parent, reached);
      && g.par.ptr == up.key && H(Pair(g.onRight, g.sibling, held)) == HashOf(H, up)
      && Follows(H, up, base, [Step(g.onRight, g.par.ptr, g.sibling)] + steps)
  {
    EncMatches(H, held, Grown(Child(q, key), key, hash, leaf, parent, reached));
    EncMatches(H, g.sibling.value, Sibling(q, key));
    var all := [Step(g.onRight, g.par.ptr, g.sibling)] + steps;
    assert all[1..] == steps;
  }

  lemma LastFamily(H: Hasher, root: Node, path: seq<nat>, mem: Memory, n: nat)
    requires Guardian(root) && |path| == 1 && path[0] == root.right
    ensures var g := ReadRound(root, path, mem, n); g.par == root && g.onRight && g.sibling == None && FamilyOk(H, g)
  {}

  /** The upward loop: the new root stands for the inserted tree, or for the old one. */
  lemma {:induction false} ShownRounds(H: Hasher, f: Image, root: Node, t: Tree, key: U64, hash: Digest, leaf: nat,
                                       parent: nat, reached: bool, i: nat, curr: Node, base: Node, steps: seq<Step>,
                                         n: nat)
    requires Shows(H, f, t, root.right, key) && (reached ==> Written(H, f, t, key, hash, leaf, parent))
      && Guardian(root)
    requires 0 < i <= |Path(t, key)| && (i == |Path(t, key)| ==> reached)
    requires InHand(H, t, key, hash, leaf, parent, reached, i, curr)
    requires i < |Path(t, key)| ==> Follows(H, Grown(Path(t, key)[i - 1], key, hash, leaf, parent, reached), base,
      steps)
    ensures var t', a := Grown(t, key, hash, leaf, parent, reached), Trail(f, t, root.right, key);
      var out := Rounds(H, root, a[..i], curr, base, steps, Static(f), n, leaf, parent);
      && out.Done? && Commits(H, out.root, t') && Follows(H, t', out.base, out.steps)
    decreases i
  {
    hide Shows, Written, Turned, FamilyOk, Grown;
    var p, a, mem := Path(t, key), Trail(f, t, root.right, key), Static(f);
    var g := ReadRound(root, a[..i], mem, n);
    if i > 1 {
      ShownFamily(H, f, root, t, root.right, key, i, n);
    } else {
      LastFamily(H, root, a[..i], mem, n);
    }
    ShownTurn(H, f, g, t, root.right, key, hash, leaf, parent, reached, i, curr, n);
    var r := Turned(H, g, a[i - 1], curr, mem, n, leaf, parent).value;
    var below := Grown(p[i - 1], key, hash, leaf, parent, reached);
    var (b, rest) := if r.spliced then (r.held, []) else (base, steps);
    assert Follows(H, below, b, rest);
    if i > 1 {
      ShownStep(H, g, p[i - 2], a[i - 1], key, hash, leaf, parent, reached, r.held, b, rest);
      assert a[..i][..i - 1] == a[..i - 1];
      ShownRounds(H, f, root, t, key, hash, leaf, parent, reached, i - 1, r.next, b,
                  [Step(g.onRight, g.par.ptr, g.sibling)] + rest, n + 6);
    } else {
      EncMatches(H, r.held, below);
      assert [] + EncTree(H, below) == EncTree(H, below);
      SpliceNonzero(H, f, t, root.right, key, hash, leaf, parent, reached, n);
    }
  }

  lemma SpliceNonzero(H: Hasher, f: Image, t: Tree, at: nat, key: U64, hash: Digest, leaf: nat, parent: nat,
                      reached: bool, n: nat)
    requires Shows(H, f, t, at, key) && (reached ==> Written(H, f, t, key, hash, leaf, parent))
    ensures at != 0
    ensures |Path(t, key)| == 1 && reached ==> SpliceTop(Trail(f, t, at, key)[0], Static(f), n, leaf, parent) != 0
  {
    ShowsAt(H, f, t, at, key, 0);
  }

  /** Memory that shows any tree along the path makes the new root stand, whatever the old root stood for,
      for that tree with the key inserted if the path has fewer than 32 nodes, and for that tree as it was
      if it has more: then the key is dropped and the call still returns 0. */
  lemma ShownInsert(H: Hasher, f: Image, root: Node, t: Tree, key: U64, hash: Digest, leaf: nat, parent: nat)
    requires Shows(H, f, t, root.right, key) && Guardian(root)
    requires Reached(t, key) ==> Written(H, f, t, key, hash, leaf, parent)
    ensures var t', out := Grown(t, key, hash, leaf, parent, Reached(t, key)),
      InsertRun(H, root, key, hash, Static(f), leaf, parent);
      out.Done? && Commits(H, out.root, t') && Follows(H, t', out.base, out.steps)
  {
    var d, a := Least(|Path(t, key)|, MAX_DEPTH - 1), Trail(f, t, root.right, key);
    ShownWalk(H, f, t, root.right, key, 0, MAX_DEPTH - 2);
    ShowsAt(H, f, t, root.right, key, d - 1);
    var curr := f(a[d - 1]);
    ShownRounds(H, f, root, t, key, hash, leaf, parent, Reached(t, key), d, curr, curr, [], 65);
  }

  /** So a new key is bound if and only if its path has fewer than 32 nodes. */
  lemma BoundIffReached(t: Tree, key: U64, hash: Digest, leaf: nat, parent: nat)
    requires Ordered(t)
    ensures var t' := Grown(t, key, hash, leaf, parent, Reached(t, key));
      && Ordered(t') && Contents(t') == (if Reached(t, key) then Contents(t)[key := hash] else Contents(t))
      && (key !in Keys(t) ==> (key in Keys(t') <==> Reached(t, key)))
  {
    InsertOrdered(t, key, hash, leaf, parent);
    InsertContents(t, key, hash, leaf, parent);
    InsertKeys(t, key, hash, leaf, parent);
  }

  // ---------------------------------------------------------------- verification before insertion

  /** Equal digests come from trees with equal keys, or two inputs clash. */
  lemma {:induction false} TwinTrees(H: Hasher, a: Tree, b: Tree, pages: map<U64, seq<byte>>)
    requires StoresPages(H, a, pages) && StoresPages(H, b, pages) && a.key == b.key && HashOf(H, a) == HashOf(H, b)
    ensures Keys(a) == Keys(b) || Clash(H, Inputs(H, a, pages), Inputs(H, b, pages))
    decreases a
  {
    if a.Leaf? && b.Inner? {
      ClashWitness(H, Inputs(H, a, pages), Inputs(H, b, pages), pages[a.key], EncTree(H, b.left) + EncTree(H, b.right));
    } else if a.Inner? && b.Leaf? {
      ClashWitness(H, Inputs(H, a, pages), Inputs(H, b, pages), EncTree(H, a.left) + EncTree(H, a.right), pages[b.key]);
    } else if a.Inner? && b.Inner? {
      TwinInner(H, a, b, pages);
    }
  }

  lemma TwinInner(H: Hasher, a: Tree, b: Tree, pages: map<U64, seq<byte>>)
    requires a.Inner? && b.Inner? && HashOf(H, a) == HashOf(H, b)
    requires StoresPages(H, a, pages) && StoresPages(H, b, pages)
    ensures Keys(a) == Keys(b) || Clash(H, Inputs(H, a, pages), Inputs(H, b, pages))
    decreases a, 0
  {
    var x, y := EncTree(H, a.left) + EncTree(H, a.right), EncTree(H, b.left) + EncTree(H, b.right);
    if x != y {
      ClashWitness(H, Inputs(H, a, pages), Inputs(H, b, pages), x, y);
    } else {
      EncPairInjective(EncTree(H, a.left), EncTree(H, a.right), EncTree(H, b.left), EncTree(H, b.right));
      EncInjective(a.left.key, HashOf(H, a.left), b.left.key, HashOf(H, b.left));
      EncInjective(a.right.key, HashOf(H, a.right), b.right.key, HashOf(H, b.right));
      TwinTrees(H, a.left, b.left, pages);
      TwinTrees(H, a.right, b.right, pages);
      if Clash(H, Inputs(H, a.left, pages), Inputs(H, b.left, pages)) {
        ClashGrows(H, Inputs(H, a.left, pages), Inputs(H, b.left, pages), Inputs(H, a, pages), Inputs(H, b, pages));
      } else if Clash(H, Inputs(H, a.right, pages), Inputs(H, b.right, pages)) {
        ClashGrows(H, Inputs(H, a.right, pages), Inputs(H, b.right, pages), Inputs(H, a, pages), Inputs(H, b, pages));
      }
    }
  }

  lemma {:induction false} SomeKey(t: Tree) returns (k: U64)
    ensures k in Keys(t)
  {
    match t
    case Leaf(_, x, _) => k := x;
    case Inner(_, _, l, _) => k := SomeKey(l);
  }

  /** The two subtrees of an ordered tree are not stored at one address. */
  lemma ApartChildren(H: Hasher, t: Tree, n: Node, pages: map<U64, seq<byte>>)
    requires t.Inner? && Ordered(t) && StoresPages(H, t, pages) && Matches(H, n, t.left) && Matches(H, n, t.right)
    ensures Clash(H, Inputs(H, t, pages), Inputs(H, t, pages))
  {
    TwinTrees(H, t.left, t.right, pages);
    var k := SomeKey(t.left);
    assert k in Keys(t.left) && k !in Keys(t.right);
    ClashGrows(H, Inputs(H, t.left, pages), Inputs(H, t.right, pages), Inputs(H, t, pages), Inputs(H, t, pages));
  }

  /** A verification that accepts a page has been shown the tree along the path. */
  lemma {:induction false} AcceptedPath(H: Hasher, t: Tree, pages: map<U64, seq<byte>>, page: seq<byte>, f: Image,
                                        at: nat, left: Node, right: Node, key: U64, n: nat, limit: nat)
    requires StoresPages(H, t, pages) && PageInput(page) && Ordered(t) && at != 0 && Matches(H, f(at), t)
    requires Layers(H, f(at), left, right, key, H(page), Static(f), n, limit).verdict == Accept
    ensures var run := Layers(H, f(at), left, right, key, H(page), Static(f), n, limit);
      Shows(H, f, t, at, key) || Clash(H, run.hashed + {page} + Inputs(H, t, pages), Inputs(H, t, pages))
    decreases t
  {
    var node, run := f(at), Layers(H, f(at), left, right, key, H(page), Static(f), n, limit);
    var mine := run.hashed + {page} + Inputs(H, t, pages);
    if node.left == 0 && node.right == 0 {
      if t.Inner? {
        ClashWitness(H, mine, Inputs(H, t, pages), page, EncTree(H, t.left) + EncTree(H, t.right));
      }
    } else {
      var l, r := ReadChild(Static(f), n, node.left), ReadChild(Static(f), n + 1, node.right);
      LayerSound(H, node, t, l, r, pages, mine);
      if !Clash(H, mine, Inputs(H, t, pages)) {
        AcceptedLayer(H, t, pages, page, f, at, left, right, key, n, limit);
      }
    }
  }

  lemma AcceptedLayer(H: Hasher, t: Tree, pages: map<U64, seq<byte>>, page: seq<byte>, f: Image, at: nat,
                      left: Node, right: Node, key: U64, n: nat, limit: nat)
    requires t.Inner? && StoresPages(H, t, pages) && PageInput(page) && Ordered(t) && at != 0 && Matches(H, f(at), t)
    requires f(at).left != 0 && f(at).right != 0
    requires Matches(H, f(f(at).left), t.left) && Matches(H, f(f(at).right), t.right)
    requires Layers(H, f(at), left, right, key, H(page), Static(f), n, limit).verdict == Accept
    ensures var run := Layers(H, f(at), left, right, key, H(page), Static(f), n, limit);
      Shows(H, f, t, at, key) || Clash(H, run.hashed + {page} + Inputs(H, t, pages), Inputs(H, t, pages))
    decreases t, 0
  {
    hide HashOf, EncTree, Enc, EncChild;
    var node, run := f(at), Layers(H, f(at), left, right, key, H(page), Static(f), n, limit);
    var mine, all := run.hashed + {page} + Inputs(H, t, pages), Inputs(H, t, pages);
    if node.left == node.right {
      ApartChildren(H, t, f(node.left), pages);
      ClashGrows(H, all, all, mine, all);
    } else {
      var next, child := if key < node.ptr then node.left else node.right, Child(t, key);
      var rest := Layers(H, f(next), f(node.left), f(node.right), key, H(page), Static(f), n + 2, limit - 1);
      AcceptedPath(H, child, pages, page, f, next, f(node.left), f(node.right), key, n + 2, limit - 1);
      if Clash(H, rest.hashed + {page} + Inputs(H, child, pages), Inputs(H, child, pages)) {
        ClashGrows(H, rest.hashed + {page} + Inputs(H, child, pages), Inputs(H, child, pages), mine, all);
      }
    }
  }
}
