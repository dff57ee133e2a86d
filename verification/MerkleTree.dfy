/** Insertion into the Merkle search tree while the node memory is honest, and what verification
    answers afterwards: together they implement a map from keys to digests. */
module MerkleTree {
  import opened Bytes
  import opened MerkleVerify
  import opened NodePool
  import opened Options

  type Heap = map<nat, Node>

  // ---------------------------------------------------------------- trees in memory

  function NodeOf(H: Hasher, t: Tree): Node {
    match t
    case Leaf(_, k, h) => Node(k, h, 0, 0)
    case Inner(_, k, l, r) => Node(k, HashOf(H, t), l.addr, r.addr)
  }

  function Addrs(t: Tree): set<nat> {
    match t
    case Leaf(a, _, _) => {a}
    case Inner(a, _, l, r) => {a} + Addrs(l) + Addrs(r)
  }

  /** No null node and no node used twice. */
  predicate Placed(t: Tree) {
    t.addr != 0 &&
    match t
    case Leaf(_, _, _) => true
    case Inner(a, _, l, r) => Placed(l) && Placed(r) && a !in Addrs(l) + Addrs(r) && Addrs(l) !! Addrs(r)
  }

  predicate Stored(H: Hasher, heap: Heap, t: Tree) {
    t.addr in heap && heap[t.addr] == NodeOf(H, t) &&
    match t
    case Leaf(_, _, _) => true
    case Inner(_, _, l, r) => Stored(H, heap, l) && Stored(H, heap, r)
  }

  ghost predicate Agree(heap: Heap, heap': Heap, s: set<nat>) {
    forall a :: a in s && a in heap ==> a in heap' && heap'[a] == heap[a]
  }

  lemma {:induction false} StoredFrame(H: Hasher, heap: Heap, heap': Heap, t: Tree)
    requires Stored(H, heap, t) && Agree(heap, heap', Addrs(t))
    ensures Stored(H, heap', t)
  {
    match t
    case Leaf(_, _, _) =>
    case Inner(_, _, l, r) =>
      StoredFrame(H, heap, heap', l);
      StoredFrame(H, heap, heap', r);
  }

  lemma RootAddr(t: Tree)
    ensures t.addr in Addrs(t)
  {}

  lemma {:induction false} HeightBound(t: Tree)
    requires Placed(t)
    ensures Height(t) < |Addrs(t)|
  {
    match t
    case Leaf(_, _, _) =>
    case Inner(a, _, l, r) =>
      HeightBound(l);
      HeightBound(r);
      assert |Addrs(l) + Addrs(r)| == |Addrs(l)| + |Addrs(r)|;
      assert |{a} + (Addrs(l) + Addrs(r))| == 1 + |Addrs(l) + Addrs(r)|;
      assert Addrs(t) == {a} + (Addrs(l) + Addrs(r));
  }

  // ---------------------------------------------------------------- verification

  /** Honest memory: every read returns what is stored. */
  function Honest(heap: Heap, junk: Node): Memory {
    (n: nat, a: nat) => if a in heap then heap[a] else junk
  }

  /** Over honest memory a run that is long enough accepts exactly the stored digest. */
  lemma {:induction false} LayersComplete(H: Hasher, heap: Heap, t: Tree, left: Node, right: Node, key: U64,
                                          hash: Digest, junk: Node, n: nat, limit: nat)
    requires Placed(t) && Stored(H, heap, t) && Height(t) <= limit
    ensures Layers(H, NodeOf(H, t), left, right, key, hash, Honest(heap, junk), n, limit).verdict
         == if hash == Descend(t, key).hash then Accept else Reject
    decreases t
  {
    match t
    case Leaf(_, _, _) =>
    case Inner(_, k, l, r) =>
      var next := if key < k then l else r;
      LayersComplete(H, heap, next, heap[l.addr], heap[r.addr], key, hash, junk, n + 2, limit - 1);
      EncNodeOf(H, l);
      EncNodeOf(H, r);
      var mem := Honest(heap, junk);
      assert ReadChild(mem, n, l.addr) == Some(NodeOf(H, l)) && ReadChild(mem, n + 1, r.addr) == Some(NodeOf(H, r));
  }

  // ---------------------------------------------------------------- insertion

  /** Insertion on trees: overwrite the leaf of an equal key, or split the leaf the search ends in
      under a new interior node whose key is the larger of the two. */
  function Inserted(t: Tree, key: U64, hash: Digest, leaf: nat, parent: nat): Tree {
    match t
    case Leaf(_, k, _) =>
      if key == k then Leaf(leaf, key, hash)
      else if key < k then Inner(parent, k, Leaf(leaf, key, hash), t)
      else Inner(parent, key, t, Leaf(leaf, key, hash))
    case Inner(a, k, l, r) =>
      if key < k then Inner(a, k, Inserted(l, key, hash, leaf, parent), r)
      else Inner(a, k, l, Inserted(r, key, hash, leaf, parent))
  }

  lemma {:induction false} InsertKeys(t: Tree, key: U64, hash: Digest, leaf: nat, parent: nat)
    ensures Keys(Inserted(t, key, hash, leaf, parent)) == Keys(t) + {key}
  {
    match t
    case Leaf(_, _, _) =>
    case Inner(_, k, l, r) =>
      if key < k { InsertKeys(l, key, hash, leaf, parent); } else { InsertKeys(r, key, hash, leaf, parent); }
  }

  /** Insertion keeps the search order. */
  lemma {:induction false} InsertOrdered(t: Tree, key: U64, hash: Digest, leaf: nat, parent: nat)
    requires Ordered(t)
    ensures Ordered(Inserted(t, key, hash, leaf, parent))
  {
    match t
    case Leaf(_, _, _) =>
    case Inner(_, k, l, r) =>
      if key < k {
        InsertOrdered(l, key, hash, leaf, parent);
        InsertKeys(l, key, hash, leaf, parent);
      } else {
        InsertOrdered(r, key, hash, leaf, parent);
        InsertKeys(r, key, hash, leaf, parent);
      }
  }

  lemma UpdateLeft(m: map<U64, Digest>, n: map<U64, Digest>, key: U64, hash: Digest)
    requires key !in n
    ensures m[key := hash] + n == (m + n)[key := hash]
  {}

  lemma UpdateRight(m: map<U64, Digest>, n: map<U64, Digest>, key: U64, hash: Digest)
    ensures m + n[key := hash] == (m + n)[key := hash]
  {}

  /** Insertion is map update. */
  lemma {:induction false} InsertContents(t: Tree, key: U64, hash: Digest, leaf: nat, parent: nat)
    requires Ordered(t)
    ensures Contents(Inserted(t, key, hash, leaf, parent)) == Contents(t)[key := hash]
  {
    match t
    case Leaf(_, _, _) =>
    case Inner(_, k, l, r) =>
      if key < k {
        InsertContents(l, key, hash, leaf, parent);
        ContentsKeys(r);
        assert key !in Contents(r);
        UpdateLeft(Contents(l), Contents(r), key, hash);
      } else {
        InsertContents(r, key, hash, leaf, parent);
        UpdateRight(Contents(l), Contents(r), key, hash);
      }
  }

  /** The nodes in use after an insertion: an overwritten leaf is released, a split takes the new
      parent as well. */
  lemma {:induction false} InsertPlaced(t: Tree, key: U64, hash: Digest, leaf: nat, parent: nat)
    requires Placed(t) && leaf != 0 && leaf !in Addrs(t)
    requires Descend(t, key).key != key ==> parent != 0 && parent != leaf && parent !in Addrs(t)
    ensures Placed(Inserted(t, key, hash, leaf, parent))
    ensures Addrs(Inserted(t, key, hash, leaf, parent))
         == if Descend(t, key).key == key then Addrs(t) - {Descend(t, key).addr} + {leaf}
            else Addrs(t) + {leaf, parent}
    ensures Descend(t, key).addr in Addrs(t)
  {
    match t
    case Leaf(_, _, _) =>
    case Inner(_, k, l, r) =>
      if key < k { InsertPlaced(l, key, hash, leaf, parent); } else { InsertPlaced(r, key, hash, leaf, parent); }
  }

  // ---------------------------------------------------------------- the search path

  /** The subtrees on the search path of `key`, topmost first. */
  function Path(t: Tree, key: U64): (p: seq<Tree>)
    ensures |p| > 0 && p[0] == t
  {
    match t
    case Leaf(_, _, _) => [t]
    case Inner(_, k, l, r) => [t] + Path(if key < k then l else r, key)
  }

  /** Overwriting a stored key changes the length of no search path. */
  lemma {:induction false} SameShape(t: Tree, key: U64, hash: Digest, leaf: nat, parent: nat, x: U64)
    requires Descend(t, key).key == key
    ensures |Path(Inserted(t, key, hash, leaf, parent), x)| == |Path(t, x)|
  {
    match t
    case Leaf(_, _, _) =>
    case Inner(_, k, l, r) =>
      if key < k { SameShape(l, key, hash, leaf, parent, x); } else { SameShape(r, key, hash, leaf, parent, x); }
  }

  function Child(t: Tree, key: U64): Tree
    requires t.Inner?
  {
    if key < t.key then t.left else t.right
  }

  function Sibling(t: Tree, key: U64): Tree
    requires t.Inner?
  {
    if key < t.key then t.right else t.left
  }

  /** The path steps from a subtree to its child, ends in the leaf of the search, and every subtree
      on it is stored and well placed. */
  lemma {:induction false} PathStep(H: Hasher, heap: Heap, t: Tree, key: U64, i: nat)
    requires i < |Path(t, key)|
    requires Placed(t) && Stored(H, heap, t)
    ensures var p := Path(t, key);
      && Placed(p[i]) && Stored(H, heap, p[i]) && Addrs(p[i]) <= Addrs(t)
      && (i + 1 < |p| <==> p[i].Inner?)
      && (p[i].Inner? ==> p[i + 1] == Child(p[i], key))
      && (p[i].Leaf? ==> p[i] == Descend(t, key))
  {
    if t.Inner? && i > 0 {
      PathStep(H, heap, Child(t, key), key, i - 1);
    }
  }

  // ---------------------------------------------------------------- percolation

  /** The root after its one child became t. */
  function Guard(H: Hasher, root: Node, t: Tree): Node {
    root.(hash := H(EncTree(H, t)), right := t.addr)
  }

  /** State of the upward loop after the subtree p[i] has been replaced: the new subtree is in
      memory, nothing outside the old one changed, and the rewritten parent is held in curr. */
  ghost predicate Percolated(H: Hasher, old_: Heap, heap: Heap, root: Node, p: seq<Tree>, i: nat,
                             key: U64, hash: Digest, leaf: nat, parent: nat, curr: Node)
    requires i < |p|
  {
    && Stored(H, heap, Inserted(p[i], key, hash, leaf, parent))
    && (forall a :: a in old_ && a !in Addrs(p[i]) && a != leaf && a != parent ==> a in heap && heap[a] == old_[a])
    && curr == if i == 0 then Guard(H, root, Inserted(p[0], key, hash, leaf, parent))
               else NodeOf(H, Inserted(p[i - 1], key, hash, leaf, parent))
  }

  /** One step up: writing the held node completes the next subtree. */
  lemma PercolateStep(H: Hasher, old_: Heap, heap: Heap, root: Node, t: Tree, i: nat,
                      key: U64, hash: Digest, leaf: nat, parent: nat, curr: Node, next: Node)
    requires Placed(t) && Stored(H, old_, t) && 0 < i < |Path(t, key)|
    requires leaf !in Addrs(t) && parent !in Addrs(t)
    requires Percolated(H, old_, heap, root, Path(t, key), i, key, hash, leaf, parent, curr)
    requires next == if i == 1 then Guard(H, root, Inserted(t, key, hash, leaf, parent))
                     else NodeOf(H, Inserted(Path(t, key)[i - 2], key, hash, leaf, parent))
    ensures Percolated(H, old_, heap[Path(t, key)[i - 1].addr := curr], root, Path(t, key), i - 1,
                       key, hash, leaf, parent, next)
  {
    var p := Path(t, key);
    PathStep(H, old_, t, key, i - 1);
    var up := p[i - 1];
    var below := Inserted(p[i], key, hash, leaf, parent);
    var heap' := heap[up.addr := curr];
    InsertAddrs(p[i], key, hash, leaf, parent);
    RootAddr(up);
    StoredFrame(H, heap, heap', below);
    StoredFrame(H, old_, heap', Sibling(up, key));
  }

  lemma {:induction false} InsertAddrs(t: Tree, key: U64, hash: Digest, leaf: nat, parent: nat)
    ensures Addrs(Inserted(t, key, hash, leaf, parent)) <= Addrs(t) + {leaf, parent}
  {
    match t
    case Leaf(_, _, _) =>
    case Inner(_, k, l, r) =>
      if key < k { InsertAddrs(l, key, hash, leaf, parent); } else { InsertAddrs(r, key, hash, leaf, parent); }
  }

  lemma SameShapes(t: Tree, key: U64, hash: Digest, leaf: nat, parent: nat)
    requires Descend(t, key).key == key
    ensures forall x :: |Path(Inserted(t, key, hash, leaf, parent), x)| == |Path(t, x)|
  {
    forall x
      ensures |Path(Inserted(t, key, hash, leaf, parent), x)| == |Path(t, x)|
    {
      SameShape(t, key, hash, leaf, parent, x);
    }
  }

  lemma {:induction false} NullUnused(t: Tree)
    requires Placed(t)
    ensures 0 !in Addrs(t)
  {
    match t
    case Leaf(_, _, _) =>
    case Inner(_, _, l, r) =>
      NullUnused(l);
      NullUnused(r);
  }

  const MAX_DEPTH: nat := 32

  /** The walk down from the root: inter[0] is the root, inter[j] the j-th node of the search path,
      and i the index of the leaf, or of the last entry of the array. */
  method Walk(H: Hasher, heap: Heap, rootAddr: nat, key: U64, ghost t: Tree) returns (inter: seq<nat>, i: nat)
    requires rootAddr in heap && heap[rootAddr].ptr == 0 && heap[rootAddr].right == t.addr
    requires Placed(t) && Stored(H, heap, t)
    ensures |inter| == MAX_DEPTH && i == if |Path(t, key)| < MAX_DEPTH then |Path(t, key)| else MAX_DEPTH - 1
    ensures inter[0] == rootAddr && forall j :: 1 <= j <= i ==> inter[j] == Path(t, key)[j - 1].addr
  {
    ghost var p := Path(t, key);
    inter := seq(MAX_DEPTH, _ => 0);
    inter := inter[0 := rootAddr];
    i := 0;
    while i < MAX_DEPTH - 1
      invariant |inter| == MAX_DEPTH && 0 <= i <= |p| && i < MAX_DEPTH
      invariant inter[0] == rootAddr && forall j :: 1 <= j <= i ==> inter[j] == p[j - 1].addr
    {
      if i > 0 {
        PathStep(H, heap, t, key, i - 1);
      }
      var parent := heap[inter[i]];
      var left := key < parent.ptr;
      inter := inter[i + 1 := if left then parent.left else parent.right];
      if inter[i + 1] == 0 {
        break;
      }
      i := i + 1;
    }
    if i > 0 {
      PathStep(H, heap, t, key, i - 1);
    }
  }

  lemma EncLeaf(H: Hasher, t: Tree, n: Node)
    requires t.Leaf? && n.ptr == t.key && n.hash == t.hash
    ensures EncTree(H, t) == EncChild(Some(n))
  {
    assert HashOf(H, t) == t.hash;
  }

  lemma InnerNode(H: Hasher, a: nat, k: U64, l: Tree, r: Tree)
    ensures NodeOf(H, Inner(a, k, l, r)) == Node(k, H(EncTree(H, l) + EncTree(H, r)), l.addr, r.addr)
  {}

  /** The interior node a split puts over the new and the old leaf. */
  lemma SplitNode(H: Hasher, t: Tree, n: Node, l: Node, node: nat, parent: nat)
    requires t.Leaf? && n.ptr != t.key && l == NodeOf(H, t)
    ensures NodeOf(H, Inserted(t, n.ptr, n.hash, node, parent)) ==
            if n.ptr < t.key then Node(l.ptr, H(EncChild(Some(n)) + EncChild(Some(l))), node, t.addr)
            else Node(n.ptr, H(EncChild(Some(l)) + EncChild(Some(n))), t.addr, node)
  {
    var newLeaf := Leaf(node, n.ptr, n.hash);
    EncLeaf(H, newLeaf, n);
    EncLeaf(H, t, l);
    if n.ptr < t.key {
      InnerNode(H, parent, t.key, newLeaf, t);
    } else {
      InnerNode(H, parent, n.ptr, t, newLeaf);
    }
  }

  /** The parent after its child on one side became the node `curr` at address `top`. */
  function Relink(H: Hasher, parent: Node, onRight: bool, top: nat, curr: Node, sibling: Option<Node>): Node {
    if onRight then parent.(right := top, hash := H(EncChild(sibling) + EncChild(Some(curr))))
    else parent.(left := top, hash := H(EncChild(Some(curr)) + EncChild(sibling)))
  }

  /** Where the upward loop stands: the parent of p[i - 1] is the root or p[i - 2]; parent and sibling
      lie outside the subtree being replaced, and their hashes check. */
  ghost predicate Upward(H: Hasher, heap: Heap, rootAddr: nat, up: nat, p: seq<Tree>, i: nat, key: U64)
    requires 0 < i <= |p|
  {
    && up in heap && p[i - 1].addr in heap && heap[p[i - 1].addr] == NodeOf(H, p[i - 1])
    && up !in Addrs(p[i - 1])
    && (i == 1 ==> up == rootAddr)
    && (i > 1 ==>
          var q := p[i - 2];
          && q.Inner? && up == q.addr && heap[up] == NodeOf(H, q) && p[i - 1] == Child(q, key)
          && q.left.addr != 0 && q.right.addr != 0 && q.left.addr != q.right.addr
          && Sibling(q, key).addr !in Addrs(p[i - 1])
          && Sibling(q, key).addr in heap && heap[Sibling(q, key).addr] == NodeOf(H, Sibling(q, key)))
  }

  lemma UpwardHolds(H: Hasher, heap: Heap, rootAddr: nat, up: nat, t: Tree, i: nat, key: U64)
    requires Placed(t) && Stored(H, heap, t) && rootAddr in heap && rootAddr !in Addrs(t)
    requires 0 < i <= |Path(t, key)|
    requires up == if i == 1 then rootAddr else Path(t, key)[i - 2].addr
    ensures Upward(H, heap, rootAddr, up, Path(t, key), i, key)
  {
    PathStep(H, heap, t, key, i - 1);
    if i > 1 {
      PathStep(H, heap, t, key, i - 2);
      RootAddr(Path(t, key)[i - 2].left);
      RootAddr(Path(t, key)[i - 2].right);
    }
  }

  /** Relinking the parent over the replaced child is the parent of the inserted tree, and the
      sibling check of the source passes. */
  lemma RelinkInserted(H: Hasher, heap: Heap, rootAddr: nat, up: nat, t: Tree, i: nat, key: U64, hash: Digest,
                       leaf: nat, parent: nat)
    requires 0 < i <= |Path(t, key)| && rootAddr in heap
    requires Upward(H, heap, rootAddr, up, Path(t, key), i, key)
    requires i == 1 ==> heap[up].left == 0 && heap[up] == Guard(H, heap[up], t)
    ensures var p := Path(t, key);
      var child := Inserted(p[i - 1], key, hash, leaf, parent);
      var par, me := heap[up], heap[p[i - 1].addr];
      var onRight := par.right == p[i - 1].addr;
      if i == 1 then
        && onRight
        && Relink(H, par, onRight, child.addr, NodeOf(H, child), None) == Guard(H, par, child)
      else
        var sib := NodeOf(H, Sibling(p[i - 2], key));
        && onRight == (p[i - 2].key <= key)
        && (onRight ==> SingleNodeOk(H, par, Some(sib), Some(me)))
        && (!onRight ==> SingleNodeOk(H, par, Some(me), Some(sib)))
        && Relink(H, par, onRight, child.addr, NodeOf(H, child), Some(sib))
             == NodeOf(H, Inserted(p[i - 2], key, hash, leaf, parent))
  {
    var p := Path(t, key);
    var child := Inserted(p[i - 1], key, hash, leaf, parent);
    EncNodeOf(H, child);
    EncNodeOf(H, p[i - 1]);
    if i == 1 {
      assert [] + EncTree(H, child) == EncTree(H, child);
    } else {
      EncNodeOf(H, Sibling(p[i - 2], key));
    }
  }

  lemma EncNodeOf(H: Hasher, t: Tree)
    ensures EncChild(Some(NodeOf(H, t))) == EncTree(H, t)
  {}

  /** Before the splice memory is as it was; afterwards it is as Percolated says. */
  ghost predicate Climbing(H: Hasher, start: Heap, heap: Heap, root: Node, t: Tree, i: nat, key: U64, hash: Digest,
                           leaf: nat, parent: nat, curr: Node)
  {
    var p := Path(t, key);
    && i <= |p|
    && (i == |p| ==> heap == start && curr == NodeOf(H, p[i - 1]))
    && (i < |p| ==> parent !in Addrs(t) && Percolated(H, start, heap, root, p, i, key, hash, leaf, parent, curr))
  }

  /** At every height parent, node and sibling are still as they were. */
  lemma ClimbUpward(H: Hasher, start: Heap, heap: Heap, rootAddr: nat, up: nat, t: Tree, i: nat, key: U64, hash: Digest,
                    leaf: nat, parent: nat, curr: Node)
    requires Placed(t) && Stored(H, start, t) && rootAddr in start && rootAddr !in Addrs(t)
    requires leaf !in Addrs(t) && leaf != rootAddr && parent != rootAddr
    requires 0 < i && Climbing(H, start, heap, start[rootAddr], t, i, key, hash, leaf, parent, curr)
    requires up == if i == 1 then rootAddr else Path(t, key)[i - 2].addr
    ensures Upward(H, heap, rootAddr, up, Path(t, key), i, key) && up in start && heap[up] == start[up]
  {
    var p := Path(t, key);
    UpwardHolds(H, start, rootAddr, up, t, i, key);
    PathStep(H, start, t, key, i - 1);
    if i > 1 {
      PathStep(H, start, t, key, i - 2);
      RootAddr(Sibling(p[i - 2], key));
      RootAddr(p[i - 2]);
    }
    if i < |p| {
      RootAddr(p[i - 1]);
    }
  }

  /** The root is untouched during the climb, and a node on the way keeps its address. */
  lemma ClimbRoot(H: Hasher, start: Heap, heap: Heap, t: Tree, i: nat, key: U64, hash: Digest,
                  leaf: nat, parent: nat, rootAddr: nat, curr: Node)
    requires Placed(t) && Stored(H, start, t) && rootAddr in start && rootAddr !in Addrs(t)
    requires leaf != rootAddr && parent != rootAddr && 0 < i < |Path(t, key)|
    requires Climbing(H, start, heap, start[rootAddr], t, i, key, hash, leaf, parent, curr)
    ensures rootAddr in heap && heap[rootAddr] == start[rootAddr]
    ensures Inserted(Path(t, key)[i - 1], key, hash, leaf, parent).addr == Path(t, key)[i - 1].addr
  {
    PathStep(H, start, t, key, i);
    PathStep(H, start, t, key, i - 1);
  }

  /** At the top the new root goes in and the whole inserted tree is in memory. */
  lemma ClimbTop(H: Hasher, start: Heap, heap: Heap, t: Tree, key: U64, hash: Digest,
                 leaf: nat, parent: nat, rootAddr: nat, curr: Node)
    requires rootAddr !in Addrs(t) && leaf != rootAddr && parent != rootAddr && rootAddr in start
    requires Climbing(H, start, heap, start[rootAddr], t, 0, key, hash, leaf, parent, curr)
    ensures var t' := Inserted(t, key, hash, leaf, parent);
      Stored(H, heap[rootAddr := curr], t') && curr == Guard(H, start[rootAddr], t')
  {
    InsertAddrs(t, key, hash, leaf, parent);
    StoredFrame(H, heap, heap[rootAddr := curr], Inserted(t, key, hash, leaf, parent));
  }

  /** The splice is the bottom of the climb. */
  lemma ClimbSplice(H: Hasher, start: Heap, heap: Heap, root: Node, t: Tree, key: U64, hash: Digest,
                    leaf: nat, parent: nat, next: Node)
    requires Placed(t) && Stored(H, start, t) && leaf in start && start[leaf] == Node(key, hash, 0, 0)
    requires leaf !in Addrs(t) && parent !in Addrs(t) && leaf != parent
    requires var p := Path(t, key);
      var n := |p|;
      var cut := Inserted(p[n - 1], key, hash, leaf, parent);
      && (Descend(t, key).key == key ==> heap == start)
      && (Descend(t, key).key != key ==> heap == start[parent := NodeOf(H, cut)])
      && next == if n == 1 then Guard(H, root, cut) else NodeOf(H, Inserted(p[n - 2], key, hash, leaf, parent))
    ensures var p := Path(t, key);
      var cut := Inserted(p[|p| - 1], key, hash, leaf, parent);
      && cut.addr in heap
      && Climbing(H, start, heap[cut.addr := heap[cut.addr]], root, t, |p| - 1, key, hash, leaf, parent, next)
  {
    var p := Path(t, key);
    PathStep(H, start, t, key, |p| - 1);
    var cut := Inserted(p[|p| - 1], key, hash, leaf, parent);
    var last := p[|p| - 1];
    RootAddr(last);
    assert Addrs(last) == {last.addr};
    StoredFrame(H, start, heap, last);
    assert Stored(H, heap, Leaf(leaf, key, hash));
    assert heap[cut.addr := heap[cut.addr]] == heap;
    assert Stored(H, heap, cut);
  }

  /** The loop's reads: which side the node hangs on, its sibling if any, and the check of both
      against the parent's hash. On the way up in honest memory the check passes. */
  method ReadFamily(H: Hasher, heap: Heap, up: nat, nodePtr: nat)
    returns (onRight: bool, sibling: Option<Node>, ok: bool)
    requires up in heap && nodePtr in heap
    requires heap[up].left != 0 && heap[up].right != 0 ==> heap[up].left in heap && heap[up].right in heap
    ensures onRight == (heap[up].right == nodePtr)
    ensures sibling == if heap[up].left != 0 && heap[up].right != 0
                       then Some(heap[if onRight then heap[up].left else heap[up].right]) else None
    ensures ok <==> sibling.None? || if onRight then SingleNodeOk(H, heap[up], sibling, Some(heap[nodePtr]))
                                     else SingleNodeOk(H, heap[up], Some(heap[nodePtr]), sibling)
  {
    var parent := heap[up];
    onRight := parent.right == nodePtr;
    sibling, ok := None, true;
    if parent.left != 0 && parent.right != 0 {
      sibling := Some(heap[if onRight then parent.left else parent.right]);
      var node := Some(heap[nodePtr]);
      ok := if onRight then SingleNodeOk(H, parent, sibling, node) else SingleNodeOk(H, parent, node, sibling);
    }
  }

  /** What the splice leaves behind: an overwriting splice changes no node, a splitting one writes the
      new interior node only. Everything the next round reads is still there. */
  ghost predicate Spliced(H: Hasher, start: Heap, heap: Heap, leaf: Tree, key: U64, hash: Digest, node: nat,
                          parent: nat)
  {
    && (leaf.key == key ==> parent == 0 && heap == start)
    && (leaf.key != key ==> parent != 0 && heap == start[parent := NodeOf(H, Inserted(leaf, key, hash, node, parent))])
  }

  lemma SplicedFamily(H: Hasher, start: Heap, heap: Heap, rootAddr: nat, up: nat, t: Tree, key: U64, hash: Digest,
                      node: nat, parent: nat)
    requires Placed(t) && Stored(H, start, t) && rootAddr in start && rootAddr !in Addrs(t)
    requires node in start && start[node] == Node(key, hash, 0, 0)
    requires parent !in Addrs(t) && parent != node && parent != rootAddr
    requires Spliced(H, start, heap, Descend(t, key), key, hash, node, parent)
    requires var n := |Path(t, key)|; up == if n == 1 then rootAddr else Path(t, key)[n - 2].addr
    ensures var p := Path(t, key);
      var cut := Inserted(p[|p| - 1], key, hash, node, parent);
      && Upward(H, heap, rootAddr, up, p, |p|, key)
      && heap[rootAddr] == start[rootAddr]
      && cut.addr in heap && heap[cut.addr] == NodeOf(H, cut)
  {
    StoredFrame(H, start, heap, t);
    UpwardHolds(H, heap, rootAddr, up, t, |Path(t, key)|, key);
    PathStep(H, start, t, key, |Path(t, key)| - 1);
  }

  /** After the splice the nodes handed out are those of the inserted tree. */
  lemma SplicedOwnership(before: Pages, after: Pages, t: Tree, key: U64, hash: Digest, node: nat, parent: nat,
                         lost: set<nat>)
    requires Placed(t) && node != 0 && node !in Addrs(t) && lost !! Addrs(t) + {node}
    requires forall a: nat :: Live(before, a) <==> a in Addrs(t) + lost || a == node
    requires var leaf := Descend(t, key);
      && (leaf.key == key ==> forall x: nat :: Live(after, x) <==> Live(before, x) && x != leaf.addr)
      && (leaf.key != key ==> parent != 0 && !Live(before, parent))
      && (leaf.key != key ==> forall x: nat :: Live(after, x) <==> Live(before, x) || x == parent)
    ensures var t' := Inserted(t, key, hash, node, parent);
      Placed(t') && lost !! Addrs(t') && forall a: nat :: Live(after, a) <==> a in Addrs(t') + lost
  {
    InsertPlaced(t, key, hash, node, parent);
    InsertAddrs(t, key, hash, node, parent);
  }

  /** One round of the upward loop with the new child in hand: check the family, rewrite the parent's
      link and hash. */
  method Round(H: Hasher, heap: Heap, rootAddr: nat, up: nat, oldChild: nat, top: nat, curr: Node,
               ghost t: Tree, ghost i: nat, key: U64, hash: Digest, ghost leaf: nat, ghost parent: nat)
    returns (r: int, par: Node)
    requires 0 < i <= |Path(t, key)| && rootAddr in heap
    requires Upward(H, heap, rootAddr, up, Path(t, key), i, key)
    requires oldChild == Path(t, key)[i - 1].addr
    requires i == 1 ==> heap[up].left == 0 && heap[up] == Guard(H, heap[up], t)
    requires var child := Inserted(Path(t, key)[i - 1], key, hash, leaf, parent);
      top == child.addr && curr == NodeOf(H, child)
    ensures r == 0
    ensures par == if i == 1 then Guard(H, heap[up], Inserted(t, key, hash, leaf, parent))
                   else NodeOf(H, Inserted(Path(t, key)[i - 2], key, hash, leaf, parent))
  {
    RelinkInserted(H, heap, rootAddr, up, t, i, key, hash, leaf, parent);
    var onRight, sibling, ok := ReadFamily(H, heap, up, oldChild);
    par := Relink(H, heap[up], onRight, top, curr, sibling);
    r := if ok then 0 else -1;
  }

  /** The round after the splice: the node on top is written and its rewritten parent taken in hand. */
  method FirstRound(H: Hasher, heap0: Heap, rootAddr: nat, up: nat, oldChild: nat, top: nat, ghost start: Heap,
                    ghost t: Tree, key: U64, hash: Digest, ghost node: nat, ghost parent: nat)
    returns (r: int, par: Node, heap: Heap)
    requires Placed(t) && Stored(H, start, t) && rootAddr in start && rootAddr !in Addrs(t)
    requires start[rootAddr].left == 0 && start[rootAddr] == Guard(H, start[rootAddr], t)
    requires node in start && start[node] == Node(key, hash, 0, 0) && node !in Addrs(t)
    requires parent !in Addrs(t) && parent != node && parent != rootAddr
    requires Spliced(H, start, heap0, Descend(t, key), key, hash, node, parent)
    requires top == Inserted(Descend(t, key), key, hash, node, parent).addr
    requires var p := Path(t, key);
      oldChild == p[|p| - 1].addr && up == if |p| == 1 then rootAddr else p[|p| - 2].addr
    ensures r == 0
    ensures Climbing(H, start, heap, start[rootAddr], t, |Path(t, key)| - 1, key, hash, node, parent, par)
  {
    ghost var n := |Path(t, key)|;
    PathStep(H, start, t, key, n - 1);
    SplicedFamily(H, start, heap0, rootAddr, up, t, key, hash, node, parent);
    var curr := heap0[top];
    r, par := Round(H, heap0, rootAddr, up, oldChild, top, curr, t, n, key, hash, node, parent);
    ClimbSplice(H, start, heap0, start[rootAddr], t, key, hash, node, parent, par);
    heap := heap0[top := curr];
  }

  /** The rounds above the splice: each writes the node in hand and takes its rewritten parent. */
  method Climb(H: Hasher, heap0: Heap, rootAddr: nat, inter: seq<nat>, i0: nat, curr0: Node, ghost start: Heap,
               ghost t: Tree, key: U64, hash: Digest, ghost leaf: nat, ghost parent: nat)
    returns (r: int, heap: Heap)
    requires Placed(t) && Stored(H, start, t) && rootAddr in start && rootAddr !in Addrs(t)
    requires start[rootAddr].left == 0 && start[rootAddr] == Guard(H, start[rootAddr], t)
    requires leaf !in Addrs(t) && leaf != rootAddr && parent != rootAddr
    requires i0 < |Path(t, key)| && |inter| > i0 && inter[0] == rootAddr
    requires forall j :: 1 <= j <= i0 ==> inter[j] == Path(t, key)[j - 1].addr
    requires Climbing(H, start, heap0, start[rootAddr], t, i0, key, hash, leaf, parent, curr0)
    ensures r == 0 && rootAddr in heap
    ensures var t' := Inserted(t, key, hash, leaf, parent);
      Stored(H, heap, t') && heap[rootAddr] == Guard(H, start[rootAddr], t')
  {
    heap, r := heap0, 0;
    var i, curr := i0, curr0;
    while i > 0 && r == 0
      invariant 0 <= i <= i0 && r == 0
      invariant Climbing(H, start, heap, start[rootAddr], t, i, key, hash, leaf, parent, curr)
    {
      var up, nodePtr := inter[i - 1], inter[i];
      ClimbUpward(H, start, heap, rootAddr, up, t, i, key, hash, leaf, parent, curr);
      var par;
      ClimbRoot(H, start, heap, t, i, key, hash, leaf, parent, rootAddr, curr);
      r, par := Round(H, heap, rootAddr, up, nodePtr, nodePtr, curr, t, i, key, hash, leaf, parent);
      PercolateStep(H, start, heap, start[rootAddr], t, i, key, hash, leaf, parent, curr, par);
      heap := heap[nodePtr := curr];
      curr := par;
      i := i - 1;
    }
    ClimbTop(H, start, heap, t, key, hash, leaf, parent, rootAddr, curr);
    heap := heap[rootAddr := curr];
  }

  /** Without a splice each parent is relinked to what it was. */
  lemma RelinkSame(H: Hasher, heap: Heap, rootAddr: nat, up: nat, t: Tree, i: nat, key: U64)
    requires 0 < i <= |Path(t, key)| && rootAddr in heap
    requires Upward(H, heap, rootAddr, up, Path(t, key), i, key)
    requires i == 1 ==> heap[up].left == 0 && heap[up] == Guard(H, heap[up], t)
    ensures var p := Path(t, key);
      var par, me := heap[up], heap[p[i - 1].addr];
      var onRight := par.right == p[i - 1].addr;
      if i == 1 then onRight && Relink(H, par, onRight, p[0].addr, me, None) == par
      else
        var sib := NodeOf(H, Sibling(p[i - 2], key));
        && onRight == (p[i - 2].key <= key)
        && (onRight ==> SingleNodeOk(H, par, Some(sib), Some(me)))
        && (!onRight ==> SingleNodeOk(H, par, Some(me), Some(sib)))
        && Relink(H, par, onRight, p[i - 1].addr, me, Some(sib)) == par
  {
    var p := Path(t, key);
    EncNodeOf(H, p[i - 1]);
    if i == 1 {
      assert [] + EncTree(H, t) == EncTree(H, t);
    } else {
      EncNodeOf(H, Sibling(p[i - 2], key));
    }
  }

  /** The upward loop on a path that was cut off: every node is written back as it was. */
  method Retrace(H: Hasher, heap0: Heap, rootAddr: nat, inter: seq<nat>, i0: nat, ghost t: Tree, key: U64)
    returns (r: int, heap: Heap)
    requires Placed(t) && Stored(H, heap0, t) && rootAddr in heap0 && rootAddr !in Addrs(t)
    requires heap0[rootAddr].left == 0 && heap0[rootAddr] == Guard(H, heap0[rootAddr], t)
    requires 0 < i0 <= |Path(t, key)| && |inter| > i0 && inter[0] == rootAddr && inter[i0] in heap0
    requires forall j :: 1 <= j <= i0 ==> inter[j] == Path(t, key)[j - 1].addr
    ensures r == 0 && heap == heap0
  {
    heap, r := heap0, 0;
    var i, curr := i0, heap0[inter[i0]];
    while i > 0 && r == 0
      invariant 0 <= i <= i0 && r == 0 && heap == heap0
      invariant inter[i] in heap && curr == heap[inter[i]]
    {
      var up, nodePtr := inter[i - 1], inter[i];
      UpwardHolds(H, heap, rootAddr, up, t, i, key);
      RelinkSame(H, heap, rootAddr, up, t, i, key);
      var onRight, sibling, ok := ReadFamily(H, heap, up, nodePtr);
      var par := Relink(H, heap[up], onRight, nodePtr, curr, sibling);
      r := if ok then 0 else -1;
      heap := heap[nodePtr := curr];
      curr, i := par, i - 1;
    }
    heap := heap[rootAddr := curr];
  }

  /** Where the walk ends: in the leaf, or in an interior node if the path is too long. */
  lemma PathEnd(H: Hasher, heap: Heap, t: Tree, key: U64, i: nat)
    requires Placed(t) && Stored(H, heap, t)
    requires i == if |Path(t, key)| < MAX_DEPTH then |Path(t, key)| else MAX_DEPTH - 1
    ensures var a := Path(t, key)[i - 1].addr;
      a in heap && (heap[a].left == 0 && heap[a].right == 0 <==> |Path(t, key)| < MAX_DEPTH)
  {
    PathStep(H, heap, t, key, i - 1);
    var q := Path(t, key)[i - 1];
    if q.Inner? {
      RootAddr(q.left);
      NullUnused(q.left);
    }
  }

  /** Follows the search path of a key for as long as an insertion would. */
  method ShortPath(H: Hasher, heap: Heap, top: nat, key: U64, ghost t: Tree) returns (fits: bool)
    requires Placed(t) && Stored(H, heap, t) && top == t.addr
    ensures fits <==> |Path(t, key)| < MAX_DEPTH
  {
    ghost var p := Path(t, key);
    var a, i := top, 0;
    while i < MAX_DEPTH && a != 0
      invariant 0 <= i <= |p|
      invariant a == if i < |p| then p[i].addr else 0
    {
      PathStep(H, heap, t, key, i);
      var node := heap[a];
      a := if key < node.ptr then node.left else node.right;
      i := i + 1;
    }
    if i < |p| {
      PathStep(H, heap, t, key, i);
    }
    fits := i < MAX_DEPTH;
  }

  // ---------------------------------------------------------------- the store

  /** The guardian root in secure memory and the nodes in the backing store. */
  class Store {
    const H: Hasher
    const rootAddr: nat
    const pool: Pool
    var heap: Heap
    ghost var tree: Option<Tree>
    ghost var lost: set<nat>   // leaves of insertions whose path was too long

    ghost predicate Valid()
      reads this, pool, pool.slots
    {
      && pool.Valid()
      && rootAddr != 0 && rootAddr in heap && !Live(pool.pages, rootAddr)
      && !(pool.slots.base <= PageOf(rootAddr) < pool.slots.base + pool.slots.pages * SlotAllocator.PAGE)
      && Holds(H, heap, rootAddr, pool.pages, tree, lost)
    }

    /** The map the tree implements. */
    ghost function Map(): map<U64, Digest>
      reads this
    {
      match tree
      case None => map[]
      case Some(t) => Contents(t)
    }

    constructor (H: Hasher, rootAddr: nat, pool: Pool, blank: Digest)
      requires pool.Valid() && pool.pages == map[] && rootAddr != 0
      requires !(pool.slots.base <= PageOf(rootAddr) < pool.slots.base + pool.slots.pages * SlotAllocator.PAGE)
      ensures Valid() && Map() == map[] && lost == {} && this.H == H && this.pool == pool
    {
      this.H, this.rootAddr, this.pool := H, rootAddr, pool;
      heap := map[rootAddr := Node(0, blank, 0, 0)];
      tree, lost := None, {};
    }

    /** Handing out further backing pages does not disturb the store. */
    twostate lemma StillValid()
      requires old(Valid()) && unchanged(this) && unchanged(pool)
      requires pool.slots.Valid() && old(pool.slots.handed) <= pool.slots.handed
      ensures Valid() && Map() == old(Map())
    {}

    /** merk_verify while the memory is honest: accepts exactly the stored binding. The descent is
        observed for as many layers as there are nodes, which always suffices. */
    method Verify(key: U64, hash: Digest, junk: Node) returns (ok: bool)
      requires Valid()
      ensures key in Map() ==> (ok <==> Map()[key] == hash)
      ensures tree.None? ==> !ok
    {
      var v := MerkVerify(H, heap[rootAddr], key, hash, Honest(heap, junk), junk, |heap|);
      ok := v == Accept;
      if tree.Some? {
        VerifyComplete(H, heap, rootAddr, tree.value, key, hash, junk);
      }
    }

    /** The search path of a key is within the 31 edges an insertion follows. */
    ghost predicate Fits(key: U64)
      reads this
    {
      tree.Some? ==> |Path(tree.value, key)| < 32
    }

    /** Measures the search path of a key. */
    method Measure(key: U64) returns (fits: bool)
      requires Valid()
      ensures fits <==> Fits(key)
    {
      fits := true;
      if heap[rootAddr].right != 0 {
        fits := ShortPath(H, heap, heap[rootAddr].right, key, tree.value);
      }
    }

    /** merk_splice_node: overwrite an equal key's leaf, or put a new interior node over the two. */
    method Splice(leaf: nat, node: nat, ghost t: Tree) returns (top: nat, ghost parent: nat)
      requires pool.Valid()
      requires node in heap && heap[node].ptr != t.key ==> |Free(pool.pages)| > 0 || pool.slots.Remaining() > 0
      requires t.Leaf? && t.addr == leaf && leaf in heap && heap[leaf] == NodeOf(H, t)
      requires node in heap && heap[node].left == 0 && heap[node].right == 0 && node != leaf
      requires Live(pool.pages, leaf) && Live(pool.pages, node)
      modifies this`heap, pool, pool.slots
      ensures pool.Valid() && old(pool.slots.handed) <= pool.slots.handed
      ensures var need := if old(heap)[node].ptr == t.key then 0 else 1;
        && pool.slots.Remaining() == old(pool.slots.Remaining()) - (if old(|Free(pool.pages)|) >= need then 0 else 1)
        && (need == 0 ==> |Free(pool.pages)| == old(|Free(pool.pages)|) + 1)
      ensures var n := old(heap)[node];
        && top == Inserted(t, n.ptr, n.hash, node, parent).addr
        && Spliced(H, old(heap), heap, t, n.ptr, n.hash, node, parent)
        && (n.ptr == t.key ==> forall x: nat :: Live(pool.pages, x) <==> Live(old(pool.pages), x) && x != leaf)
        && (n.ptr != t.key ==>
              !Live(old(pool.pages), parent)
              && pool.slots.base <= PageOf(parent) < pool.slots.base + pool.slots.pages * SlotAllocator.PAGE
              && forall x: nat :: Live(pool.pages, x) <==> Live(old(pool.pages), x) || x == parent)
      ensures old(pool.pages.Keys) <= pool.pages.Keys
      ensures forall p :: p in pool.pages && p !in old(pool.pages) ==> p !in old(pool.slots.handed)
    {
      hide PagesOk, ListOk;
      var n, l := heap[node], heap[leaf];
      if n.ptr == l.ptr {
        pool.FreeNode(leaf);
        return node, 0;
      }
      var new_parent := pool.AllocNode();
      SplitNode(H, t, n, l, node, new_parent);
      if n.ptr < l.ptr {
        heap := heap[new_parent := Node(l.ptr, H(EncChild(Some(n)) + EncChild(Some(l))), node, leaf)];
      } else {
        heap := heap[new_parent := Node(n.ptr, H(EncChild(Some(l)) + EncChild(Some(n))), leaf, node)];
      }
      top, parent := new_parent, new_parent;
    }

    /** A node has been allocated for the new leaf and is not linked yet. */
    ghost predicate Ready(node: nat, key: U64, hash: Digest)
      reads this, pool, pool.slots
    {
      && pool.Valid()
      && rootAddr != 0 && rootAddr in heap && node != rootAddr && node != 0
      && !(pool.slots.base <= PageOf(rootAddr) < pool.slots.base + pool.slots.pages * SlotAllocator.PAGE)
      && node in heap && heap[node] == Node(key, hash, 0, 0)
      && heap[rootAddr].ptr == 0 && heap[rootAddr].left == 0
      && match tree
         case None => heap[rootAddr].right == 0 && lost == {} && forall a: nat :: Live(pool.pages, a) <==> a == node
         case Some(t) =>
           && heap[rootAddr] == Guard(H, heap[rootAddr], t) && Placed(t) && Ordered(t) && Stored(H, heap, t)
           && rootAddr !in Addrs(t) + lost && lost !! Addrs(t) && node !in Addrs(t) + lost
           && forall a: nat :: Live(pool.pages, a) <==> a in Addrs(t) + lost || a == node
    }

    /** How many nodes an insertion takes at once: one for a first or an overwritten leaf, two for a split. */
    ghost function Nodes(key: U64): nat
      reads this
    {
      if tree.None? || key in Map() then 1 else 2
    }

    method NodesFor(key: U64, stored: bool) returns (n: nat)
      requires Valid() && (stored <==> key in Map())
      ensures n == Nodes(key)
    {
      n := if stored || heap[rootAddr].right == 0 then 1 else 2;
    }

    /** merk_insert over honest memory: never fails and keeps order, hashes and node ownership. On a path of
        fewer than 32 nodes it updates the map at exactly one key, whether the key was present or not; on a
        longer one it leaves the map as it was and the new leaf's node is lost. */
    method Insert(key: U64, hash: Digest) returns (r: int)
      requires Valid() && (|Free(pool.pages)| >= Nodes(key) || pool.slots.Remaining() > 0)
      modifies this, pool, pool.slots
      ensures Valid() && r == 0 && Map() == if old(Fits(key)) then old(Map())[key := hash] else old(Map())
      ensures old(lost) <= lost && |lost| == |old(lost)| + if old(Fits(key)) then 0 else 1
      ensures old(pool.slots.handed) <= pool.slots.handed
      ensures pool.slots.Remaining() == old(pool.slots.Remaining())
           - (if old(|Free(pool.pages)|) >= (if old(Fits(key)) then old(Nodes(key)) else 1) then 0 else 1)
      ensures key in old(Map()) && old(Fits(key)) ==> |Free(pool.pages)| > 0 && forall x :: Fits(x) <==> old(Fits(x))
      ensures old(pool.pages.Keys) <= pool.pages.Keys
      ensures forall p :: p in pool.pages && p !in old(pool.pages) ==> p !in old(pool.slots.handed)
    {
      hide PagesOk, ListOk;
      var node := NewLeaf(key, hash);
      var root := heap[rootAddr];
      if root.right == 0 {
        HoldsFirst(H, heap, rootAddr, pool.pages, node, key, hash);
        heap := heap[rootAddr := root.(hash := H(Enc(key, hash)), right := node)];
        tree := Some(Leaf(node, key, hash));
        return 0;
      }
      r := Rebuild(key, hash, node);
    }

    method NewLeaf(key: U64, hash: Digest) returns (node: nat)
      requires Valid() && (|Free(pool.pages)| > 0 || pool.slots.Remaining() > 0)
      modifies this`heap, pool, pool.slots
      ensures Ready(node, key, hash)
      ensures old(pool.slots.handed) <= pool.slots.handed
      ensures pool.slots.Remaining() == old(pool.slots.Remaining()) - (if old(|Free(pool.pages)|) > 0 then 0 else 1)
      ensures if old(|Free(pool.pages)|) > 0 then |Free(pool.pages)| == old(|Free(pool.pages)|) - 1
        else |Free(pool.pages)| >= 2
      ensures old(pool.pages.Keys) <= pool.pages.Keys
      ensures forall p :: p in pool.pages && p !in old(pool.pages) ==> p !in old(pool.slots.handed)
    {
      node := pool.AllocNode();
      heap := heap[node := Node(key, hash, 0, 0)];
      if tree.Some? {
        StoredFrame(H, old(heap), heap, tree.value);
      }
    }

    /** The walk down and the percolation of new hashes up to the root. */
    method Rebuild(key: U64, hash: Digest, node: nat) returns (r: int)
      requires Ready(node, key, hash) && tree.Some?
      requires key in Map() || |Free(pool.pages)| > 0 || pool.slots.Remaining() > 0
      modifies this, pool, pool.slots
      ensures Valid() && r == 0 && Map() == if old(Fits(key)) then old(Map())[key := hash] else old(Map())
      ensures old(lost) <= lost && |lost| == |old(lost)| + if old(Fits(key)) then 0 else 1
      ensures old(pool.slots.handed) <= pool.slots.handed
      ensures pool.slots.Remaining() == old(pool.slots.Remaining())
           - (if !old(Fits(key)) || key in old(Map()) || old(|Free(pool.pages)|) > 0 then 0 else 1)
      ensures key in old(Map()) && old(Fits(key)) ==>
        |Free(pool.pages)| == old(|Free(pool.pages)|) + 1 && forall x :: Fits(x) <==> old(Fits(x))
      ensures old(pool.pages.Keys) <= pool.pages.Keys
      ensures forall p :: p in pool.pages && p !in old(pool.pages) ==> p !in old(pool.slots.handed)
    {
      hide PagesOk, ListOk, Stored, Placed, Ordered, Contents, Live, Free;
      ghost var t := tree.value;
      var inter, i := Walk(H, heap, rootAddr, key, t);
      PathEnd(H, heap, t, key, i);
      if heap[inter[i]].left == 0 && heap[inter[i]].right == 0 {
        r := Replace(key, hash, node, inter, i);
      } else {
        r, heap := Retrace(H, heap, rootAddr, inter, i, t, key);
        lost := lost + {node};
      }
    }

    /** The rounds of an insertion whose walk ended in a leaf. */
    method Replace(key: U64, hash: Digest, node: nat, inter: seq<nat>, i: nat) returns (r: int)
      requires Ready(node, key, hash) && tree.Some? && Fits(key)
      requires key in Map() || |Free(pool.pages)| > 0 || pool.slots.Remaining() > 0
      requires |inter| > i == |Path(tree.value, key)| && inter[0] == rootAddr
      requires forall j :: 1 <= j <= i ==> inter[j] == Path(tree.value, key)[j - 1].addr
      modifies this`heap, this`tree, pool, pool.slots
      ensures Valid() && r == 0 && Map() == old(Map())[key := hash]
      ensures old(pool.slots.handed) <= pool.slots.handed
      ensures pool.slots.Remaining()
           == old(pool.slots.Remaining()) - (if key in old(Map()) || old(|Free(pool.pages)|) > 0 then 0 else 1)
      ensures key in old(Map()) ==>
        |Free(pool.pages)| == old(|Free(pool.pages)|) + 1 && forall x :: Fits(x) <==> old(Fits(x))
      ensures old(pool.pages.Keys) <= pool.pages.Keys
      ensures forall p :: p in pool.pages && p !in old(pool.pages) ==> p !in old(pool.slots.handed)
    {
      hide PagesOk, ListOk;
      ghost var t := tree.value;
      Found(t, key);
      ghost var parent;
      var top;
      top, parent := Bottom(key, hash, node, inter[i], t);
      r := Finish(key, hash, inter, i, top, old(heap), t, node, parent);
      if key in old(Map()) {
        SameShapes(t, key, hash, node, parent);
      }
    }

    /** The upward loop after the splice, up to writing the root. */
    method Finish(key: U64, hash: Digest, inter: seq<nat>, i: nat, top: nat, ghost start: Heap, ghost t: Tree,
                  ghost node: nat, ghost parent: nat) returns (r: int)
      requires rootAddr in start && start[rootAddr].ptr == 0 && start[rootAddr].left == 0
      requires start[rootAddr] == Guard(H, start[rootAddr], t) && Placed(t) && Ordered(t) && Stored(H, start, t)
      requires node in start && start[node] == Node(key, hash, 0, 0) && node !in Addrs(t) && rootAddr != node
      requires rootAddr !in Addrs(t) + lost && parent !in Addrs(t) && parent != node && rootAddr != parent
      requires i == |Path(t, key)| && |inter| > i && inter[0] == rootAddr
      requires forall j :: 1 <= j <= i ==> inter[j] == Path(t, key)[j - 1].addr
      requires Spliced(H, start, heap, Descend(t, key), key, hash, node, parent)
      requires top == Inserted(Descend(t, key), key, hash, node, parent).addr
      requires var t' := Inserted(t, key, hash, node, parent);
        Placed(t') && lost !! Addrs(t') && forall a: nat :: Live(pool.pages, a) <==> a in Addrs(t') + lost
      modifies this`heap, this`tree
      ensures r == 0 && rootAddr in heap && Holds(H, heap, rootAddr, pool.pages, tree, lost)
      ensures !Live(pool.pages, rootAddr) && tree == Some(Inserted(t, key, hash, node, parent))
      ensures Contents(Inserted(t, key, hash, node, parent)) == Contents(t)[key := hash]
    {
      var par;
      r, par, heap := FirstRound(H, heap, rootAddr, inter[i - 1], inter[i], top, start, t, key, hash, node, parent);
      r, heap := Climb(H, heap, rootAddr, inter, i - 1, par, start, t, key, hash, node, parent);
      HoldsInserted(H, heap, rootAddr, pool.pages, start[rootAddr], t, key, hash, node, parent, lost);
      tree := Some(Inserted(t, key, hash, node, parent));
    }

    /** The bottom of the upward loop, which splices the new leaf in. */
    method Bottom(key: U64, hash: Digest, node: nat, at: nat, ghost t: Tree) returns (top: nat, ghost parent: nat)
      requires Ready(node, key, hash) && tree == Some(t)
      requires Descend(t, key).key == key || |Free(pool.pages)| > 0 || pool.slots.Remaining() > 0
      requires var p := Path(t, key); at == p[|p| - 1].addr
      modifies this`heap, pool, pool.slots
      ensures pool.Valid() && parent != rootAddr && parent !in Addrs(t) && parent != node
      ensures Spliced(H, old(heap), heap, Descend(t, key), key, hash, node, parent)
      ensures top == Inserted(Descend(t, key), key, hash, node, parent).addr
      ensures var t' := Inserted(t, key, hash, node, parent);
        Placed(t') && lost !! Addrs(t') && forall a: nat :: Live(pool.pages, a) <==> a in Addrs(t') + lost
      ensures old(pool.slots.handed) <= pool.slots.handed
      ensures var need := if Descend(t, key).key == key then 0 else 1;
        && pool.slots.Remaining() == old(pool.slots.Remaining()) - (if old(|Free(pool.pages)|) >= need then 0 else 1)
        && (need == 0 ==> |Free(pool.pages)| == old(|Free(pool.pages)|) + 1)
      ensures old(pool.pages.Keys) <= pool.pages.Keys
      ensures forall p :: p in pool.pages && p !in old(pool.pages) ==> p !in old(pool.slots.handed)
    {
      ghost var leaf := Descend(t, key);
      PathStep(H, heap, t, key, |Path(t, key)| - 1);
      RootAddr(leaf);
      NullUnused(t);
      top, parent := Splice(at, node, leaf);
      SplicedOwnership(old(pool.pages), pool.pages, t, key, hash, node, parent, lost);
    }
  }

  /** The root and the tree below it are in memory, and the nodes handed out are its own and the lost ones. */
  ghost predicate Holds(H: Hasher, heap: Heap, rootAddr: nat, pages: Pages, tree: Option<Tree>, lost: set<nat>)
    requires rootAddr in heap
  {
    var root := heap[rootAddr];
    && root.ptr == 0 && root.left == 0
    && match tree
       case None => root.right == 0 && lost == {} && forall a: nat :: !Live(pages, a)
       case Some(t) =>
         && root == Guard(H, root, t) && Placed(t) && Ordered(t) && Stored(H, heap, t)
         && rootAddr !in Addrs(t) && lost !! Addrs(t)
         && forall a: nat :: Live(pages, a) <==> a in Addrs(t) + lost
  }

  /** The first insertion hangs a leaf below the root. */
  lemma HoldsFirst(H: Hasher, heap: Heap, rootAddr: nat, pages: Pages, node: nat, key: U64, hash: Digest)
    requires rootAddr in heap && heap[rootAddr].ptr == 0 && heap[rootAddr].left == 0
    requires node in heap && heap[node] == Node(key, hash, 0, 0) && node != 0 && node != rootAddr
    requires forall a: nat :: Live(pages, a) <==> a == node
    ensures Holds(H, heap[rootAddr := heap[rootAddr].(hash := H(Enc(key, hash)), right := node)], rootAddr, pages,
                  Some(Leaf(node, key, hash)), {})
  {
    assert EncTree(H, Leaf(node, key, hash)) == Enc(key, hash);
  }

  /** The inserted tree under its new root is again a sound store, one map update further. */
  lemma HoldsInserted(H: Hasher, heap: Heap, rootAddr: nat, pages: Pages, root: Node, t: Tree, key: U64, hash: Digest,
                      node: nat, parent: nat, lost: set<nat>)
    requires rootAddr in heap && root.ptr == 0 && root.left == 0 && Ordered(t)
    requires rootAddr !in Addrs(t) + lost && rootAddr != node && rootAddr != parent
    requires var t' := Inserted(t, key, hash, node, parent);
      && heap[rootAddr] == Guard(H, root, t') && Stored(H, heap, t') && Placed(t')
      && lost !! Addrs(t') && forall a: nat :: Live(pages, a) <==> a in Addrs(t') + lost
    ensures var t' := Inserted(t, key, hash, node, parent);
      && Holds(H, heap, rootAddr, pages, Some(t'), lost) && !Live(pages, rootAddr)
      && Contents(t') == Contents(t)[key := hash]
  {
    InsertContents(t, key, hash, node, parent);
    InsertOrdered(t, key, hash, node, parent);
    InsertAddrs(t, key, hash, node, parent);
  }

  /** The search ends in a leaf with the key exactly for a stored key. */
  lemma Found(t: Tree, key: U64)
    requires Ordered(t)
    ensures key in Contents(t) <==> Descend(t, key).key == key
  {
    DescendFinds(t, key);
    ContentsKeys(t);
  }

  lemma StoredAddrs(H: Hasher, heap: Heap, t: Tree)
    requires Stored(H, heap, t)
    ensures Addrs(t) <= heap.Keys
  {}

  lemma SubsetSize(a: set<nat>, b: set<nat>)
    requires a <= b
    ensures |a| <= |b|
  {
    assert b == a + (b - a);
  }

  /** Over honest memory the check ends; it accepts exactly the digest of the leaf the search ends in. For a
      stored key that is the stored digest; for a key that is not stored it is its neighbour's. */
  lemma VerifyComplete(H: Hasher, heap: Heap, rootAddr: nat, t: Tree, key: U64, hash: Digest, junk: Node)
    requires rootAddr in heap && heap[rootAddr] == Guard(H, heap[rootAddr], t)
    requires Placed(t) && Ordered(t) && Stored(H, heap, t)
    ensures var v := VerifyRun(H, heap[rootAddr], key, hash, Honest(heap, junk), junk, |heap|).verdict;
            && v != Unfinished && (v == Accept <==> Descend(t, key).hash == hash)
            && (key in Contents(t) ==> (v == Accept <==> Contents(t)[key] == hash))
  {
    StoredAddrs(H, heap, t);
    SubsetSize(Addrs(t), heap.Keys);
    HeightBound(t);
    ContentsKeys(t);
    DescendFinds(t, key);
    assert |heap.Keys| == |heap|;
    LayersComplete(H, heap, t, junk, NodeOf(H, t), key, hash, junk, 1, |heap|);
    var mem := Honest(heap, junk);
    assert mem(0, t.addr) == NodeOf(H, t);
    var n := NodeOf(H, t);
    assert Enc(n.ptr, n.hash) == EncTree(H, t);
    assert H(Enc(n.ptr, n.hash)) == heap[rootAddr].hash;
    assert VerifyRun(H, heap[rootAddr], key, hash, mem, junk, |heap|).verdict
      == Layers(H, n, junk, n, key, hash, mem, 1, |heap|).verdict;
  }
}
