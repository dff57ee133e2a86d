/** Verification of one key of the Merkle search tree whose nodes live in untrusted memory.

    Every node read may return an arbitrary value (the memory is a function of the read's
    serial number and of the address). Only the guardian root is trusted. The hash is an
    arbitrary function to 32-byte digests, so the soundness theorem ends in "or here are two
    different inputs with one digest": one that the verifier hashed and one that the committed
    tree hashed. */
module MerkleVerify {
  import opened Bytes
  import opened Options

  type Digest = s: seq<byte> | |s| == 32 witness seq(32, _ => 0)
  type Hasher = seq<byte> -> Digest

  /** A 64-byte node: search key, digest, and the addresses of its children (0 is null). */
  datatype Node = Node(ptr: U64, hash: Digest, left: nat, right: nat)

  /** What a child contributes to its parent's hash input: 8 bytes of key, 32 of digest. */
  function Enc(ptr: U64, hash: Digest): (s: seq<byte>)
    ensures |s| == 40
  {
    Le(ptr, 8) + hash
  }

  function EncChild(c: Option<Node>): seq<byte> {
    match c
    case None => []
    case Some(n) => Enc(n.ptr, n.hash)
  }

  /** merk_verify_single_node: a node without children is accepted without hashing. */
  predicate SingleNodeOk(H: Hasher, node: Node, left: Option<Node>, right: Option<Node>) {
    (left.None? && right.None?) || H(EncChild(left) + EncChild(right)) == node.hash
  }

  lemma EncInjective(p: U64, h: Digest, q: U64, g: Digest)
    requires Enc(p, h) == Enc(q, g)
    ensures p == q && h == g
  {
    Pow256Of8();
    assert Enc(p, h)[..8] == Le(p, 8) && Enc(q, g)[..8] == Le(q, 8);
    assert Enc(p, h)[8..] == h && Enc(q, g)[8..] == g;
    LeRoundTrip(p, 8);
    LeRoundTrip(q, 8);
  }

  /** What is hashed for a node with two children: key and digest of the left one, then of the right one, keys
      with the lowest byte first. */
  lemma PairBytes(l: Node, r: Node)
    ensures var s := EncChild(Some(l)) + EncChild(Some(r));
      && |s| == 80 && LeNat(s[..8]) == l.ptr && s[8..40] == l.hash
      && LeNat(s[40..48]) == r.ptr && s[48..] == r.hash
  {
    var s := EncChild(Some(l)) + EncChild(Some(r));
    Pow256Of8();
    LeRoundTrip(l.ptr, 8);
    LeRoundTrip(r.ptr, 8);
    assert s[..8] == Le(l.ptr, 8) && s[40..48] == Le(r.ptr, 8);
  }

  lemma EncPairInjective(a: seq<byte>, b: seq<byte>, c: seq<byte>, d: seq<byte>)
    requires |a| == |c| && a + b == c + d
    ensures a == c && b == d
  {
    assert a == (a + b)[..|a|] && b == (a + b)[|a|..];
    assert c == (c + d)[..|c|] && d == (c + d)[|c|..];
  }

  // ---------------------------------------------------------------- the run

  datatype Verdict = Accept | Reject | Unfinished

  /** A run's verdict together with the inputs it hashed. */
  datatype Run = Run(verdict: Verdict, hashed: set<seq<byte>>)

  type Memory = (nat, nat) -> Node

  function ReadChild(mem: Memory, n: nat, addr: nat): Option<Node> {
    if addr == 0 then None else Some(mem(n, addr))
  }

  /** The unbounded descent loop, observed for at most `limit` layers. `left` and `right` are the
      two loop-carried copies: a null child leaves the copy of an earlier layer in place. */
  function Layers(H: Hasher, node: Node, left: Node, right: Node, key: U64, hash: Digest,
                  mem: Memory, n: nat, limit: nat): Run
    decreases limit
  {
    if node.left == 0 && node.right == 0 then
      Run(if hash == node.hash then Accept else Reject, {})
    else if limit == 0 then
      Run(Unfinished, {})
    else
      var l := ReadChild(mem, n, node.left);
      var r := ReadChild(mem, n + 1, node.right);
      var input := EncChild(l) + EncChild(r);
      if !SingleNodeOk(H, node, l, r) then
        Run(Reject, {input})
      else
        var left' := if l.Some? then l.value else left;
        var right' := if r.Some? then r.value else right;
        var rest := Layers(H, if key < node.ptr then left' else right', left', right',
                           key, hash, mem, n + 2, limit - 1);
        Run(rest.verdict, rest.hashed + {input})
  }

  function VerifyRun(H: Hasher, root: Node, key: U64, hash: Digest, mem: Memory, junk: Node, limit: nat): Run {
    if root.right == 0 then
      Run(Reject, {})
    else
      var right := mem(0, root.right);
      var input := Enc(right.ptr, right.hash);
      if H(input) != root.hash then
        Run(Reject, {input})
      else
        var rest := Layers(H, right, junk, right, key, hash, mem, 1, limit);
        Run(rest.verdict, rest.hashed + {input})
  }

  /** merk_verify as the source runs it; `junk` is the uninitialised local `left`. */
  method MerkVerify(H: Hasher, root: Node, key: U64, hash: Digest, mem: Memory, junk: Node, limit: nat)
    returns (v: Verdict)
    ensures v == VerifyRun(H, root, key, hash, mem, junk, limit).verdict
  {
    var node := root;
    if root.right == 0 {
      return Reject;
    }
    var left := junk;
    var right := mem(0, root.right);
    if !SingleNodeOk(H, node, None, Some(right)) {
      assert EncChild(None) + EncChild(Some(right)) == Enc(right.ptr, right.hash);
      return Reject;
    }
    assert EncChild(None) + EncChild(Some(right)) == Enc(right.ptr, right.hash);
    v := DescendLayers(H, right, left, right, key, hash, mem, 1, limit);
  }

  /** The descent loop. */
  method DescendLayers(H: Hasher, node0: Node, left0: Node, right0: Node, key: U64, hash: Digest, mem: Memory, n0: nat,
                       limit: nat) returns (v: Verdict)
    ensures v == Layers(H, node0, left0, right0, key, hash, mem, n0, limit).verdict
  {
    hide SingleNodeOk, EncChild, Enc;
    var node, left, right, n, rest := node0, left0, right0, n0, limit;
    while true
      invariant Layers(H, node, left, right, key, hash, mem, n, rest).verdict
             == Layers(H, node0, left0, right0, key, hash, mem, n0, limit).verdict
      decreases rest
    {
      if node.left == 0 && node.right == 0 {
        return if hash == node.hash then Accept else Reject;
      }
      if rest == 0 {
        return Unfinished;
      }
      var l, r := None, None;
      if node.left != 0 {
        left := mem(n, node.left);
        l := Some(left);
      }
      if node.right != 0 {
        right := mem(n + 1, node.right);
        r := Some(right);
      }
      if !SingleNodeOk(H, node, l, r) {
        return Reject;
      }
      node := if key < node.ptr then left else right;
      n, rest := n + 2, rest - 1;
    }
  }

  // ---------------------------------------------------------------- the committed tree

  /** The tree the root commits to, annotated with the address each node is stored at. */
  datatype Tree =
    | Leaf(addr: nat, key: U64, hash: Digest)
    | Inner(addr: nat, key: U64, left: Tree, right: Tree)

  function HashOf(H: Hasher, t: Tree): Digest
    decreases t, 0
  {
    match t
    case Leaf(_, _, h) => h
    case Inner(_, _, l, r) => H(EncTree(H, l) + EncTree(H, r))
  }

  function EncTree(H: Hasher, t: Tree): (s: seq<byte>)
    ensures |s| == 40
    decreases t, 1
  {
    Enc(t.key, HashOf(H, t))
  }

  function Height(t: Tree): nat {
    match t
    case Leaf(_, _, _) => 0
    case Inner(_, _, l, r) => 1 + (if Height(l) < Height(r) then Height(r) else Height(l))
  }

  /** The leaf the search for `key` ends in. */
  function Descend(t: Tree, key: U64): (leaf: Tree)
    ensures leaf.Leaf?
  {
    match t
    case Leaf(_, _, _) => t
    case Inner(_, k, l, r) => if key < k then Descend(l, key) else Descend(r, key)
  }

  function Keys(t: Tree): set<U64> {
    match t
    case Leaf(_, k, _) => {k}
    case Inner(_, _, l, r) => Keys(l) + Keys(r)
  }

  /** Leaf-search-tree order: left keys below the node's key, right keys at or above it. */
  predicate Ordered(t: Tree) {
    match t
    case Leaf(_, _, _) => true
    case Inner(_, k, l, r) =>
      && Ordered(l) && Ordered(r)
      && (forall x :: x in Keys(l) ==> x < k)
      && (forall x :: x in Keys(r) ==> k <= x)
  }

  function Contents(t: Tree): map<U64, Digest> {
    match t
    case Leaf(_, k, h) => map[k := h]
    case Inner(_, _, l, r) => Contents(l) + Contents(r)
  }

  lemma ContentsKeys(t: Tree)
    ensures Contents(t).Keys == Keys(t)
  {}

  /** The search finds exactly the leaf of a stored key. */
  lemma {:induction false} DescendFinds(t: Tree, key: U64)
    requires Ordered(t)
    ensures key in Keys(t) <==> Descend(t, key).key == key
    ensures key in Keys(t) ==> key in Contents(t) && Descend(t, key).hash == Contents(t)[key]
    ensures Descend(t, key).key in Keys(t)
  {
    match t
    case Leaf(_, _, _) =>
    case Inner(_, k, l, r) =>
      ContentsKeys(l);
      ContentsKeys(r);
      if key < k { DescendFinds(l, key); } else { DescendFinds(r, key); }
  }

  // ---------------------------------------------------------------- soundness

  const PAGE_INPUT: nat := 4096 + 8

  /** A page digest hashes the page followed by its 8-byte page-out counter. */
  ghost predicate PageInput(x: seq<byte>) {
    |x| == PAGE_INPUT
  }

  /** Every leaf digest is the digest of the page recorded for its key. */
  ghost predicate StoresPages(H: Hasher, t: Tree, pages: map<U64, seq<byte>>) {
    match t
    case Leaf(_, k, h) => k in pages && PageInput(pages[k]) && h == H(pages[k])
    case Inner(_, _, l, r) => StoresPages(H, l, pages) && StoresPages(H, r, pages)
  }

  /** Every input hashed to build the tree from those pages, the root's excepted. */
  ghost function Inputs(H: Hasher, t: Tree, pages: map<U64, seq<byte>>): set<seq<byte>>
    requires StoresPages(H, t, pages)
  {
    match t
    case Leaf(_, k, _) => {pages[k]}
    case Inner(_, _, l, r) =>
      {EncTree(H, l) + EncTree(H, r)} + Inputs(H, l, pages) + Inputs(H, r, pages)
  }

  /** Two different inputs, one from each set, with one digest. */
  ghost predicate Clash(H: Hasher, a: set<seq<byte>>, b: set<seq<byte>>) {
    exists x, y :: x in a && y in b && x != y && H(x) == H(y)
  }

  lemma ClashWitness(H: Hasher, a: set<seq<byte>>, b: set<seq<byte>>, x: seq<byte>, y: seq<byte>)
    requires x in a && y in b && x != y && H(x) == H(y)
    ensures Clash(H, a, b)
  {}

  lemma ClashGrows(H: Hasher, a: set<seq<byte>>, b: set<seq<byte>>, a': set<seq<byte>>, b': set<seq<byte>>)
    requires Clash(H, a, b) && a <= a' && b <= b'
    ensures Clash(H, a', b')
  {
    var x, y :| x in a && y in b && x != y && H(x) == H(y);
    ClashWitness(H, a', b', x, y);
  }

  ghost predicate Matches(H: Hasher, node: Node, t: Tree) {
    node.ptr == t.key && node.hash == HashOf(H, t)
  }

  /** One accepted layer over an authentic node: the children read are the committed ones, or a
      clash is in hand. This also rules out reading a leaf as an interior node and a node with a
      missing child. */
  lemma LayerSound(H: Hasher, node: Node, t: Tree, l: Option<Node>, r: Option<Node>,
                   pages: map<U64, seq<byte>>, hashed: set<seq<byte>>)
    requires StoresPages(H, t, pages) && Matches(H, node, t)
    requires l.Some? || r.Some?
    requires SingleNodeOk(H, node, l, r)
    requires EncChild(l) + EncChild(r) in hashed
    ensures Clash(H, hashed, Inputs(H, t, pages))
         || (t.Inner? && l.Some? && r.Some? && Matches(H, l.value, t.left) && Matches(H, r.value, t.right))
  {
    var input := EncChild(l) + EncChild(r);
    match t
    case Leaf(_, k, h) =>
      ClashWitness(H, hashed, Inputs(H, t, pages), input, pages[k]);
    case Inner(_, _, tl, tr) =>
      var committed := EncTree(H, tl) + EncTree(H, tr);
      if input != committed {
        ClashWitness(H, hashed, Inputs(H, t, pages), input, committed);
      } else {
        assert l.Some? && r.Some?;
        EncPairInjective(EncChild(l), EncChild(r), EncTree(H, tl), EncTree(H, tr));
        EncInjective(l.value.ptr, l.value.hash, tl.key, HashOf(H, tl));
        EncInjective(r.value.ptr, r.value.hash, tr.key, HashOf(H, tr));
      }
  }

  /** What soundness promises of a run from an authentic node: unless the run and the tree clash,
      an accepted page digest is the one the tree stores in the leaf the search ends in, and the
      loop is over after at most one layer more than the committed height. */
  ghost predicate SoundRun(H: Hasher, t: Tree, pages: map<U64, seq<byte>>, page: seq<byte>, key: U64, run: Run,
                           limit: nat)
    requires StoresPages(H, t, pages)
  {
    Clash(H, run.hashed + {page}, Inputs(H, t, pages))
    || ((run.verdict == Accept ==> H(page) == Descend(t, key).hash)
        && (Height(t) < limit ==> run.verdict != Unfinished))
  }

  /** A node read without children is compared with the page digest: if it is an interior node of
      the tree, page and children clash. */
  lemma LastLayerSound(H: Hasher, t: Tree, pages: map<U64, seq<byte>>, page: seq<byte>, node: Node, key: U64,
                       limit: nat)
    requires StoresPages(H, t, pages) && PageInput(page) && Matches(H, node, t)
    ensures SoundRun(H, t, pages, page, key, Run(if H(page) == node.hash then Accept else Reject, {}), limit)
  {
    if t.Inner? && H(page) == node.hash {
      ClashWitness(H, {} + {page}, Inputs(H, t, pages), page, EncTree(H, t.left) + EncTree(H, t.right));
    }
  }

  /** Soundness of the run below an authentic interior node carries over to the node itself. */
  lemma StepSound(H: Hasher, t: Tree, pages: map<U64, seq<byte>>, page: seq<byte>, key: U64, rest: Run,
                  input: seq<byte>, limit: nat)
    requires t.Inner? && StoresPages(H, t, pages) && limit > 0
    requires SoundRun(H, if key < t.key then t.left else t.right, pages, page, key, rest, limit - 1)
    ensures SoundRun(H, t, pages, page, key, Run(rest.verdict, rest.hashed + {input}), limit)
  {
    var next := if key < t.key then t.left else t.right;
    if Clash(H, rest.hashed + {page}, Inputs(H, next, pages)) {
      ClashGrows(H, rest.hashed + {page}, Inputs(H, next, pages),
                 rest.hashed + {input} + {page}, Inputs(H, t, pages));
    }
  }

  /** Soundness from any authentic node, whatever the memory answers. */
  lemma {:induction false} LayersSound(H: Hasher, t: Tree, pages: map<U64, seq<byte>>, page: seq<byte>,
                                       node: Node, left: Node, right: Node, key: U64,
                                       mem: Memory, n: nat, limit: nat)
    requires StoresPages(H, t, pages) && PageInput(page) && Matches(H, node, t)
    ensures SoundRun(H, t, pages, page, key, Layers(H, node, left, right, key, H(page), mem, n, limit), limit)
    decreases limit
  {
    if node.left == 0 && node.right == 0 {
      LastLayerSound(H, t, pages, page, node, key, limit);
    } else if limit > 0 {
      var l := ReadChild(mem, n, node.left);
      var r := ReadChild(mem, n + 1, node.right);
      if SingleNodeOk(H, node, l, r) {
        var run := Layers(H, node, left, right, key, H(page), mem, n, limit);
        LayerSound(H, node, t, l, r, pages, run.hashed + {page});
        if !Clash(H, run.hashed + {page}, Inputs(H, t, pages)) {
          var chosen := if key < node.ptr then l.value else r.value;
          var next := if key < node.ptr then t.left else t.right;
          LayersSound(H, next, pages, page, chosen, l.value, r.value, key, mem, n + 2, limit - 1);
          var rest := Layers(H, chosen, l.value, r.value, key, H(page), mem, n + 2, limit - 1);
          StepSound(H, t, pages, page, key, rest, EncChild(l) + EncChild(r), limit);
        }
      }
    }
  }

  /** A finished run is the same however much longer it is observed, so the limit is no part of the
      verdict. */
  lemma {:induction false} LayersStable(H: Hasher, node: Node, left: Node, right: Node, key: U64, hash: Digest,
                                        mem: Memory, n: nat, limit: nat, more: nat)
    requires limit <= more
    requires Layers(H, node, left, right, key, hash, mem, n, limit).verdict != Unfinished
    ensures Layers(H, node, left, right, key, hash, mem, n, more)
         == Layers(H, node, left, right, key, hash, mem, n, limit)
    decreases limit
  {
    if (node.left != 0 || node.right != 0) && limit > 0 {
      var l := ReadChild(mem, n, node.left);
      var r := ReadChild(mem, n + 1, node.right);
      if SingleNodeOk(H, node, l, r) {
        var left' := if l.Some? then l.value else left;
        var right' := if r.Some? then r.value else right;
        LayersStable(H, if key < node.ptr then left' else right', left', right', key, hash,
                     mem, n + 2, limit - 1, more - 1);
      }
    }
  }

  /** The trusted root commits to a tree by hashing its topmost node. */
  ghost predicate Commits(H: Hasher, root: Node, t: Tree) {
    root.right != 0 && root.hash == H(EncTree(H, t))
  }

  lemma {:induction false} StoredPage(H: Hasher, t: Tree, pages: map<U64, seq<byte>>, key: U64)
    requires StoresPages(H, t, pages) && key in Keys(t)
    ensures key in pages && pages[key] in Inputs(H, t, pages)
  {
    match t
    case Leaf(_, _, _) =>
    case Inner(_, _, l, r) =>
      if key in Keys(l) { StoredPage(H, l, pages, key); } else { StoredPage(H, r, pages, key); }
  }

  lemma {:induction false} StoredDigest(H: Hasher, t: Tree, pages: map<U64, seq<byte>>, key: U64)
    requires StoresPages(H, t, pages) && key in Contents(t)
    ensures key in pages && Contents(t)[key] == H(pages[key])
  {
    match t
    case Leaf(_, _, _) =>
    case Inner(_, _, l, r) =>
      if key in Contents(r) { StoredDigest(H, r, pages, key); } else { StoredDigest(H, l, pages, key); }
  }

  /** Merkle soundness: with a trusted root and memory answering every read as it likes, checking a
      page digest for a stored key accepts only the digest the committed tree stores for that key,
      and the loop ends, unless the inputs hashed in the run and those hashed to build the tree
      contain two different ones with one digest. */
  lemma VerifySound(H: Hasher, root: Node, t: Tree, pages: map<U64, seq<byte>>, page: seq<byte>, key: U64,
                    mem: Memory, junk: Node, limit: nat)
    requires Commits(H, root, t) && Ordered(t) && key in Keys(t)
    requires StoresPages(H, t, pages) && PageInput(page)
    ensures key in Contents(t)
    ensures var run := VerifyRun(H, root, key, H(page), mem, junk, limit);
            || Clash(H, run.hashed + {page}, Inputs(H, t, pages) + {EncTree(H, t)})
            || ((run.verdict == Accept ==> H(page) == Contents(t)[key])
                && (Height(t) < limit ==> run.verdict != Unfinished))
  {
    DescendFinds(t, key);
    var run := VerifyRun(H, root, key, H(page), mem, junk, limit);
    var committed := Inputs(H, t, pages) + {EncTree(H, t)};
    var right := mem(0, root.right);
    var input := Enc(right.ptr, right.hash);
    if H(input) == root.hash {
      if input != EncTree(H, t) {
        ClashWitness(H, run.hashed + {page}, committed, input, EncTree(H, t));
      } else {
        EncInjective(right.ptr, right.hash, t.key, HashOf(H, t));
        LayersSound(H, t, pages, page, right, junk, right, key, mem, 1, limit);
        var rest := Layers(H, right, junk, right, key, H(page), mem, 1, limit);
        if Clash(H, rest.hashed + {page}, Inputs(H, t, pages)) {
          ClashGrows(H, rest.hashed + {page}, Inputs(H, t, pages), run.hashed + {page}, committed);
        }
      }
    }
  }

  /** The same for what was hashed: a page accepted for a stored key is the page that was stored. */
  lemma AcceptedPage(H: Hasher, root: Node, t: Tree, pages: map<U64, seq<byte>>, page: seq<byte>, key: U64,
                     mem: Memory, junk: Node, limit: nat)
    requires Commits(H, root, t) && Ordered(t) && key in Keys(t)
    requires StoresPages(H, t, pages) && PageInput(page)
    ensures key in pages
    ensures var run := VerifyRun(H, root, key, H(page), mem, junk, limit);
            Clash(H, run.hashed + {page}, Inputs(H, t, pages) + {EncTree(H, t)})
            || (run.verdict == Accept ==> page == pages[key])
  {
    var run := VerifyRun(H, root, key, H(page), mem, junk, limit);
    VerifySound(H, root, t, pages, page, key, mem, junk, limit);
    StoredPage(H, t, pages, key);
    StoredDigest(H, t, pages, key);
    if run.verdict == Accept && page != pages[key] && H(page) == Contents(t)[key] {
      ClashWitness(H, run.hashed + {page}, Inputs(H, t, pages) + {EncTree(H, t)}, page, pages[key]);
    }
  }
}
