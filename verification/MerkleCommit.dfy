/** What the root of an insertion into untrusted memory stands for. */
module MerkleCommit {
  import opened Bytes
  import opened MerkleVerify
  import opened MerkleTree
  import opened MerkleUntrusted
  import opened Options

  // ---------------------------------------------------------------- the new root

  /** The insertion never looks at the digest in the old root. */
  lemma {:induction false} RoundsIgnore(H: Hasher, root: Node, g: Digest, path: seq<nat>, curr: Node, base: Node,
                                        steps: seq<Step>, mem: Memory, n: nat, leaf: nat, parent: nat)
    requires |path| > 0 && Guardian(root)
    ensures Rounds(H, root.(hash := g), path, curr, base, steps, mem, n, leaf, parent)
         == Rounds(H, root, path, curr, base, steps, mem, n, leaf, parent)
    decreases |path|
  {
    var i := |path|;
    var f := ReadRound(root, path, mem, n);
    var r := Turned(H, f, path[i - 1], curr, mem, n, leaf, parent);
    if i > 1 && FamilyOk(H, f) && r.Some? {
      var (b, below) := if r.value.spliced then (r.value.held, []) else (base, steps);
      RoundsIgnore(H, root, g, path[..i - 1], r.value.next, b, [Step(f.onRight, f.par.ptr, f.sibling)] + below,
                   mem, n + 6, leaf, parent);
    }
  }

  lemma InsertIgnoresDigest(H: Hasher, root: Node, g: Digest, key: U64, hash: Digest, mem: Memory, leaf: nat,
                            parent: nat)
    requires Guardian(root)
    ensures InsertRun(H, root.(hash := g), key, hash, mem, leaf, parent)
      == InsertRun(H, root, key, hash, mem, leaf, parent)
  {
    if root.right != 0 {
      var path := Walked(mem, 0, root.right, key, MAX_DEPTH - 2);
      var curr := mem(64, path[|path| - 1]);
      RoundsIgnore(H, root, g, path, curr, curr, [], mem, 65, leaf, parent);
    }
  }

  /** The rewritten parent is the step over the node in hand. */
  lemma TurnTop(H: Hasher, f: Family, at: nat, curr: Node, base: Node, steps: seq<Step>, mem: Memory, n: nat,
                leaf: nat, parent: nat)
    requires Enc(curr.ptr, curr.hash) == TopEnc(H, base, steps)
    ensures var r := Turned(H, f, at, curr, mem, n, leaf, parent);
      r.Some? ==>
        var (b, below) := if r.value.spliced then (r.value.held, []) else (base, steps);
        && Enc(r.value.held.ptr, r.value.held.hash) == TopEnc(H, b, below)
        && Enc(r.value.next.ptr, r.value.next.hash) == TopEnc(H, b, [Step(f.onRight, f.par.ptr, f.sibling)] + below)
        && r.value.next.hash == H(Pair(f.onRight, f.sibling, r.value.held))
  {
    var r := Turned(H, f, at, curr, mem, n, leaf, parent);
    if r.Some? {
      var (b, below) := if r.value.spliced then (r.value.held, []) else (base, steps);
      var up := [Step(f.onRight, f.par.ptr, f.sibling)] + below;
      assert up[1..] == below;
    }
  }

  /** The new root's digest is that of the topmost node as computed from the reads. */
  lemma {:induction false} RoundsTop(H: Hasher, root: Node, path: seq<nat>, curr: Node, base: Node, steps: seq<Step>,
                                     mem: Memory, n: nat, leaf: nat, parent: nat)
    requires |path| > 0 && Guardian(root) && root.right == path[0] != 0 && leaf != 0 && parent != 0
    requires Enc(curr.ptr, curr.hash) == TopEnc(H, base, steps)
    ensures var out := Rounds(H, root, path, curr, base, steps, mem, n, leaf, parent);
      out.Done? ==> out.root.hash == H(TopEnc(H, out.base, out.steps)) && out.root.right != 0
    decreases |path|
  {
    var i := |path|;
    var f := ReadRound(root, path, mem, n);
    var r := Turned(H, f, path[i - 1], curr, mem, n, leaf, parent);
    if FamilyOk(H, f) && r.Some? {
      TurnTop(H, f, path[i - 1], curr, base, steps, mem, n, leaf, parent);
      var (b, below) := if r.value.spliced then (r.value.held, []) else (base, steps);
      if i > 1 {
        RoundsTop(H, root, path[..i - 1], r.value.next, b, [Step(f.onRight, f.par.ptr, f.sibling)] + below,
                  mem, n + 6, leaf, parent);
      } else {
        assert [] + EncChild(Some(r.value.held)) == EncChild(Some(r.value.held));
      }
    }
  }

  lemma NewRoot(H: Hasher, root: Node, key: U64, hash: Digest, mem: Memory, leaf: nat, parent: nat)
    requires Guardian(root) && leaf != 0 && parent != 0
    ensures var out := InsertRun(H, root, key, hash, mem, leaf, parent);
      out.Done? ==> out.root.hash == H(TopEnc(H, out.base, out.steps)) && out.root.right != 0
  {
    if root.right != 0 {
      var path := Walked(mem, 0, root.right, key, MAX_DEPTH - 2);
      var curr := mem(64, path[|path| - 1]);
      RoundsTop(H, root, path, curr, curr, [], mem, 65, leaf, parent);
    }
  }

  // ---------------------------------------------------------------- the exact condition

  /** The reads follow a path of t: at each step the parent's key is the tree's, the sibling's key and
      digest are those of the other subtree, and the node in hand after the splice is the subtree the
      steps lead to. */
  ghost predicate Follows(H: Hasher, t: Tree, base: Node, steps: seq<Step>) {
    if steps == [] then Matches(H, base, t)
    else
      && t.Inner? && steps[0].key == t.key && steps[0].sibling.Some?
      && Matches(H, steps[0].sibling.value, if steps[0].onRight then t.left else t.right)
      && Follows(H, if steps[0].onRight then t.right else t.left, base, steps[1..])
  }

  /** Everything hashed above the node in hand, the root's input excepted. */
  ghost function StepInputs(H: Hasher, base: Node, steps: seq<Step>): set<seq<byte>> {
    if steps == [] then {} else {StepInput(H, base, steps)} + StepInputs(H, base, steps[1..])
  }

  lemma {:induction false} FollowsEnc(H: Hasher, t: Tree, base: Node, steps: seq<Step>)
    requires Follows(H, t, base, steps)
    ensures TopEnc(H, base, steps) == EncTree(H, t)
    decreases |steps|
  {
    if steps != [] {
      var other, next := if steps[0].onRight then t.left else t.right, if steps[0].onRight then t.right else t.left;
      FollowsEnc(H, next, base, steps[1..]);
      assert EncChild(steps[0].sibling) == EncTree(H, other);
      assert StepInput(H, base, steps) == EncTree(H, t.left) + EncTree(H, t.right);
      assert HashOf(H, t) == H(StepInput(H, base, steps));
    }
  }

  /** Conversely, equal encodings come from equal reads, or two inputs clash. */
  lemma {:induction false} EncFollows(H: Hasher, t: Tree, base: Node, steps: seq<Step>, pages: map<U64, seq<byte>>)
    requires StoresPages(H, t, pages) && TopEnc(H, base, steps) == EncTree(H, t)
    ensures Follows(H, t, base, steps) || Clash(H, StepInputs(H, base, steps), Inputs(H, t, pages))
    decreases |steps|
  {
    if steps == [] {
      EncInjective(base.ptr, base.hash, t.key, HashOf(H, t));
    } else {
      var input := StepInput(H, base, steps);
      EncInjective(steps[0].key, H(input), t.key, HashOf(H, t));
      match t
      case Leaf(_, k, _) =>
        ClashWitness(H, StepInputs(H, base, steps), Inputs(H, t, pages), input, pages[k]);
      case Inner(_, _, l, r) =>
        StepFollows(H, t, base, steps, pages);
    }
  }

  lemma StepFollows(H: Hasher, t: Tree, base: Node, steps: seq<Step>, pages: map<U64, seq<byte>>)
    requires t.Inner? && steps != [] && StoresPages(H, t, pages) && steps[0].key == t.key
    requires H(StepInput(H, base, steps)) == HashOf(H, t)
    ensures Follows(H, t, base, steps) || Clash(H, StepInputs(H, base, steps), Inputs(H, t, pages))
    decreases |steps|, 0
  {
    var input, committed := StepInput(H, base, steps), EncTree(H, t.left) + EncTree(H, t.right);
    var s := steps[0];
    var below := TopEnc(H, base, steps[1..]);
    if input != committed {
      ClashWitness(H, StepInputs(H, base, steps), Inputs(H, t, pages), input, committed);
    } else {
      assert s.sibling.Some?;
      var sib := s.sibling.value;
      var other, next := if s.onRight then t.left else t.right, if s.onRight then t.right else t.left;
      if s.onRight {
        EncPairInjective(EncChild(s.sibling), below, EncTree(H, t.left), EncTree(H, t.right));
      } else {
        EncPairInjective(below, EncChild(s.sibling), EncTree(H, t.left), EncTree(H, t.right));
      }
      EncInjective(sib.ptr, sib.hash, other.key, HashOf(H, other));
      EncFollows(H, next, base, steps[1..], pages);
      if Clash(H, StepInputs(H, base, steps[1..]), Inputs(H, next, pages)) {
        ClashGrows(H, StepInputs(H, base, steps[1..]), Inputs(H, next, pages),
                   StepInputs(H, base, steps), Inputs(H, t, pages));
      }
    }
  }

  /** Exactly when an insertion's root stands for a tree: iff the reads that entered its hashes are that
      tree's, unless the run and the tree contain two different inputs with one digest. */
  lemma RootCommits(H: Hasher, root: Node, key: U64, hash: Digest, mem: Memory, leaf: nat, parent: nat,
                    t: Tree, pages: map<U64, seq<byte>>)
    requires Guardian(root) && leaf != 0 && parent != 0 && StoresPages(H, t, pages)
    ensures var out := InsertRun(H, root, key, hash, mem, leaf, parent);
      out.Done? ==>
        || Clash(H, StepInputs(H, out.base, out.steps) + {TopEnc(H, out.base, out.steps)},
                 Inputs(H, t, pages) + {EncTree(H, t)})
        || (Commits(H, out.root, t) <==> Follows(H, t, out.base, out.steps))
  {
    var out := InsertRun(H, root, key, hash, mem, leaf, parent);
    if out.Done? {
      NewRoot(H, root, key, hash, mem, leaf, parent);
      var top, all := TopEnc(H, out.base, out.steps), Inputs(H, t, pages) + {EncTree(H, t)};
      var run := StepInputs(H, out.base, out.steps);
      if Follows(H, t, out.base, out.steps) {
        FollowsEnc(H, t, out.base, out.steps);
      } else if Commits(H, out.root, t) {
        if top != EncTree(H, t) {
          ClashWitness(H, run + {top}, all, top, EncTree(H, t));
        } else {
          EncFollows(H, t, out.base, out.steps, pages);
          ClashGrows(H, run, Inputs(H, t, pages), run + {top}, all);
        }
      }
    }
  }

  lemma {:induction false} StoresOthers(H: Hasher, t: Tree, pages: map<U64, seq<byte>>, key: U64, page: seq<byte>)
    requires StoresPages(H, t, pages) && key !in Keys(t)
    ensures StoresPages(H, t, pages[key := page])
  {
    match t
    case Leaf(_, _, _) =>
    case Inner(_, _, l, r) =>
      StoresOthers(H, l, pages, key, page);
      StoresOthers(H, r, pages, key, page);
  }

  lemma {:induction false} StoresInserted(H: Hasher, t: Tree, pages: map<U64, seq<byte>>, key: U64, page: seq<byte>,
                                          leaf: nat, parent: nat)
    requires StoresPages(H, t, pages) && Ordered(t) && PageInput(page)
    ensures StoresPages(H, Inserted(t, key, H(page), leaf, parent), pages[key := page])
  {
    match t
    case Leaf(_, _, _) =>
    case Inner(_, k, l, r) =>
      if key < k {
        StoresInserted(H, l, pages, key, page, leaf, parent);
        StoresOthers(H, r, pages, key, page);
      } else {
        StoresInserted(H, r, pages, key, page, leaf, parent);
        StoresOthers(H, l, pages, key, page);
      }
  }

  /** The same for the tree an insertion should lead to. */
  lemma InsertCommits(H: Hasher, root: Node, key: U64, page: seq<byte>, mem: Memory, leaf: nat, parent: nat,
                      t: Tree, pages: map<U64, seq<byte>>)
    requires Guardian(root) && leaf != 0 && parent != 0 && Ordered(t) && StoresPages(H, t, pages) && PageInput(page)
    ensures var out, t' := InsertRun(H, root, key, H(page), mem, leaf, parent), Inserted(t, key, H(page), leaf, parent);
      && StoresPages(H, t', pages[key := page])
      && (out.Done? ==>
            || Clash(H, StepInputs(H, out.base, out.steps) + {TopEnc(H, out.base, out.steps)},
                     Inputs(H, t', pages[key := page]) + {EncTree(H, t')})
            || (Commits(H, out.root, t') <==> Follows(H, t', out.base, out.steps)))
  {
    StoresInserted(H, t, pages, key, page, leaf, parent);
    RootCommits(H, root, key, H(page), mem, leaf, parent, Inserted(t, key, H(page), leaf, parent), pages[key := page]);
  }
}
