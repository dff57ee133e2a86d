/** Exchanges off the conditions: a store rewritten so that the node handed out, or a header of the allocator, is
    on the slot's path. Two slots suffice. */
module UntrustedSwaps {
  import opened Bytes
  import opened MerkleVerify
  import opened MerkleTree
  import opened MerkleUntrusted
  import opened MerkleStatic
  import opened MerkleStored
  import opened MerkleAliased
  import opened UntrustedStore
  import opened Options

  /** Two leaves at 2 and 3 under the topmost node at 1. */
  function TwoLeaves(H: Hasher, slot: U64, was: seq<byte>, other: U64, kept: seq<byte>): Tree {
    Inner(1, other, Leaf(2, slot, H(was)), Leaf(3, other, H(kept)))
  }

  function Siblings(slot: U64, a: Digest, other: U64, b: Digest): seq<byte> {
    Enc(slot, a) + Enc(other, b)
  }

  function TwoImage(H: Hasher, slot: U64, was: seq<byte>, other: U64, kept: seq<byte>): Image {
    (x: nat) =>
      if x == 2 then Node(slot, H(was), 0, 0)
      else if x == 3 then Node(other, H(kept), 0, 0)
      else Node(other, H(Siblings(slot, H(was), other, H(kept))), 2, 3)
  }

  function TwoRoot(H: Hasher, slot: U64, was: seq<byte>, other: U64, kept: seq<byte>): Node {
    Node(0, H(Enc(other, H(Siblings(slot, H(was), other, H(kept))))), 0, 1)
  }

  /** An exchange of the first slot, with the node at `leaf` handed out. */
  function TwoSwap(H: Hasher, slot: U64, was: seq<byte>, will: seq<byte>, other: U64, kept: seq<byte>, leaf: nat,
                   al: Allocator, own: set<nat>): Swap {
    Swap(slot, was, will, TwoImage(H, slot, was, other, kept), Node(0, H([]), 0, 0), 1, leaf, 4, al, own)
  }

  const STILL: Allocator := Allocator((f: Image) => f, (f: Image) => f)

  /** The root can be trusted, and the page that was put out passes the check. */
  lemma TwoAccepted(H: Hasher, slot: U64, was: seq<byte>, will: seq<byte>, other: U64, kept: seq<byte>, leaf: nat,
                    al: Allocator, own: set<nat>)
    requires slot < other && PageInput(was) && PageInput(kept)
    ensures var t, root := TwoLeaves(H, slot, was, other, kept), TwoRoot(H, slot, was, other, kept);
      && Trusted(H, root, t, map[slot := was, other := kept]) && slot in Keys(t) && other in Keys(t)
      && Verified(H, root, TwoSwap(H, slot, was, will, other, kept, leaf, al, own)).verdict == Accept
  {
    var t, root, f := TwoLeaves(H, slot, was, other, kept), TwoRoot(H, slot, was, other, kept),
      TwoImage(H, slot, was, other, kept);
    EncLeaf(H, t.left, f(2));
    EncLeaf(H, t.right, f(3));
    assert HashOf(H, t) == H(Siblings(slot, H(was), other, H(kept)));
    assert EncTree(H, t) == Enc(other, HashOf(H, t));
    var n, junk := f(1), Node(0, H([]), 0, 0);
    assert SingleNodeOk(H, n, Some(f(2)), Some(f(3)));
    assert Layers(H, f(2), f(2), f(3), slot, H(was), Static(f), 3, 0).verdict == Accept;
    assert Layers(H, n, junk, n, slot, H(was), Static(f), 1, 1).verdict == Accept;
  }

  /** The walk to the first slot's leaf, and the first round there. */
  lemma TwoWalk(H: Hasher, f: Image, root: Node, slot: U64, other: U64)
    requires root.right == 1 && slot < other && f(1).ptr == other && f(1).left == 2 && f(1).right == 3
    requires f(2).left == 0 && f(2).right == 0
    ensures Walked(Static(f), 0, 1, slot, MAX_DEPTH - 2) == [1, 2]
  {
    OneStep(Static(f), 0, 1, slot, MAX_DEPTH - 2);
    OneStep(Static(f), 2, 2, slot, MAX_DEPTH - 3);
  }

  lemma TwoRound(H: Hasher, al: Allocator, f: Image, root: Node, leaf: nat, parent: nat)
    requires f(1).left == 2 && f(1).right == 3 && f(2).left == 0 && f(2).right == 0
    requires H(EncChild(Some(f(2))) + EncChild(Some(f(3)))) != f(1).hash
    ensures StoredRounds(H, al, root, [1, 2], f(2), f(2), [], f, leaf, parent).0 == Refused
  {
    var g := Splice(H, al, f, 2, leaf, parent);
    var fam := ReadRound(root, [1, 2], Phases(f, g), 0);
    assert fam.par == f(1) && !fam.onRight && fam.sibling == Some(f(3)) && fam.seen == f(2);
  }

  /** The slot's own leaf is stored at the node handed out next. The old page passes, its leaf is overwritten,
      and the insertion is refused. The root still accepts the old page, and the page that went out for no
      memory but with a collision. */
  lemma StaleSwap(H: Hasher, slot: U64, was: seq<byte>, will: seq<byte>, other: U64, kept: seq<byte>)
    requires slot < other && PageInput(was) && PageInput(will) && PageInput(kept) && was != will
    requires H(Siblings(slot, H(will), other, H(kept))) != H(Siblings(slot, H(was), other, H(kept)))
    ensures var t, root, pages := TwoLeaves(H, slot, was, other, kept), TwoRoot(H, slot, was, other, kept),
      map[slot := was, other := kept];
      var s := TwoSwap(H, slot, was, will, other, kept, 2, STILL, {});
      && Trusted(H, root, t, pages) && s.slot in Keys(t) && Proper(s) && Calm(root, t, s)
      && Verified(H, root, s).verdict == Accept && Rebound(H, root, s) == Refused && After(H, root, s) == root
      && forall mem, junk, limit :: VerifyRun(H, root, slot, H(will), mem, junk, limit).verdict == Accept ==>
           Clash(H, VerifyRun(H, root, slot, H(will), mem, junk, limit).hashed + {will},
                 Inputs(H, t, pages) + {EncTree(H, t)})
  {
    var t, root, pages := TwoLeaves(H, slot, was, other, kept), TwoRoot(H, slot, was, other, kept),
      map[slot := was, other := kept];
    var s := TwoSwap(H, slot, was, will, other, kept, 2, STILL, {});
    TwoAccepted(H, slot, was, will, other, kept, 2, STILL, {});
    TwoCalm(H, slot, was, will, other, kept, 2, STILL, {});
    var f0 := Begun(STILL, s.f, slot, H(will), 2);
    TwoWalk(H, f0, root, slot, other);
    TwoRound(H, STILL, f0, root, 2, 4);
    forall mem, junk, limit | VerifyRun(H, root, slot, H(will), mem, junk, limit).verdict == Accept
      ensures Clash(H, VerifyRun(H, root, slot, H(will), mem, junk, limit).hashed + {will},
                    Inputs(H, t, pages) + {EncTree(H, t)})
    {
      AcceptedPage(H, root, t, pages, will, slot, mem, junk, limit);
    }
  }

  lemma TwoVisited(H: Hasher, slot: U64, was: seq<byte>, other: U64, kept: seq<byte>)
    requires slot < other
    ensures Visited(TwoImage(H, slot, was, other, kept), TwoLeaves(H, slot, was, other, kept), 1, slot) == {1, 2, 3}
  {
    var t, f := TwoLeaves(H, slot, was, other, kept), TwoImage(H, slot, was, other, kept);
    assert PathReads(f, t, 1, slot, MAX_DEPTH - 1) == {1, 3} + PathReads(f, t.left, 2, slot, MAX_DEPTH - 2);
  }

  lemma TwoCalm(H: Hasher, slot: U64, was: seq<byte>, will: seq<byte>, other: U64, kept: seq<byte>, leaf: nat,
                al: Allocator, own: set<nat>)
    requires slot < other && Confined(al, own) && own !! {1, 2, 3} && leaf !in own && leaf != 0
    ensures Calm(TwoRoot(H, slot, was, other, kept), TwoLeaves(H, slot, was, other, kept),
                 TwoSwap(H, slot, was, will, other, kept, leaf, al, own))
  {
    var t, f := TwoLeaves(H, slot, was, other, kept), TwoImage(H, slot, was, other, kept);
    TwoVisited(H, slot, was, other, kept);
    assert Path(t, slot) == [t] + Path(t.left, slot) && Path(t.left, slot) == [t.left];
    assert Descend(t, slot) == Descend(t.left, slot);
    WholePath(f, t, 1, slot, MAX_DEPTH - 1);
  }

  /** The topmost node is handed out: the new root stands for the new leaf alone, and so accepts the page that
      went out for the other slot. */
  lemma LostSwap(H: Hasher, slot: U64, was: seq<byte>, will: seq<byte>, other: U64, kept: seq<byte>, junk: Node)
    requires slot < other && PageInput(was) && PageInput(will) && PageInput(kept) && was != will
    ensures var t, root, pages := TwoLeaves(H, slot, was, other, kept), TwoRoot(H, slot, was, other, kept),
      map[slot := was, other := kept];
      var s := TwoSwap(H, slot, was, will, other, kept, 1, STILL, {});
      && Trusted(H, root, t, pages) && s.slot in Keys(t) && other in Keys(t) && Proper(s) && Calm(root, t, s)
         && TakesTop(root, t, s)
      && Verified(H, root, s).verdict == Accept && Rebound(H, root, s).Done?
      && VerifyRun(H, After(H, root, s), other, H(will), Static(Put(s.f, 1, Node(slot, H(will), 0, 0))),
                   junk, 0).verdict == Accept
  {
    TwoAccepted(H, slot, was, will, other, kept, 1, STILL, {});
    TwoCalm(H, slot, was, will, other, kept, 1, STILL, {});
    var root, s := TwoRoot(H, slot, was, other, kept), TwoSwap(H, slot, was, will, other, kept, 1, STILL, {});
    TopTaken(H, STILL, {}, root, slot, H(will), s.f, 1, 4);
  }

  /** A header that is written when a node is handed out. */
  function Marking(at: nat, n: Node): Allocator {
    Allocator((f: Image) => Put(f, at, n), (f: Image) => f)
  }

  /** The allocator's header is where the sibling of the slot's leaf is: refused, although the node handed out is
      a new one. */
  lemma HeaderSwap(H: Hasher, slot: U64, was: seq<byte>, will: seq<byte>, other: U64, kept: seq<byte>, mark: Digest)
    requires slot < other && PageInput(was) && PageInput(will) && PageInput(kept) && was != will
    requires H(Siblings(slot, H(was), other, mark)) != H(Siblings(slot, H(was), other, H(kept)))
    ensures var al := Marking(3, Node(other, mark, 0, 0));
      var t, root := TwoLeaves(H, slot, was, other, kept), TwoRoot(H, slot, was, other, kept);
      var s := TwoSwap(H, slot, was, will, other, kept, 5, al, {3});
      && Trusted(H, root, t, map[slot := was, other := kept]) && s.slot in Keys(t) && Proper(s)
      && Confined(al, {3}) && Rebinds(s.f, root, t, slot, s.leaf)
      && Verified(H, root, s).verdict == Accept && Rebound(H, root, s) == Refused
  {
    var al := Marking(3, Node(other, mark, 0, 0));
    var t, root, s := TwoLeaves(H, slot, was, other, kept), TwoRoot(H, slot, was, other, kept),
      TwoSwap(H, slot, was, will, other, kept, 5, al, {3});
    TwoAccepted(H, slot, was, will, other, kept, 5, al, {3});
    TwoVisited(H, slot, was, other, kept);
    var f0 := Begun(al, s.f, slot, H(will), 5);
    TwoWalk(H, f0, root, slot, other);
    TwoRound(H, al, f0, root, 5, 4);
  }
}
