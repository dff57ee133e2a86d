/** Swapping pages in and out when everything in the backing store is the adversary's: slots, counter
    words and Merkle nodes. Only the root is trusted. */
module UntrustedStore {
  import opened Bytes
  import opened Ctr
  import opened MerkleVerify
  import opened MerkleTree
  import opened MerkleUntrusted
  import opened MerkleCommit
  import opened MerkleStatic
  import opened MerkleStored
  import opened MerkleAliased
  import opened PagedMemory
  import opened Pager
  import opened Options

  // ---------------------------------------------------------------- one page in

  /** The reading half of page_swap_epm: whatever the slot holds is decrypted under whatever counter is
      found, and checked against whatever nodes are read. If the check passes, then slot, counter and
      page are exactly what the last eviction to the slot left there, or two inputs clash. */
  method SwapIn(H: Hasher, E: Cipher, root: Node, slot: U64, sealed: Page, c0: U64, mem: Memory, junk: Node, limit: nat,
                ghost t: Tree, ghost pages: map<U64, seq<byte>>, ghost page: Page, ghost c: U64)
    returns (restored: Page, v: Verdict)
    requires Commits(H, root, t) && Ordered(t) && slot in Keys(t) && StoresPages(H, t, pages)
    requires slot in pages && pages[slot] == PageBytes(page, c)
    ensures var run := VerifyRun(H, root, slot, PageDigest(H, restored, c0), mem, junk, limit);
      && v == run.verdict
      && (|| Clash(H, run.hashed + {PageBytes(restored, c0)}, Inputs(H, t, pages) + {EncTree(H, t)})
          || (v == Accept ==> restored == page && c0 == c && sealed == Crypt(E, page, c)))
    ensures restored == Crypt(E, sealed, c0)
  {
    restored := CryptPage(E, sealed, c0);
    v := MerkVerify(H, root, slot, PageDigest(H, restored, c0), mem, junk, limit);
    AcceptedPage(H, root, t, pages, PageBytes(restored, c0), slot, mem, junk, limit);
    if PageBytes(restored, c0) == pages[slot] {
      PageBytesInjective(restored, c0, page, c);
      CryptInverse(E, sealed, c0);
    }
  }

  // ---------------------------------------------------------------- one exchange

  /** One exchange: the page brought in from a slot, the page put out to it, memory when the call begins, the
      node the allocator hands out and the allocator itself. During the call only the call writes memory. */
  datatype Swap = Swap(slot: U64, was: seq<byte>, will: seq<byte>, f: Image, junk: Node, limit: nat, leaf: nat,
                       parent: nat, al: Allocator, own: set<nat>)

  /** What is hashed is a page and its counter, and the counter moves on. */
  ghost predicate Proper(s: Swap) {
    PageInput(s.was) && PageInput(s.will) && s.was != s.will
  }

  function Verified(H: Hasher, root: Node, s: Swap): Run {
    VerifyRun(H, root, s.slot, H(s.was), Static(s.f), s.junk, s.limit)
  }

  function Rebound(H: Hasher, root: Node, s: Swap): Outcome {
    StoredInsert(H, s.al, root, s.slot, H(s.will), s.f, s.leaf, s.parent).0
  }

  /** The root after the call: page_swap_epm goes on whatever merk_insert returns. */
  function After(H: Hasher, root: Node, s: Swap): Node {
    var out := Rebound(H, root, s);
    if out.Done? then out.root else root
  }

  /** The allocator's headers are off the slot's path. */
  ghost predicate Calm(root: Node, t: Tree, s: Swap) {
    Confined(s.al, s.own) && Quiet(s.own, s.f, t, root.right, s.slot, s.leaf, s.parent)
  }

  /** The node handed out is the topmost one of a tree with more than one leaf. */
  predicate TakesTop(root: Node, t: Tree, s: Swap) {
    t.Inner? && s.leaf == root.right
  }

  /** The tree and the pages an exchange leads to: the slot is bound to the page put out if the node handed out
      is off the path and the path has fewer than 32 nodes; otherwise everything stays bound as it was. */
  function NextTree(H: Hasher, root: Node, t: Tree, s: Swap): Tree {
    if Rebinds(s.f, root, t, s.slot, s.leaf) then Grown(t, s.slot, H(s.will), s.leaf, s.parent, Reached(t, s.slot))
      else t
  }

  function NextPages(root: Node, t: Tree, pages: map<U64, seq<byte>>, s: Swap): map<U64, seq<byte>> {
    if Rebinds(s.f, root, t, s.slot, s.leaf) && Reached(t, s.slot) then pages[s.slot := s.will] else pages
  }

  /** The root stands for a tree that stores the given pages. */
  ghost predicate Trusted(H: Hasher, root: Node, t: Tree, pages: map<U64, seq<byte>>) {
    Guardian(root) && Commits(H, root, t) && Ordered(t) && StoresPages(H, t, pages)
  }

  /** Two of the inputs an exchange has at hand have one digest. */
  ghost predicate Broken(H: Hasher, root: Node, t: Tree, pages: map<U64, seq<byte>>, s: Swap)
    requires StoresPages(H, t, pages)
  {
    var all := AllInputs(H, root, t, pages, s.slot, s.was, s.will, s.f, s.junk, s.limit, s.leaf, s.parent);
    Clash(H, all, all)
  }

  ghost predicate Ends(H: Hasher, root: Node, t: Tree, s: Swap) {
    Outcomes(H, Rebound(H, root, s), s.f, root, t, s.slot, H(s.will), s.leaf, s.parent)
  }

  /** An accepted page is the one last bound to its slot, however the store was rewritten before the call. With
      the allocator's headers off the path the slot is bound anew exactly if the node handed out is off it too;
      if it is on it, the insertion is refused and every binding stays, unless it is the topmost node. */
  lemma SwapStep(H: Hasher, root: Node, t: Tree, pages: map<U64, seq<byte>>, s: Swap)
    requires Trusted(H, root, t, pages) && Proper(s) && s.slot in Keys(t)
    requires Verified(H, root, s).verdict == Accept && !Broken(H, root, t, pages, s)
    ensures s.slot in pages && s.was == pages[s.slot]
    ensures Calm(root, t, s) ==> Ends(H, root, t, s)
    ensures Calm(root, t, s) && !TakesTop(root, t, s) ==>
      Trusted(H, After(H, root, s), NextTree(H, root, t, s), NextPages(root, t, pages, s))
  {
    hide StoredInsert, Layers, Quiet, Confined, Shows;
    VerifiedInsert(H, s.al, s.own, root, t, pages, s.slot, s.was, s.will, s.f, s.junk, s.limit, s.leaf, s.parent);
    if Calm(root, t, s) && !TakesTop(root, t, s) {
      StepTrusted(H, root, t, pages, s);
    }
  }

  lemma StepTrusted(H: Hasher, root: Node, t: Tree, pages: map<U64, seq<byte>>, s: Swap)
    requires Trusted(H, root, t, pages) && Proper(s) && s.slot in Keys(t) && Ends(H, root, t, s)
      && !TakesTop(root, t, s)
    ensures Trusted(H, After(H, root, s), NextTree(H, root, t, s), NextPages(root, t, pages, s))
  {
    hide StoredInsert, Visited, Grown;
    GrownStores(H, root, t, pages, s);
    StoredStays(H, s.al, root, s.slot, H(s.will), s.f, s.leaf, s.parent);
    if t.Leaf? {
      LeafAlone(s.f, t, root.right, s.slot);
    }
  }

  lemma GrownStores(H: Hasher, root: Node, t: Tree, pages: map<U64, seq<byte>>, s: Swap)
    requires Ordered(t) && StoresPages(H, t, pages) && PageInput(s.will)
    ensures Ordered(NextTree(H, root, t, s)) && StoresPages(H, NextTree(H, root, t, s), NextPages(root, t, pages, s))
  {
    StoresInserted(H, t, pages, s.slot, s.will, s.leaf, s.parent);
    InsertOrdered(t, s.slot, H(s.will), s.leaf, s.parent);
  }

  lemma CounterMoves(p: Page, c: U64, q: Page, d: U64)
    requires d == (c + 1) % TWO64
    ensures PageBytes(p, c) != PageBytes(q, d)
  {
    if PageBytes(p, c) == PageBytes(q, d) {
      PageBytesInjective(p, c, q, d);
    }
  }

  /** page_swap_epm with a page to bring in, in the order of the source: seal the page going out, open the
      one coming in, verify it, and insert the new digest, whose return value nobody looks at. A page that
      fails the check stops the runtime before anything is bound. */
  method SwapEpm(H: Hasher, E: Cipher, al: Allocator, root: Node, slot: U64, epm: Page, sealed: Page, c0: U64, f: Image,
                 junk: Node, limit: nat, leaf: nat, parent: nat,
                 ghost own: set<nat>, ghost t: Tree, ghost pages: map<U64, seq<byte>>, ghost page: Page, ghost c: U64)
    returns (evicted: Page, restored: Page, c1: U64, v: Verdict, root': Node, f': Image)
    requires Trusted(H, root, t, pages) && slot in Keys(t) && slot in pages && pages[slot] == PageBytes(page, c)
    ensures c1 == (c0 + 1) % TWO64 && evicted == Crypt(E, epm, c1) && restored == Crypt(E, sealed, c0)
    ensures var s := Swap(slot, PageBytes(restored, c0), PageBytes(epm, c1), f, junk, limit, leaf, parent, al, own);
      && v == Verified(H, root, s).verdict
      && (v != Accept ==> root' == root && f' == f)
      && (v == Accept ==> root' == After(H, root, s))
      && (v == Accept && !Broken(H, root, t, pages, s) ==>
            && restored == page && c0 == c && sealed == Crypt(E, page, c)
            && (Calm(root, t, s) ==> Ends(H, root, t, s))
            && (Calm(root, t, s) && !TakesTop(root, t, s) ==>
                  Trusted(H, root', NextTree(H, root, t, s), NextPages(root, t, pages, s))))
  {
    hide Layers, StoredInsert, Quiet, Confined, Grown, Outcomes, Visited;
    c1 := (c0 + 1) % TWO64;
    var hash := PageDigest(H, epm, c1);
    evicted := CryptPage(E, epm, c1);
    restored, v := SwapIn(H, E, root, slot, sealed, c0, Static(f), junk, limit, t, pages, page, c);
    root', f' := root, f;
    if v == Accept {
      var out;
      out, f' := MerkInsertStored(H, al, root, slot, hash, f, leaf, parent);
      root' := if out.Done? then out.root else root;
      ghost var s := Swap(slot, PageBytes(restored, c0), PageBytes(epm, c1), f, junk, limit, leaf, parent, al, own);
      CounterMoves(restored, c0, epm, c1);
      if !Broken(H, root, t, pages, s) {
        SwapStep(H, root, t, pages, s);
        PageBytesInjective(restored, c0, page, c);
        CryptInverse(E, sealed, c0);
      }
    }
  }

  // ---------------------------------------------------------------- runs of exchanges

  /** A run goes well: each exchange of a stored slot is refused, or brings in the page last bound to the slot.
      With the allocator's headers off the path it ends as Outcomes says, and unless the topmost node was
      handed out the root then stands for the tree with exactly the bindings that went through. Nothing is
      promised after a clash, or where one of the conditions fails. */
  ghost predicate Faithful(H: Hasher, root: Node, t: Tree, pages: map<U64, seq<byte>>, swaps: seq<Swap>)
    requires StoresPages(H, t, pages)
    decreases |swaps|
  {
    swaps == [] ||
    var s := swaps[0];
    var root', t', pages' := After(H, root, s), NextTree(H, root, t, s), NextPages(root, t, pages, s);
    s.slot in Keys(t) && Verified(H, root, s).verdict == Accept && !Broken(H, root, t, pages, s) ==>
      && s.slot in pages && s.was == pages[s.slot]
      && (Calm(root, t, s) ==>
            && Ends(H, root, t, s)
            && (!TakesTop(root, t, s) ==>
                  StoresPages(H, t', pages') && Trusted(H, root', t', pages')
                    && Faithful(H, root', t', pages', swaps[1..])))
  }

  /** Exchanges against an adversary who rewrites the whole store between any two calls. */
  lemma {:induction false} SwapsFaithful(H: Hasher, root: Node, t: Tree, pages: map<U64, seq<byte>>, swaps: seq<Swap>)
    requires Trusted(H, root, t, pages) && forall i :: 0 <= i < |swaps| ==> Proper(swaps[i])
    ensures Faithful(H, root, t, pages, swaps)
    decreases |swaps|
  {
    hide Verified, After, NextTree, NextPages, Calm, Broken, Ends, TakesTop;
    if swaps != [] {
      var s := swaps[0];
      if s.slot in Keys(t) && Verified(H, root, s).verdict == Accept && !Broken(H, root, t, pages, s) {
        SwapStep(H, root, t, pages, s);
        if Calm(root, t, s) && !TakesTop(root, t, s) {
          SwapsFaithful(H, After(H, root, s), NextTree(H, root, t, s), NextPages(root, t, pages, s), swaps[1..]);
        }
      }
    }
  }

  // ---------------------------------------------------------------- an insertion that is not checked first

  /** An eviction to a new slot inserts without verifying. Whatever the root stood for, memory can then be
      such that the new root accepts any page for any other slot. */
  lemma ForgedInsert(H: Hasher, root: Node, slot: U64, page: seq<byte>, other: U64, forged: seq<byte>, junk: Node)
    returns (f: Image, leaf: nat, parent: nat)
    requires Guardian(root) && root.right != 0 && slot != other
    ensures var out := InsertRun(H, root, slot, H(page), Static(f), leaf, parent);
      out.Done? && VerifyRun(H, out.root, other, H(forged), Static(f), junk, 1).verdict == Accept
  {
    var a := root.right;
    leaf, parent := a + 1, a + 2;
    var l, r := Node(slot, H(page), 0, 0), Node(other, H(forged), 0, 0);
    var p := if slot < other then Node(other, H(EncChild(Some(l)) + EncChild(Some(r))), leaf, a)
             else Node(slot, H(EncChild(Some(r)) + EncChild(Some(l))), a, leaf);
    f := (x: nat) => if x == a + 1 then l else if x == a + 2 then p else r;
    ForgedRoot(H, root, slot, H(page), f, leaf, parent);
    ForgedVerdict(H, Forged(H, root, f, parent), slot, other, H(forged), f, a, leaf, parent, junk);
  }

  function Forged(H: Hasher, root: Node, f: Image, parent: nat): Node {
    root.(right := parent, hash := H(Enc(f(parent).ptr, f(parent).hash)))
  }

  /** One leaf of another key below the root: the splice puts the parent there. */
  lemma ForgedRoot(H: Hasher, root: Node, slot: U64, hash: Digest, f: Image, leaf: nat, parent: nat)
    requires Guardian(root) && root.right != 0
    requires f(root.right).left == 0 && f(root.right).right == 0 && f(leaf).ptr != f(root.right).ptr
    ensures var out := InsertRun(H, root, slot, hash, Static(f), leaf, parent);
      out.Done? && out.root == Forged(H, root, f, parent)
  {
    var path := Walked(Static(f), 0, root.right, slot, MAX_DEPTH - 2);
    assert path == [root.right];
    var g := ReadRound(root, path, Static(f), 65);
    assert FamilyOk(H, g);
    assert EncChild(None) + EncChild(Some(f(parent))) == Enc(f(parent).ptr, f(parent).hash);
    assert Turned(H, g, root.right, f(root.right), Static(f), 65, leaf, parent)
        == Some(Turn(true, f(parent), Forged(H, root, f, parent)));
  }

  /** Two leaves under one node: a check of the second leaf's key ends there. */
  lemma ForgedVerdict(H: Hasher, root: Node, slot: U64, other: U64, forged: Digest, f: Image, a: nat, leaf: nat,
                      parent: nat, junk: Node)
    requires root.right == parent != 0 && root.hash == H(Enc(f(parent).ptr, f(parent).hash))
    requires a != 0 && leaf != 0 && slot != other && f(a) == Node(other, forged, 0, 0)
    requires f(parent) == if slot < other then Node(other, H(EncChild(Some(f(leaf))) + EncChild(Some(f(a)))), leaf, a)
                          else Node(slot, H(EncChild(Some(f(a))) + EncChild(Some(f(leaf)))), a, leaf)
    ensures VerifyRun(H, root, other, forged, Static(f), junk, 1).verdict == Accept
  {
    var p := f(parent);
    var l, r := f(p.left), f(p.right);
    assert SingleNodeOk(H, p, Some(l), Some(r));
    assert Layers(H, f(a), l, r, other, forged, Static(f), 3, 0).verdict == Accept;
    assert Layers(H, p, junk, p, other, forged, Static(f), 1, 1).verdict == Accept;
  }
}
