/** merk_insert while memory answers every read as it likes.

    The new root is computed from what memory returned; the digest in the old root is never looked
    at. So insertion into untrusted memory keeps the root's meaning exactly if the reads that enter
    the new hashes are those of the tree the new root should stand for. */
module MerkleUntrusted {
  import opened Bytes
  import opened MerkleVerify
  import opened MerkleTree
  import opened Options

  /** What one round of the upward loop adds to the new hashes: the side the node in hand hangs on,
      the parent's key, and the sibling if the parent has two children. */
  datatype Step = Step(onRight: bool, key: U64, sibling: Option<Node>)

  /** How an insertion ends: refused by the sibling check, stopped by the assertion, or with a new
      root. The last records what the root was computed from: the node in hand after the splice, and
      the steps above it, topmost first. */
  datatype Outcome = Refused | Stopped | Done(root: Node, base: Node, steps: seq<Step>)

  /** The guardian never holds data, only the address of the topmost node on its right. */
  predicate Guardian(root: Node) {
    root.ptr == 0 && root.left == 0
  }

  /** The walk down from a node: its key and its child's address are two reads. */
  function Walked(mem: Memory, n: nat, at: nat, key: U64, room: nat): (p: seq<nat>)
    ensures 0 < |p| <= room + 1 && p[0] == at
    decreases room
  {
    if room == 0 then [at]
    else
      var next := if key < mem(n, at).ptr then mem(n + 1, at).left else mem(n + 1, at).right;
      if next == 0 then [at] else [at] + Walked(mem, n + 2, next, key, room - 1)
  }

  /** What a round reads: the parent, which is the trusted root in the last round, its other child, and
      the node once more for the check. */
  datatype Family = Family(par: Node, onRight: bool, sibling: Option<Node>, seen: Node)

  function ReadRound(root: Node, path: seq<nat>, mem: Memory, n: nat): Family
    requires |path| > 0
  {
    var i := |path|;
    var par := if i == 1 then root else mem(n, path[i - 2]);
    var onRight := par.right == path[i - 1];
    var sibling := if par.left != 0 && par.right != 0
                   then Some(mem(n + 1, if onRight then par.left else par.right)) else None;
    Family(par, onRight, sibling, mem(n + 2, path[i - 1]))
  }

  /** Both children in order; a missing sibling contributes nothing. */
  function Pair(onRight: bool, sibling: Option<Node>, node: Node): seq<byte> {
    if onRight then EncChild(sibling) + EncChild(Some(node)) else EncChild(Some(node)) + EncChild(sibling)
  }

  /** The check of the source: without a sibling there is none. */
  predicate FamilyOk(H: Hasher, f: Family) {
    f.sibling.Some? ==> H(Pair(f.onRight, f.sibling, f.seen)) == f.par.hash
  }

  /** Where the new leaf hangs after merk_splice_node: in the leaf's place if their keys read equal, else
      under the new parent. */
  function SpliceTop(at: nat, mem: Memory, n: nat, leaf: nat, parent: nat): nat {
    if mem(n + 3, leaf).ptr == mem(n + 4, at).ptr then leaf else parent
  }

  /** What a round computes from its reads: the node in hand, after the splice if it was a leaf, and its
      rewritten parent; None if the assertion on the link fails. Node and parent written by the splice
      are read back, so what was written there does not matter. */
  datatype Turn = Turn(spliced: bool, held: Node, next: Node)

  function Turned(H: Hasher, f: Family, at: nat, curr: Node, mem: Memory, n: nat, leaf: nat,
                  parent: nat): Option<Turn> {
    var spliced := curr.left == 0 && curr.right == 0;
    var top := if spliced then SpliceTop(at, mem, n, leaf, parent) else at;
    var held := if spliced then mem(n + 5, top) else curr;
    var par := if !spliced then f.par else if f.onRight then f.par.(right := top) else f.par.(left := top);
    if (if f.onRight then par.right else par.left) != top then None
    else Some(Turn(spliced, held, par.(hash := H(Pair(f.onRight, f.sibling, held)))))
  }

  /** The upward loop over the walked addresses, with the node in hand and what it was computed from. */
  function Rounds(H: Hasher, root: Node, path: seq<nat>, curr: Node, base: Node, steps: seq<Step>,
                  mem: Memory, n: nat, leaf: nat, parent: nat): Outcome
    requires |path| > 0
    decreases |path|
  {
    var i := |path|;
    var f := ReadRound(root, path, mem, n);
    if !FamilyOk(H, f) then Refused
    else
      var r := Turned(H, f, path[i - 1], curr, mem, n, leaf, parent);
      if r.None? then Stopped
      else
        var (b, below) := if r.value.spliced then (r.value.held, []) else (base, steps);
        if i == 1 then Done(r.value.next, b, below)
        else Rounds(H, root, path[..i - 1], r.value.next, b, [Step(f.onRight, f.par.ptr, f.sibling)] + below,
                    mem, n + 6, leaf, parent)
  }

  /** merk_insert: at most 31 nodes are visited, and their reads are numbered below 64. `leaf` and `parent`
      are the addresses the node allocator gives out. */
  function InsertRun(H: Hasher, root: Node, key: U64, hash: Digest, mem: Memory, leaf: nat, parent: nat): Outcome {
    if root.right == 0 then
      Done(root.(hash := H(Enc(key, hash)), right := leaf), Node(key, hash, 0, 0), [])
    else
      var path := Walked(mem, 0, root.right, key, MAX_DEPTH - 2);
      var curr := mem(64, path[|path| - 1]);
      Rounds(H, root, path, curr, curr, [], mem, 65, leaf, parent)
  }

  /** The body of the upward loop: the reads, the check, the splice, the assertion and the new hash. */
  method OneRound(H: Hasher, root: Node, path: seq<nat>, curr: Node, mem: Memory, n: nat, leaf: nat, parent: nat)
    returns (f: Family, ok: bool, r: Option<Turn>)
    requires |path| > 0
    ensures f == ReadRound(root, path, mem, n) && ok == FamilyOk(H, f)
    ensures ok ==> r == Turned(H, f, path[|path| - 1], curr, mem, n, leaf, parent)
  {
    var i := |path|;
    var par := if i == 1 then root else mem(n, path[i - 2]);
    var nodePtr := path[i - 1];
    var onRight := par.right == nodePtr;
    var sibling := None;
    if par.left != 0 && par.right != 0 {
      sibling := Some(mem(n + 1, if onRight then par.left else par.right));
    }
    f := Family(par, onRight, sibling, mem(n + 2, nodePtr));
    ok, r := true, None;
    if sibling.Some? && H(Pair(onRight, sibling, f.seen)) != par.hash {
      return f, false, None;
    }
    var held, spliced := curr, false;
    if curr.left == 0 && curr.right == 0 {
      spliced := true;
      nodePtr := SpliceTop(nodePtr, mem, n, leaf, parent);
      held := mem(n + 5, nodePtr);
      par := if onRight then par.(right := nodePtr) else par.(left := nodePtr);
    }
    if (if onRight then par.right else par.left) == nodePtr {
      r := Some(Turn(spliced, held, par.(hash := H(Pair(onRight, sibling, held)))));
    }
  }

  /** merk_insert as the source runs it. */
  method MerkInsert(H: Hasher, root: Node, key: U64, hash: Digest, mem: Memory, leaf: nat, parent: nat)
    returns (out: Outcome)
    requires Guardian(root)
    ensures out == InsertRun(H, root, key, hash, mem, leaf, parent)
  {
    if root.right == 0 {
      return Done(root.(hash := H(Enc(key, hash)), right := leaf), Node(key, hash, 0, 0), []);
    }
    var path, i := WalkDown(root, key, mem);
    var curr := mem(64, path[i]);
    assert path[..i + 1] == path;
    out := ClimbUp(H, root, path, curr, mem, leaf, parent);
  }

  method ClimbUp(H: Hasher, root: Node, path: seq<nat>, curr0: Node, mem: Memory, leaf: nat, parent: nat)
    returns (out: Outcome)
    requires |path| > 0
    ensures out == Rounds(H, root, path, curr0, curr0, [], mem, 65, leaf, parent)
  {
    hide ReadRound, FamilyOk, Turned;
    var curr, base, steps, n, rest := curr0, curr0, [], 65, path;
    while true
      invariant 0 < |rest|
      invariant Rounds(H, root, rest, curr, base, steps, mem, n, leaf, parent)
             == Rounds(H, root, path, curr0, curr0, [], mem, 65, leaf, parent)
      decreases |rest|
    {
      var f, ok, r := OneRound(H, root, rest, curr, mem, n, leaf, parent);
      if !ok {
        return Refused;
      }
      if r.None? {
        return Stopped;
      }
      if r.value.spliced {
        base, steps := r.value.held, [];
      }
      curr := r.value.next;
      if |rest| == 1 {
        return Done(curr, base, steps);
      }
      steps := [Step(f.onRight, f.par.ptr, f.sibling)] + steps;
      rest, n := rest[..|rest| - 1], n + 6;
    }
  }

  /** The loop that fills intermediate_nodes; path[j] is its entry j + 1. */
  method WalkDown(root: Node, key: U64, mem: Memory) returns (path: seq<nat>, i: nat)
    requires Guardian(root) && root.right != 0
    ensures path == Walked(mem, 0, root.right, key, MAX_DEPTH - 2) && i == |path| - 1
  {
    hide Walked;
    var at: nat, n: nat, room: nat := root.right, 0, MAX_DEPTH - 2;   // no key is below the guardian's
    ghost var whole, before: seq<nat> := Walked(mem, 0, at, key, MAX_DEPTH - 2), [];
    path := [at];
    assert whole == before + whole;
    while room > 0
      invariant path == before + [at] && whole == before + Walked(mem, n, at, key, room)
    {
      var next: nat := if key < mem(n, at).ptr then mem(n + 1, at).left else mem(n + 1, at).right;
      OneStep(mem, n, at, key, room);
      if next == 0 {
        break;
      }
      Onward(before, at, Walked(mem, n + 2, next, key, room - 1));
      before, at := before + [at], next;
      path := path + [next];
      n, room := n + 2, room - 1;
    }
    if room == 0 {
      OneStep(mem, n, at, key, room);
    }
    i := |path| - 1;
  }

  lemma OneStep(mem: Memory, n: nat, at: nat, key: U64, room: nat)
    ensures var next := if key < mem(n, at).ptr then mem(n + 1, at).left else mem(n + 1, at).right;
      Walked(mem, n, at, key, room)
        == if room == 0 || next == 0 then [at] else [at] + Walked(mem, n + 2, next, key, room - 1)
  {}

  lemma Onward(before: seq<nat>, at: nat, rest: seq<nat>)
    ensures before + ([at] + rest) == before + [at] + rest
  {}

  // ---------------------------------------------------------------- what the new root stands for

  /** What the topmost node contributes to the root's hash, given what it was computed from. */
  function TopEnc(H: Hasher, base: Node, steps: seq<Step>): (s: seq<byte>)
    ensures |s| == 40
    decreases |steps|, 1
  {
    if steps == [] then Enc(base.ptr, base.hash)
    else Enc(steps[0].key, H(StepInput(H, base, steps)))
  }

  function StepInput(H: Hasher, base: Node, steps: seq<Step>): seq<byte>
    requires steps != []
    decreases |steps|, 0
  {
    var below := TopEnc(H, base, steps[1..]);
    if steps[0].onRight then EncChild(steps[0].sibling) + below else below + EncChild(steps[0].sibling)
  }
}
