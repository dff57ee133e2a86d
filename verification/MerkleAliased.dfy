/** Insertion when the node handed out for the new leaf is one that memory also uses on the search path: child
    addresses are not hashed, so whoever rewrites memory can bring that about. Exactly when the insertion
    still does its work, and what it does otherwise. */
module MerkleAliased {
  import opened Bytes
  import opened MerkleVerify
  import opened MerkleTree
  import opened MerkleUntrusted
  import opened MerkleCommit
  import opened MerkleStatic
  import opened MerkleStored
  import opened Options

  // ---------------------------------------------------------------- a run like any other

  /** Memory as the upward loop meets it, its own writes included, from read n on. */
  ghost function Replayed(H: Hasher, al: Allocator, root: Node, path: seq<nat>, curr: Node, f: Image, leaf: nat,
                          parent: nat, n: nat): Memory
    requires |path| > 0
    decreases |path|
  {
    var i, at := |path|, path[|path| - 1];
    var spliced := curr.left == 0 && curr.right == 0;
    var g := if spliced then Splice(H, al, f, at, leaf, parent) else f;
    var fam := ReadRound(root, path, Phases(f, g), 0);
    var r := Turned(H, fam, at, curr, Phases(f, g), 0, leaf, parent);
    if !FamilyOk(H, fam) || r.None? || i == 1 then Shifted(f, g, Static(f), n)
    else
      var back := Put(g, if spliced then SpliceTop(at, Phases(f, g), 0, leaf, parent) else at, r.value.held);
      Shifted(f, g, Replayed(H, al, root, path[..i - 1], r.value.next, back, leaf, parent, n + 6), n)
  }

  /** The six reads of one round, then the rest. */
  ghost function Shifted(f: Image, g: Image, rest: Memory, n: nat): Memory {
    (m: nat, a: nat) => if m < n + 5 then f(a) else if m == n + 5 then g(a) else rest(m, a)
  }

  lemma {:induction false} RoundsReplayed(H: Hasher, al: Allocator, root: Node, path: seq<nat>, curr: Node, base: Node,
                                          steps: seq<Step>, f: Image, leaf: nat, parent: nat, n: nat, mem: Memory)
    requires |path| > 0
    requires forall m: nat, a: nat :: m >= n ==>
      mem(m, a) == Replayed(H, al, root, path, curr, f, leaf, parent, n)(m, a)
    ensures StoredRounds(H, al, root, path, curr, base, steps, f, leaf, parent).0
         == Rounds(H, root, path, curr, base, steps, mem, n, leaf, parent)
    decreases |path|
  {
    hide ReadRound, FamilyOk, Turned, Splice, SpliceTop, Phases, Put;
    var i, at := |path|, path[|path| - 1];
    var spliced := curr.left == 0 && curr.right == 0;
    var g := if spliced then Splice(H, al, f, at, leaf, parent) else f;
    SixReads(H, al, root, path, curr, f, leaf, parent, n, mem);
    var fam := ReadRound(root, path, mem, n);
    var r := Turned(H, fam, at, curr, mem, n, leaf, parent);
    if i > 1 && FamilyOk(H, fam) && r.Some? {
      var back := Put(g, if spliced then SpliceTop(at, Phases(f, g), 0, leaf, parent) else at, r.value.held);
      var (b, below) := if spliced then (r.value.held, []) else (base, steps);
      RoundsReplayed(H, al, root, path[..i - 1], r.value.next, b, [Step(fam.onRight, fam.par.ptr, fam.sibling)] + below,
                     back, leaf, parent, n + 6, mem);
    }
  }

  lemma SixReads(H: Hasher, al: Allocator, root: Node, path: seq<nat>, curr: Node, f: Image, leaf: nat, parent: nat,
                 n: nat, mem: Memory)
    requires |path| > 0
    requires forall m: nat, a: nat :: m >= n ==>
      mem(m, a) == Replayed(H, al, root, path, curr, f, leaf, parent, n)(m, a)
    ensures var at := path[|path| - 1];
      var g := if curr.left == 0 && curr.right == 0 then Splice(H, al, f, at, leaf, parent) else f;
      var fam := ReadRound(root, path, Phases(f, g), 0);
      && ReadRound(root, path, mem, n) == fam
      && Turned(H, fam, at, curr, mem, n, leaf, parent) == Turned(H, fam, at, curr, Phases(f, g), 0, leaf, parent)
      && (FamilyOk(H, fam) && Turned(H, fam, at, curr, mem, n, leaf, parent).Some? ==>
            Turned(H, fam, at, curr, mem, n, leaf, parent).value.spliced == (curr.left == 0 && curr.right == 0))
  {}

  lemma {:induction false} WalkReplayed(f: Image, mem: Memory, n: nat, at: nat, key: U64, room: nat)
    requires n + 2 * room <= 64 && forall m: nat, a: nat :: m < 65 ==> mem(m, a) == f(a)
    ensures Walked(mem, n, at, key, room) == Walked(Static(f), 0, at, key, room)
    decreases room
  {
    hide Walked;
    OneStep(mem, n, at, key, room);
    OneStep(Static(f), 0, at, key, room);
    if room > 0 {
      var next := if key < f(at).ptr then f(at).left else f(at).right;
      if next != 0 {
        WalkReplayed(f, mem, n + 2, next, key, room - 1);
        WalkStatic(f, 0, 2, next, key, room - 1);
      }
    }
  }

  lemma {:induction false} WalkStatic(f: Image, n: nat, m: nat, at: nat, key: U64, room: nat)
    ensures Walked(Static(f), n, at, key, room) == Walked(Static(f), m, at, key, room)
    decreases room
  {
    if room > 0 {
      var next := if key < f(at).ptr then f(at).left else f(at).right;
      if next != 0 {
        WalkStatic(f, n + 2, m + 2, next, key, room - 1);
      }
    }
  }

  /** An insertion with its own writes is one run against memory that answers as it likes. */
  lemma StoredIsRun(H: Hasher, al: Allocator, root: Node, key: U64, hash: Digest, f: Image, leaf: nat, parent: nat)
    returns (mem: Memory)
    ensures StoredInsert(H, al, root, key, hash, f, leaf, parent).0 == InsertRun(H, root, key, hash, mem, leaf, parent)
  {
    var f0 := Begun(al, f, key, hash, leaf);
    if root.right == 0 {
      mem := Static(f0);
    } else {
      var path := Walked(Static(f0), 0, root.right, key, MAX_DEPTH - 2);
      var curr := f0(path[|path| - 1]);
      var rest := Replayed(H, al, root, path, curr, f0, leaf, parent, 65);
      mem := (m: nat, a: nat) => if m < 65 then f0(a) else rest(m, a);
      WalkReplayed(f0, mem, 0, root.right, key, MAX_DEPTH - 2);
      RoundsReplayed(H, al, root, path, curr, curr, [], f0, leaf, parent, 65, mem);
    }
  }

  /** So for every memory, allocator and node handed out: the new root stands for a tree exactly if the reads
      that entered its hashes are that tree's, or two inputs clash. */
  lemma StoredRoot(H: Hasher, al: Allocator, root: Node, key: U64, hash: Digest, f: Image, leaf: nat, parent: nat,
                   t: Tree, pages: map<U64, seq<byte>>)
    requires Guardian(root) && leaf != 0 && parent != 0 && StoresPages(H, t, pages)
    ensures var out := StoredInsert(H, al, root, key, hash, f, leaf, parent).0;
      out.Done? ==>
        || Clash(H, StepInputs(H, out.base, out.steps) + {TopEnc(H, out.base, out.steps)},
                 Inputs(H, t, pages) + {EncTree(H, t)})
        || (Commits(H, out.root, t) <==> Follows(H, t, out.base, out.steps))
  {
    var mem := StoredIsRun(H, al, root, key, hash, f, leaf, parent);
    RootCommits(H, root, key, hash, mem, leaf, parent, t, pages);
  }

  // ---------------------------------------------------------------- what an insertion reads

  /** Everything an insertion reads of the path: it visits at most 31 nodes. */
  function Visited(f: Image, t: Tree, at: nat, key: U64): set<nat> {
    PathReads(f, t, at, key, MAX_DEPTH - 1)
  }

  lemma {:induction false} WholePath(f: Image, t: Tree, at: nat, key: U64, i: nat)
    requires i >= |Path(t, key)|
    ensures PathReads(f, t, at, key, i) == PathReads(f, t, at, key, |Path(t, key)|)
    decreases t
  {
    if t.Inner? && i > 1 {
      WholePath(f, Child(t, key), Next(f(at), key), key, i - 1);
    }
  }

  /** The nodes visited, and what is read about them. */
  lemma VisitedReads(f: Image, t: Tree, at: nat, key: U64)
    ensures Visited(f, t, at, key) == PathReads(f, t, at, key, Least(|Path(t, key)|, MAX_DEPTH - 1))
    ensures Visited(f, t, at, key) <= PathReads(f, t, at, key, |Path(t, key)|)
  {
    if |Path(t, key)| <= MAX_DEPTH - 1 {
      WholePath(f, t, at, key, MAX_DEPTH - 1);
    } else {
      ReadsGrow(f, t, at, key, MAX_DEPTH - 1, |Path(t, key)|);
    }
  }

  /** One more round reads one more node and its sibling. */
  lemma {:induction false} ReadsStep(H: Hasher, f: Image, t: Tree, at: nat, key: U64, i: nat)
    requires Shows(H, f, t, at, key) && 1 < i <= |Path(t, key)|
    ensures var a := Trail(f, t, at, key);
      PathReads(f, t, at, key, i) == PathReads(f, t, at, key, i - 1) + {a[i - 1], Other(f(a[i - 2]), key)}
    decreases t
  {
    if i > 2 {
      ReadsStep(H, f, Child(t, key), Next(f(at), key), key, i - 1);
    }
  }

  lemma Below(H: Hasher, f: Image, t: Tree, at: nat, key: U64)
    requires Shows(H, f, t, at, key) && |Path(t, key)| > 1
    ensures var a := Trail(f, t, at, key);
      && t.Inner? && a[1] == Next(f(at), key) != 0 && Shows(H, f, Child(t, key), a[1], key)
      && a == [at] + Trail(f, Child(t, key), a[1], key) && |Path(t, key)| == 1 + |Path(Child(t, key), key)|
  {}

  /** A walk that meets a node without children ends there. */
  lemma {:induction false} CutWalk(H: Hasher, f: Image, g: Image, t: Tree, at: nat, key: U64, n: nat, room: nat, j: nat)
    requires Shows(H, g, t, at, key) && j < |Path(t, key)| && j <= room
    requires forall k :: 0 <= k < j ==> f(Trail(g, t, at, key)[k]) == g(Trail(g, t, at, key)[k])
    requires var x := f(Trail(g, t, at, key)[j]); x.left == 0 && x.right == 0
    ensures Walked(Static(f), n, at, key, room) == Trail(g, t, at, key)[..j + 1]
    decreases t
  {
    hide Walked, HashOf, Matches;
    OneStep(Static(f), n, at, key, room);
    var a := Trail(g, t, at, key);
    if j > 0 {
      var next := a[1];
      Below(H, g, t, at, key);
      var rest := Trail(g, Child(t, key), next, key);
      assert forall k :: 0 <= k < |rest| ==> rest[k] == a[k + 1];
      CutWalk(H, f, g, Child(t, key), next, key, n + 2, room - 1, j - 1);
      assert a[..j + 1] == [at] + rest[..j];
    } else {
      assert a[..1] == [at];
    }
  }

  // ---------------------------------------------------------------- the new leaf in another node's place

  /** What the checks along the path would hash with the new leaf in the place of a node or of its sibling. */
  ghost function Mixed(H: Hasher, t: Tree, key: U64, leaf: seq<byte>): set<seq<byte>> {
    match t
    case Leaf(_, _, _) => {}
    case Inner(_, _, l, r) => {leaf + EncTree(H, r), EncTree(H, l) + leaf} + Mixed(H, Child(t, key), key, leaf)
  }

  lemma {:induction false} MixedAt(H: Hasher, t: Tree, key: U64, leaf: seq<byte>, i: nat)
    requires i < |Path(t, key)| && Path(t, key)[i].Inner?
    ensures var q := Path(t, key)[i];
      leaf + EncTree(H, q.right) in Mixed(H, t, key, leaf) && EncTree(H, q.left) + leaf in Mixed(H, t, key, leaf)
  {
    if i > 0 {
      MixedAt(H, Child(t, key), key, leaf, i - 1);
    }
  }

  /** The digest the slot is to be bound to is not the one it is bound to. */
  predicate Changes(t: Tree, key: U64, hash: Digest) {
    Descend(t, key).key == key ==> Descend(t, key).hash != hash
  }

  /** All inputs at hand: the tree's, the page's, those of the checks, and those of the roots in question. */
  ghost function AtHand(H: Hasher, t: Tree, pages: map<U64, seq<byte>>, key: U64, will: seq<byte>, leaf: nat,
                        parent: nat): set<seq<byte>>
    requires StoresPages(H, t, pages)
  {
    var t', new_ := Grown(t, key, H(will), leaf, parent, Reached(t, key)), Enc(key, H(will));
    Inputs(H, t, pages) + Mixed(H, t, key, new_) + {will, new_, EncTree(H, t')}
      + if t'.Inner? then {EncTree(H, t'.left) + EncTree(H, t'.right)} else {}
  }

  /** A subtree's digest is not a page's. */
  lemma NotAPage(H: Hasher, q: Tree, pages: map<U64, seq<byte>>, key: U64, will: seq<byte>, all: set<seq<byte>>)
    requires StoresPages(H, q, pages) && PageInput(will) && will in all && Inputs(H, q, pages) <= all
      && !Clash(H, all, all)
    requires Enc(key, H(will)) == EncTree(H, q)
    ensures q.Leaf? && q.key == key && q.hash == H(will)
  {
    EncInjective(key, H(will), q.key, HashOf(H, q));
    if q.Inner? {
      ClashWitness(H, all, all, will, EncTree(H, q.left) + EncTree(H, q.right));
    }
  }

  /** The new leaf is a child only if it is the slot's own leaf as it was. */
  lemma ChildTaken(H: Hasher, q: Tree, pages: map<U64, seq<byte>>, key: U64, will: seq<byte>, all: set<seq<byte>>)
    requires q.Inner? && Ordered(q) && StoresPages(H, q, pages) && PageInput(will)
    requires will in all && Inputs(H, q, pages) <= all && !Clash(H, all, all)
    requires Enc(key, H(will)) == EncTree(H, q.left) || Enc(key, H(will)) == EncTree(H, q.right)
    ensures !Changes(q, key, H(will))
  {
    if Enc(key, H(will)) == EncTree(H, q.left) {
      NotAPage(H, q.left, pages, key, will, all);
      assert key in Keys(q.left);
      assert Descend(q, key) == q.left;
    } else {
      NotAPage(H, q.right, pages, key, will, all);
      assert key in Keys(q.right);
      assert Descend(q, key) == q.right;
    }
  }

  /** With the new leaf in the place of either child the family does not check. */
  lemma Misfit(H: Hasher, q: Tree, pages: map<U64, seq<byte>>, key: U64, will: seq<byte>, all: set<seq<byte>>)
    requires q.Inner? && Ordered(q) && StoresPages(H, q, pages) && PageInput(will) && Changes(q, key, H(will))
    requires will in all && Inputs(H, q, pages) <= all && !Clash(H, all, all)
    requires Enc(key, H(will)) + EncTree(H, q.right) in all && EncTree(H, q.left) + Enc(key, H(will)) in all
    ensures H(Enc(key, H(will)) + EncTree(H, q.right)) != HashOf(H, q)
    ensures H(EncTree(H, q.left) + Enc(key, H(will))) != HashOf(H, q)
  {
    var new_, whole := Enc(key, H(will)), EncTree(H, q.left) + EncTree(H, q.right);
    if H(new_ + EncTree(H, q.right)) == H(whole) {
      NoCollision(H, all, new_ + EncTree(H, q.right), whole);
      EncPairInjective(new_, EncTree(H, q.right), EncTree(H, q.left), EncTree(H, q.right));
      ChildTaken(H, q, pages, key, will, all);
    }
    if H(EncTree(H, q.left) + new_) == H(whole) {
      NoCollision(H, all, EncTree(H, q.left) + new_, whole);
      EncPairInjective(EncTree(H, q.left), new_, EncTree(H, q.left), EncTree(H, q.right));
      ChildTaken(H, q, pages, key, will, all);
    }
  }

  lemma NoCollision(H: Hasher, all: set<seq<byte>>, x: seq<byte>, y: seq<byte>)
    requires !Clash(H, all, all) && x in all && y in all && H(x) == H(y)
    ensures x == y
  {
    if x != y {
      ClashWitness(H, all, all, x, y);
    }
  }

  // ---------------------------------------------------------------- refused

  /** All that the following lemmas need of tree, page and hash. */
  ghost predicate Setting(H: Hasher, g: Image, root: Node, t: Tree, pages: map<U64, seq<byte>>, key: U64,
                          will: seq<byte>, all: set<seq<byte>>)
  {
    && Shows(H, g, t, root.right, key) && Guardian(root) && Ordered(t) && StoresPages(H, t, pages) && PageInput(will)
    && Changes(t, key, H(will)) && !Clash(H, all, all)
    && will in all && Inputs(H, t, pages) <= all && Mixed(H, t, key, Enc(key, H(will))) <= all
  }

  lemma {:induction false} PathOrdered(t: Tree, key: U64, i: nat)
    requires Ordered(t) && i < |Path(t, key)|
    ensures Ordered(Path(t, key)[i]) && Descend(Path(t, key)[i], key) == Descend(t, key)
  {
    if t.Inner? && i > 0 {
      PathOrdered(Child(t, key), key, i - 1);
    }
  }

  /** No parent on the path accepts the new leaf for either of its children. */
  lemma ParentMisfit(H: Hasher, g: Image, root: Node, t: Tree, pages: map<U64, seq<byte>>, key: U64, will: seq<byte>,
                     all: set<seq<byte>>, i: nat)
    requires Setting(H, g, root, t, pages, key, will, all) && 1 < i <= |Path(t, key)|
    ensures var q := Path(t, key)[i - 2];
      && q.Inner? && Path(t, key)[i - 1] == Child(q, key)
      && H(Enc(key, H(will)) + EncTree(H, q.right)) != HashOf(H, q)
      && H(EncTree(H, q.left) + Enc(key, H(will))) != HashOf(H, q)
  {
    hide HashOf, EncTree, Inputs, StoresPages, Clash, Mixed;
    ShowsAt(H, g, t, root.right, key, i - 2);
    PathPages(H, t, pages, key, i - 2);
    PathOrdered(t, key, i - 2);
    MixedAt(H, t, key, Enc(key, H(will)), i - 2);
    Misfit(H, Path(t, key)[i - 2], pages, key, will, all);
  }

  /** The parent of a node of the path, its sibling's address and what memory has at the three. */
  lemma Family3(H: Hasher, g: Image, root: Node, t: Tree, key: U64, i: nat)
    requires Shows(H, g, t, root.right, key) && 1 < i <= |Path(t, key)|
    ensures var a, p := Trail(g, t, root.right, key), Path(t, key);
      var par, q := g(a[i - 2]), p[i - 2];
      && q.Inner? && Matches(H, par, q) && Matches(H, g(a[i - 1]), Child(q, key))
         && Matches(H, g(Other(par, key)), Sibling(q, key))
      && par.left != 0 && par.right != 0 && par.left != par.right && a[i - 1] == Next(par, key)
  {
    ShowsAt(H, g, t, root.right, key, i - 2);
    ShowsAt(H, g, t, root.right, key, i - 1);
  }

  /** A family with the new leaf in it does not check. */
  lemma FamilyRefused(H: Hasher, g: Image, root: Node, t: Tree, pages: map<U64, seq<byte>>, key: U64, will: seq<byte>,
                      all: set<seq<byte>>, i: nat, fam: Family)
    requires Setting(H, g, root, t, pages, key, will, all) && 1 < i <= |Path(t, key)|
    requires var a := Trail(g, t, root.right, key);
      var new_, par := Node(key, H(will), 0, 0), g(a[i - 2]);
      && fam.par == par && fam.onRight == (par.right == a[i - 1]) && fam.sibling.Some?
      && ((fam.seen == new_ && fam.sibling.value == g(Other(par, key)))
         || (fam.sibling.value == new_ && fam.seen == g(a[i - 1])))
    ensures !FamilyOk(H, fam)
  {
    hide Shows, HashOf, Setting, Inputs, Mixed, Clash, Trail, Path;
    Shown(H, g, root, t, pages, key, will, all);
    ParentMisfit(H, g, root, t, pages, key, will, all, i);
    Family3(H, g, root, t, key, i);
    var par, q := fam.par, Path(t, key)[i - 2];
    EncMatches(H, g(Next(par, key)), Child(q, key));
    EncMatches(H, g(Other(par, key)), Sibling(q, key));
  }

  lemma Shown(H: Hasher, g: Image, root: Node, t: Tree, pages: map<U64, seq<byte>>, key: U64, will: seq<byte>,
              all: set<seq<byte>>)
    requires Setting(H, g, root, t, pages, key, will, all)
    ensures Shows(H, g, t, root.right, key) && Guardian(root) && Ordered(t) && StoresPages(H, t, pages)
    ensures !Clash(H, Inputs(H, t, pages), Inputs(H, t, pages))
  {
    if Clash(H, Inputs(H, t, pages), Inputs(H, t, pages)) {
      ClashGrows(H, Inputs(H, t, pages), Inputs(H, t, pages), all, all);
    }
  }

  /** Above the splice, with the new leaf where the sibling of a node further up should be: refused there. */
  lemma {:induction false} SiblingStops(H: Hasher, al: Allocator, f: Image, g: Image, root: Node, t: Tree,
                                        pages: map<U64, seq<byte>>, key: U64, will: seq<byte>, all: set<seq<byte>>,
                                        i: nat, curr: Node, base: Node, steps: seq<Step>, leaf: nat, parent: nat)
    requires Setting(H, g, root, t, pages, key, will, all)
    requires 0 < i < |Path(t, key)| && (curr.left != 0 || curr.right != 0)
    requires f(leaf) == Node(key, H(will), 0, 0) && leaf in PathReads(g, t, root.right, key, i)
    requires forall x :: x in PathReads(g, t, root.right, key, i) && x != leaf ==> f(x) == g(x)
    requires forall j :: 0 <= j < i ==> Trail(g, t, root.right, key)[j] != leaf
    ensures StoredRounds(H, al, root, Trail(g, t, root.right, key)[..i], curr, base, steps, f, leaf, parent).0
      == Refused
    decreases i
  {
    hide Shows, Setting, PathReads, Trail, Path, Clash, Inputs, FamilyOk;
    Shown(H, g, root, t, pages, key, will, all);
    var a := Trail(g, t, root.right, key);
    var path := a[..i];
    TopRead(H, g, t, root.right, key);
    assert i > 1;
    ReadsAt(H, g, t, root.right, key, i);
    ReadsStep(H, g, t, root.right, key, i);
    Family3(H, g, root, t, key, i);
    var par := g(a[i - 2]);
    assert path[i - 2] == a[i - 2] && path[i - 1] == a[i - 1];
    var fam := ReadRound(root, path, Phases(f, f), 0);
    assert fam.par == par && fam.sibling == Some(f(Other(par, key))) && fam.seen == g(a[i - 1]);
    if Other(par, key) == leaf {
      FamilyRefused(H, g, root, t, pages, key, will, all, i, fam);
    } else if FamilyOk(H, fam) {
      Unaliased(H, g, t, root.right, key, i, pages);
      var r := Turned(H, fam, a[i - 1], curr, Phases(f, f), 0, leaf, parent);
      assert r.Some? && !r.value.spliced && r.value.held == curr;
      assert path[..i - 1] == a[..i - 1];
      SiblingStops(H, al, Put(f, a[i - 1], curr), g, root, t, pages, key, will, all, i - 1, r.value.next, base,
                   [Step(fam.onRight, fam.par.ptr, fam.sibling)] + steps, leaf, parent);
    }
  }

  lemma TopRead(H: Hasher, f: Image, t: Tree, at: nat, key: U64)
    requires Shows(H, f, t, at, key)
    ensures PathReads(f, t, at, key, 1) == {Trail(f, t, at, key)[0]}
  {}

  /** Memory after the splice is as before but for the allocator's addresses and a new parent. */
  ghost predicate QuietSplice(H: Hasher, al: Allocator, f0: Image, at: nat, leaf: nat, parent: nat, there: set<nat>) {
    && (forall x :: x in there ==> Splice(H, al, f0, at, leaf, parent)(x) == f0(x))
    && Splice(H, al, f0, at, leaf, parent)(leaf) == f0(leaf)
    && SpliceTop(at, Static(f0), 0, leaf, parent) !in there - {leaf}
  }

  lemma SplicedQuietly(H: Hasher, al: Allocator, own: set<nat>, f0: Image, g: Image, t: Tree, at: nat, key: U64,
                       leaf: nat, parent: nat)
    requires Shows(H, g, t, at, key) && Confined(al, own) && Quiet(own, g, t, at, key, leaf, parent)
    requires var last := Trail(g, t, at, key)[|Path(t, key)| - 1]; f0(last) == g(last) && f0(leaf).ptr == key
    ensures var last := Trail(g, t, at, key)[|Path(t, key)| - 1];
      QuietSplice(H, al, f0, last, leaf, parent, PathReads(g, t, at, key, |Path(t, key)|))
  {
    hide Shows, PathReads, Path, Trail, Confined, Splice;
    LastKey(H, g, t, at, key);
    var last, there := Trail(g, t, at, key)[|Path(t, key)| - 1], PathReads(g, t, at, key, |Path(t, key)|);
    forall x | x in there
      ensures Splice(H, al, f0, last, leaf, parent)(x) == f0(x)
    {
      SpliceElsewhere(H, al, own, f0, last, leaf, parent, x);
    }
    SpliceElsewhere(H, al, own, f0, last, leaf, parent, leaf);
  }

  /** A round at a leaf whose family checks always goes on. */
  lemma SplicedTurn(H: Hasher, fam: Family, at: nat, curr: Node, f0: Image, sp: Image, leaf: nat, parent: nat)
    requires curr.left == 0 && curr.right == 0
    ensures var r, top := Turned(H, fam, at, curr, Phases(f0, sp), 0, leaf, parent),
      SpliceTop(at, Phases(f0, sp), 0, leaf, parent);
      && top == SpliceTop(at, Static(f0), 0, leaf, parent)
      && r.Some? && r.value.spliced && r.value.held == sp(top)
      && (fam.par.left != 0 && fam.par.right != 0 ==> r.value.next.left != 0 || r.value.next.right != 0)
  {}

  /** The same from the bottom round on. */
  lemma FirstStops(H: Hasher, al: Allocator, f0: Image, g: Image, root: Node, t: Tree, pages: map<U64, seq<byte>>,
                   key: U64, will: seq<byte>, all: set<seq<byte>>, curr: Node, leaf: nat, parent: nat)
    requires Setting(H, g, root, t, pages, key, will, all) && curr.left == 0 && curr.right == 0
    requires var d, a := |Path(t, key)|, Trail(g, t, root.right, key);
      var there := PathReads(g, t, root.right, key, d);
      && f0(leaf) == Node(key, H(will), 0, 0) && leaf in there && (forall j :: 0 <= j < d ==> a[j] != leaf)
      && (forall x :: x in there && x != leaf ==> f0(x) == g(x))
      && QuietSplice(H, al, f0, a[d - 1], leaf, parent, there)
    ensures StoredRounds(H, al, root, Trail(g, t, root.right, key), curr, curr, [], f0, leaf, parent).0 == Refused
  {
    hide Shows, Setting, PathReads, Trail, Path, Clash, Inputs, FamilyOk, Turned, SpliceTop, Splice;
    Shown(H, g, root, t, pages, key, will, all);
    var d, a := |Path(t, key)|, Trail(g, t, root.right, key);
    TopRead(H, g, t, root.right, key);
    assert d > 1;
    ReadsAt(H, g, t, root.right, key, d);
    ReadsStep(H, g, t, root.right, key, d);
    Family3(H, g, root, t, key, d);
    var par, sp := g(a[d - 2]), Splice(H, al, f0, a[d - 1], leaf, parent);
    var fam := ReadRound(root, a, Phases(f0, sp), 0);
    assert fam.par == par && fam.sibling == Some(f0(Other(par, key))) && fam.seen == g(a[d - 1]);
    if Other(par, key) == leaf {
      FamilyRefused(H, g, root, t, pages, key, will, all, d, fam);
    } else if FamilyOk(H, fam) {
      SplicedTurn(H, fam, a[d - 1], curr, f0, sp, leaf, parent);
      var r := Turned(H, fam, a[d - 1], curr, Phases(f0, sp), 0, leaf, parent);
      var back := Put(sp, SpliceTop(a[d - 1], Phases(f0, sp), 0, leaf, parent), r.value.held);
      SiblingStops(H, al, back, g, root, t, pages, key, will, all, d - 1, r.value.next, r.value.held,
                   [Step(fam.onRight, fam.par.ptr, fam.sibling)] + [], leaf, parent);
    }
  }

  /** The new leaf where a node of the path should be: the walk ends there, and the first check refuses. */
  lemma PathTaken(H: Hasher, al: Allocator, f0: Image, g: Image, root: Node, t: Tree, pages: map<U64, seq<byte>>,
                  key: U64, will: seq<byte>, all: set<seq<byte>>, leaf: nat, parent: nat, j: nat)
    requires Setting(H, g, root, t, pages, key, will, all)
    requires 0 < j < |Path(t, key)| && j <= MAX_DEPTH - 2 && Trail(g, t, root.right, key)[j] == leaf
    requires f0(leaf) == Node(key, H(will), 0, 0)
    requires forall x :: x in PathReads(g, t, root.right, key, j + 1) && x != leaf ==> f0(x) == g(x)
    ensures var path := Walked(Static(f0), 0, root.right, key, MAX_DEPTH - 2);
      var curr := f0(path[|path| - 1]);
      StoredRounds(H, al, root, path, curr, curr, [], f0, leaf, parent).0 == Refused
  {
    hide Shows, Setting, PathReads, Trail, Path, Clash, Inputs, FamilyOk, Turned, Splice, Walked;
    Shown(H, g, root, t, pages, key, will, all);
    var a := Trail(g, t, root.right, key);
    ReadsAt(H, g, t, root.right, key, j + 1);
    Unaliased(H, g, t, root.right, key, j + 1, pages);
    TrailReads(H, g, t, root.right, key, j);
    CutWalk(H, f0, g, t, root.right, key, 0, MAX_DEPTH - 2, j);
    Family3(H, g, root, t, key, j + 1);
    var path := a[..j + 1];
    assert path[j] == a[j] && path[j - 1] == a[j - 1];
    var sp := Splice(H, al, f0, leaf, leaf, parent);
    var fam := ReadRound(root, path, Phases(f0, sp), 0);
    var par := g(a[j - 1]);
    assert fam.par == par && fam.sibling == Some(g(Other(par, key))) && fam.seen == f0(leaf);
    FamilyRefused(H, g, root, t, pages, key, will, all, j + 1, fam);
  }

  lemma {:induction false} TrailReads(H: Hasher, f: Image, t: Tree, at: nat, key: U64, i: nat)
    requires Shows(H, f, t, at, key) && 0 < i <= |Path(t, key)|
    ensures forall k :: 0 <= k < i ==> Trail(f, t, at, key)[k] in PathReads(f, t, at, key, i)
    decreases t
  {
    if t.Inner? && i > 1 {
      TrailReads(H, f, Child(t, key), Next(f(at), key), key, i - 1);
    }
  }

  // ---------------------------------------------------------------- the three outcomes

  /** Where the allocation leaves memory that showed the tree. */
  lemma Allocated(H: Hasher, al: Allocator, own: set<nat>, f: Image, t: Tree, at: nat, key: U64, hash: Digest,
                  leaf: nat, parent: nat)
    requires Shows(H, f, t, at, key) && Confined(al, own) && Quiet(own, f, t, at, key, leaf, parent)
    ensures var g, f0 := al.take(f), Begun(al, f, key, hash, leaf);
      && Shows(H, g, t, at, key) && Quiet(own, g, t, at, key, leaf, parent)
      && Trail(g, t, at, key) == Trail(f, t, at, key) && Visited(g, t, at, key) == Visited(f, t, at, key)
      && f0(leaf) == Node(key, hash, 0, 0) && (forall x :: x != leaf ==> f0(x) == g(x))
  {
    var g := al.take(f);
    forall x | x in PathReads(f, t, at, key, |Path(t, key)|)
      ensures g(x) == f(x)
    {
      assert al.take(f)(x) == f(x);
    }
    ShowsFrame(H, f, g, t, at, key);
    PathReadsFrame(H, f, g, t, at, key, |Path(t, key)|);
    PathReadsFrame(H, f, g, t, at, key, MAX_DEPTH - 1);
  }

  /** The new leaf off everything the insertion reads. */
  lemma Undisturbed(H: Hasher, al: Allocator, own: set<nat>, root: Node, t: Tree, pages: map<U64, seq<byte>>, key: U64,
                    hash: Digest, f: Image, leaf: nat, parent: nat)
    requires Shows(H, f, t, root.right, key) && Guardian(root) && Ordered(t) && StoresPages(H, t, pages)
    requires !Clash(H, Inputs(H, t, pages), Inputs(H, t, pages))
    requires Confined(al, own) && Quiet(own, f, t, root.right, key, leaf, parent)
      && leaf !in Visited(f, t, root.right, key)
    ensures var out := StoredInsert(H, al, root, key, hash, f, leaf, parent).0;
      out.Done? && Commits(H, out.root, Grown(t, key, hash, leaf, parent, Reached(t, key)))
  {
    hide Shows, PathReads, Trail, Path, Clash, Inputs, StoresPages, Confined, StoredRounds, Rounds, Walked, Grown,
      Quiet;
    if Reached(t, key) {
      WholePath(f, t, root.right, key, MAX_DEPTH - 1);
      FreshCommits(H, al, own, root, t, pages, key, hash, f, leaf, parent);
    } else {
      Allocated(H, al, own, f, t, root.right, key, hash, leaf, parent);
      var g, f0 := al.take(f), Begun(al, f, key, hash, leaf);
      var d, a := MAX_DEPTH - 1, Trail(g, t, root.right, key);
      TrailReads(H, g, t, root.right, key, d);
      TrailWalk(H, f0, g, t, root.right, key, 0, MAX_DEPTH - 2);
      ReadsAt(H, g, t, root.right, key, d);
      HasChildren(H, g, t, root.right, key, d);
      RootThere(H, g, t, root.right, key);
      var curr := g(a[d - 1]);
      assert a[..d][d - 1] == a[d - 1];
      ShownWalk(H, g, t, root.right, key, 0, MAX_DEPTH - 2);
      WriteBacks(H, al, f0, g, root, t, pages, key, d, curr, curr, [], 65, leaf, parent);
      ShownInsert(H, g, root, t, key, hash, leaf, parent);
    }
  }

  lemma HasChildren(H: Hasher, f: Image, t: Tree, at: nat, key: U64, i: nat)
    requires Shows(H, f, t, at, key) && 0 < i < |Path(t, key)|
    ensures f(Trail(f, t, at, key)[i - 1]).left != 0
  {
    ShowsAt(H, f, t, at, key, i - 1);
  }

  /** The new leaf in the topmost node's place: the new root stands for it alone. */
  lemma TopTaken(H: Hasher, al: Allocator, own: set<nat>, root: Node, key: U64, hash: Digest, f: Image, leaf: nat,
                 parent: nat)
    requires Guardian(root) && root.right == leaf != 0 && Confined(al, own) && leaf !in own
    ensures StoredInsert(H, al, root, key, hash, f, leaf, parent).0
         == Done(root.(hash := H(Enc(key, hash))), Node(key, hash, 0, 0), [])
  {
    var f0 := Begun(al, f, key, hash, leaf);
    var path := Walked(Static(f0), 0, leaf, key, MAX_DEPTH - 2);
    assert path == [leaf];
    assert al.give(f0)(leaf) == f0(leaf);
    assert [] + Enc(key, hash) == Enc(key, hash);
  }

  /** The new leaf in any other place on the path: refused. */
  lemma Blocked(H: Hasher, al: Allocator, own: set<nat>, root: Node, t: Tree, pages: map<U64, seq<byte>>, key: U64,
                will: seq<byte>, all: set<seq<byte>>, f: Image, leaf: nat, parent: nat)
    requires Setting(H, f, root, t, pages, key, will, all)
    requires Confined(al, own) && Quiet(own, f, t, root.right, key, leaf, parent)
    requires leaf in Visited(f, t, root.right, key) && leaf != root.right
    ensures StoredInsert(H, al, root, key, H(will), f, leaf, parent).0 == Refused
  {
    hide Shows, PathReads, Trail, Path, Clash, Inputs, Mixed, StoresPages, Confined, StoredRounds, Walked, Quiet,
      Changes, Ordered;
    Allocated(H, al, own, f, t, root.right, key, H(will), leaf, parent);
    var g, f0 := al.take(f), Begun(al, f, key, H(will), leaf);
    var d, a := Least(|Path(t, key)|, MAX_DEPTH - 1), Trail(g, t, root.right, key);
    VisitedReads(g, t, root.right, key);
    RootThere(H, g, t, root.right, key);
    if j :| 0 <= j < d && a[j] == leaf {
      PathTaken(H, al, f0, g, root, t, pages, key, will, all, leaf, parent, j);
    } else {
      SiblingTaken(H, al, own, f0, g, root, t, pages, key, will, all, leaf, parent);
    }
  }

  lemma SiblingTaken(H: Hasher, al: Allocator, own: set<nat>, f0: Image, g: Image, root: Node, t: Tree,
                     pages: map<U64, seq<byte>>, key: U64, will: seq<byte>, all: set<seq<byte>>, leaf: nat, parent: nat)
    requires Setting(H, g, root, t, pages, key, will, all)
    requires Confined(al, own) && Quiet(own, g, t, root.right, key, leaf, parent)
    requires f0(leaf) == Node(key, H(will), 0, 0) && (forall x :: x != leaf ==> f0(x) == g(x))
    requires var d := Least(|Path(t, key)|, MAX_DEPTH - 1);
      leaf in PathReads(g, t, root.right, key, d) && forall j :: 0 <= j < d ==> Trail(g, t, root.right, key)[j] != leaf
    ensures var path := Walked(Static(f0), 0, root.right, key, MAX_DEPTH - 2);
      var curr := f0(path[|path| - 1]);
      StoredRounds(H, al, root, path, curr, curr, [], f0, leaf, parent).0 == Refused
  {
    hide Shows, Setting, PathReads, Trail, Path, Clash, Inputs, StoresPages, Confined, StoredRounds, Walked, Quiet;
    Shown(H, g, root, t, pages, key, will, all);
    var d, a := Least(|Path(t, key)|, MAX_DEPTH - 1), Trail(g, t, root.right, key);
    TrailWalk(H, f0, g, t, root.right, key, 0, MAX_DEPTH - 2);
    var curr := g(a[d - 1]);
    assert a[..d][d - 1] == a[d - 1];
    if d == |Path(t, key)| {
      assert a[..d] == a;
      LastLeaf(H, g, t, root.right, key);
      SplicedQuietly(H, al, own, f0, g, t, root.right, key, leaf, parent);
      FirstStops(H, al, f0, g, root, t, pages, key, will, all, curr, leaf, parent);
    } else {
      HasChildren(H, g, t, root.right, key, d);
      SiblingStops(H, al, f0, g, root, t, pages, key, will, all, d, curr, curr, [], leaf, parent);
    }
  }

  lemma LastLeaf(H: Hasher, f: Image, t: Tree, at: nat, key: U64)
    requires Shows(H, f, t, at, key)
    ensures var n := f(Trail(f, t, at, key)[|Path(t, key)| - 1]); n.left == 0 && n.right == 0
  {
    ShowsAt(H, f, t, at, key, |Path(t, key)| - 1);
  }

  /** The walk reads the nodes of the path, not their siblings. */
  lemma {:induction false} TrailWalk(H: Hasher, f: Image, g: Image, t: Tree, at: nat, key: U64, n: nat, room: nat)
    requires Shows(H, g, t, at, key)
    requires forall j :: 0 <= j < Least(|Path(t, key)|, room + 1) ==>
      f(Trail(g, t, at, key)[j]) == g(Trail(g, t, at, key)[j])
    ensures Walked(Static(f), n, at, key, room) == Trail(g, t, at, key)[..Least(|Path(t, key)|, room + 1)]
    decreases t
  {
    hide Walked, HashOf, Matches;
    OneStep(Static(f), n, at, key, room);
    var a := Trail(g, t, at, key);
    if t.Inner? && room > 0 {
      Below(H, g, t, at, key);
      var rest := Trail(g, Child(t, key), a[1], key);
      assert forall k :: 0 <= k < |rest| ==> rest[k] == a[k + 1];
      TrailWalk(H, f, g, Child(t, key), a[1], key, n + 2, room - 1);
      assert a[..Least(|rest|, room) + 1] == [at] + rest[..Least(|rest|, room)];
    } else {
      assert a[..1] == [at];
    }
  }

  // ---------------------------------------------------------------- exactly when

  /** The new leaf is off everything the insertion reads, or takes the place of the one leaf it overwrites: what
      the runtime could test before it writes. */
  predicate Rebinds(f: Image, root: Node, t: Tree, key: U64, leaf: nat) {
    leaf !in Visited(f, t, root.right, key) || (t.Leaf? && t.key == key)
  }

  /** What an insertion comes to, by where the node handed out lies. */
  ghost predicate Outcomes(H: Hasher, out: Outcome, f: Image, root: Node, t: Tree, key: U64, hash: Digest, leaf: nat,
                           parent: nat) {
    && (out.Done? && Commits(H, out.root, Grown(t, key, hash, leaf, parent, Reached(t, key)))
       <==> Rebinds(f, root, t, key, leaf))
    && (leaf in Visited(f, t, root.right, key) && leaf != root.right ==> out == Refused)
    && (leaf == root.right ==> out.Done? && out.root == root.(hash := H(Enc(key, hash))))
  }

  /** A root for the new leaf alone is not one for the tree. */
  lemma TopAlone(H: Hasher, t: Tree, pages: map<U64, seq<byte>>, key: U64, will: seq<byte>, leaf: nat, parent: nat)
    requires StoresPages(H, t, pages) && PageInput(will) && !(t.Leaf? && t.key == key)
    requires !Clash(H, AtHand(H, t, pages, key, will, leaf, parent), AtHand(H, t, pages, key, will, leaf, parent))
    ensures H(Enc(key, H(will))) != H(EncTree(H, Grown(t, key, H(will), leaf, parent, Reached(t, key))))
  {
    var all, t' := AtHand(H, t, pages, key, will, leaf, parent), Grown(t, key, H(will), leaf, parent, Reached(t, key));
    if H(Enc(key, H(will))) == H(EncTree(H, t')) {
      NoCollision(H, all, Enc(key, H(will)), EncTree(H, t'));
      EncInjective(key, H(will), t'.key, HashOf(H, t'));
      ClashWitness(H, all, all, will, EncTree(H, t'.left) + EncTree(H, t'.right));
    }
  }

  lemma LeafAlone(f: Image, t: Tree, at: nat, key: U64)
    requires t.Leaf?
    ensures Visited(f, t, at, key) == {at} && Reached(t, key)
  {}

  lemma OneLeaf(H: Hasher, t: Tree, key: U64, hash: Digest, leaf: nat, parent: nat)
    requires t.Leaf? && t.key == key
    ensures EncTree(H, Grown(t, key, hash, leaf, parent, Reached(t, key))) == Enc(key, hash)
  {}

  lemma TopVisited(f: Image, t: Tree, at: nat, key: U64)
    ensures at in Visited(f, t, at, key)
  {}

  /** Exactly when an insertion into memory that shows a tree leads to the updated one, unless inputs clash. */
  lemma StoredCommits(H: Hasher, al: Allocator, own: set<nat>, root: Node, t: Tree, pages: map<U64, seq<byte>>,
                      key: U64, will: seq<byte>, f: Image, leaf: nat, parent: nat)
    requires Shows(H, f, t, root.right, key) && Guardian(root) && Ordered(t) && StoresPages(H, t, pages)
    requires PageInput(will) && Changes(t, key, H(will))
    requires Confined(al, own) && Quiet(own, f, t, root.right, key, leaf, parent)
    requires !Clash(H, AtHand(H, t, pages, key, will, leaf, parent), AtHand(H, t, pages, key, will, leaf, parent))
    ensures Outcomes(H, StoredInsert(H, al, root, key, H(will), f, leaf, parent).0, f, root, t, key, H(will),
                     leaf, parent)
  {
    hide Shows, PathReads, Visited, Clash, Inputs, Mixed, Quiet, Confined, StoredInsert, Changes, Path, Trail;
    var all, t' := AtHand(H, t, pages, key, will, leaf, parent), Grown(t, key, H(will), leaf, parent, Reached(t, key));
    TopVisited(f, t, root.right, key);
    if leaf == root.right {
      LeafThere(own, f, t, root.right, key, leaf, parent);
      TopTaken(H, al, own, root, key, H(will), f, leaf, parent);
      if t.Leaf? && t.key == key {
        OneLeaf(H, t, key, H(will), leaf, parent);
      } else {
        TopAlone(H, t, pages, key, will, leaf, parent);
      }
    } else if leaf in Visited(f, t, root.right, key) {
      if t.Leaf? {
        LeafAlone(f, t, root.right, key);
      }
      Blocked(H, al, own, root, t, pages, key, will, all, f, leaf, parent);
    } else {
      Shown(H, f, root, t, pages, key, will, all);
      Undisturbed(H, al, own, root, t, pages, key, H(will), f, leaf, parent);
    }
  }

  lemma LeafThere(own: set<nat>, f: Image, t: Tree, at: nat, key: U64, leaf: nat, parent: nat)
    requires Quiet(own, f, t, at, key, leaf, parent)
    ensures leaf != 0 && leaf !in own
  {}

  // ---------------------------------------------------------------- verification before insertion

  /** Everything a verification and the insertion after it have at hand. */
  ghost function AllInputs(H: Hasher, root: Node, t: Tree, pages: map<U64, seq<byte>>, key: U64, was: seq<byte>,
                           will: seq<byte>, f: Image, junk: Node, limit: nat, leaf: nat, parent: nat): set<seq<byte>>
    requires StoresPages(H, t, pages)
  {
    VerifyRun(H, root, key, H(was), Static(f), junk, limit).hashed + {was, EncTree(H, t)}
      + AtHand(H, t, pages, key, will, leaf, parent)
  }

  /** A verification that accepts has been shown the tree. */
  lemma AcceptedShows(H: Hasher, root: Node, t: Tree, pages: map<U64, seq<byte>>, key: U64, was: seq<byte>, f: Image,
                      junk: Node, limit: nat, all: set<seq<byte>>)
    requires Commits(H, root, t) && Ordered(t) && StoresPages(H, t, pages) && PageInput(was)
    requires VerifyRun(H, root, key, H(was), Static(f), junk, limit).verdict == Accept
    requires VerifyRun(H, root, key, H(was), Static(f), junk, limit).hashed + {was, EncTree(H, t)}
      + Inputs(H, t, pages) <= all
    requires !Clash(H, all, all)
    ensures Shows(H, f, t, root.right, key)
  {
    var inputs, top := Inputs(H, t, pages), f(root.right);
    NoCollision(H, all, Enc(top.ptr, top.hash), EncTree(H, t));
    EncInjective(top.ptr, top.hash, t.key, HashOf(H, t));
    AcceptedPath(H, t, pages, was, f, root.right, junk, top, key, 1, limit);
    var rest := Layers(H, top, junk, top, key, H(was), Static(f), 1, limit);
    FewerInputs(H, rest.hashed + {was} + inputs, inputs, all);
  }

  /** Verifying a slot's page and then binding the slot to another, as an exchange does, while nobody else
      writes memory: what it comes to, unless inputs clash. */
  lemma VerifiedInsert(H: Hasher, al: Allocator, own: set<nat>, root: Node, t: Tree, pages: map<U64, seq<byte>>,
                       key: U64, was: seq<byte>, will: seq<byte>, f: Image, junk: Node, limit: nat,
                       leaf: nat, parent: nat)
    requires Commits(H, root, t) && Guardian(root) && Ordered(t) && StoresPages(H, t, pages) && key in Keys(t)
    requires PageInput(was) && PageInput(will) && was != will
    requires VerifyRun(H, root, key, H(was), Static(f), junk, limit).verdict == Accept
    requires var all := AllInputs(H, root, t, pages, key, was, will, f, junk, limit, leaf, parent); !Clash(H, all, all)
    ensures key in pages && was == pages[key]
    ensures Shows(H, f, t, root.right, key)
    ensures Confined(al, own) && Quiet(own, f, t, root.right, key, leaf, parent) ==>
      Outcomes(H, StoredInsert(H, al, root, key, H(will), f, leaf, parent).0, f, root, t, key, H(will), leaf, parent)
  {
    hide Shows, VerifyRun, Confined, Quiet, Outcomes, StoredInsert, Inputs, Mixed, Ordered;
    var all := AllInputs(H, root, t, pages, key, was, will, f, junk, limit, leaf, parent);
    AcceptedShows(H, root, t, pages, key, was, f, junk, limit, all);
    StoredLeaf(H, t, pages, key);
    BoundPage(H, root, t, pages, key, was, f, junk, limit, all);
    if H(was) == H(will) {
      NoCollision(H, all, was, will);
    }
    if Confined(al, own) && Quiet(own, f, t, root.right, key, leaf, parent) {
      var some := AtHand(H, t, pages, key, will, leaf, parent);
      FewerInputs(H, some, some, all);
      StoredCommits(H, al, own, root, t, pages, key, will, f, leaf, parent);
    }
  }

  lemma FewerInputs(H: Hasher, a: set<seq<byte>>, b: set<seq<byte>>, all: set<seq<byte>>)
    requires !Clash(H, all, all) && a <= all && b <= all
    ensures !Clash(H, a, b)
  {
    if Clash(H, a, b) {
      ClashGrows(H, a, b, all, all);
    }
  }

  lemma StoredLeaf(H: Hasher, t: Tree, pages: map<U64, seq<byte>>, key: U64)
    requires Ordered(t) && StoresPages(H, t, pages) && key in Keys(t)
    ensures key in pages && Descend(t, key).key == key && Descend(t, key).hash == H(pages[key])
  {
    StoredPage(H, t, pages, key);
    ContentsKeys(t);
    StoredDigest(H, t, pages, key);
    DescendFinds(t, key);
  }

  lemma BoundPage(H: Hasher, root: Node, t: Tree, pages: map<U64, seq<byte>>, key: U64, was: seq<byte>, f: Image,
                  junk: Node, limit: nat, all: set<seq<byte>>)
    requires Commits(H, root, t) && Ordered(t) && StoresPages(H, t, pages) && PageInput(was) && key in Keys(t)
    requires VerifyRun(H, root, key, H(was), Static(f), junk, limit).verdict == Accept
    requires VerifyRun(H, root, key, H(was), Static(f), junk, limit).hashed + {was, EncTree(H, t)}
      + Inputs(H, t, pages) <= all
    requires !Clash(H, all, all)
    ensures key in pages && was == pages[key]
  {
    var run := VerifyRun(H, root, key, H(was), Static(f), junk, limit);
    FewerInputs(H, run.hashed + {was}, Inputs(H, t, pages) + {EncTree(H, t)}, all);
    AcceptedPage(H, root, t, pages, was, key, Static(f), junk, limit);
  }
}
