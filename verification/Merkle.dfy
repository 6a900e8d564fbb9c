/** The Merkle commitment: the level-by-level loop, the balanced tree it computes, inclusion paths, and
    what the root binds. An odd last node is paired with itself and leaves are not marked as such, so this
    is not the tree of section 2.1 of RFC 6962. */
module Merkle {
  import opened Text

  type Byte = b: int | 0 <= b < 256
  type Digest = d: seq<Byte> | |d| == 32 witness seq(32, _ => 0)

  /** SHA-256, about which nothing is assumed. */
  type Hash = seq<Byte> -> Digest

  // ---------- levels ----------

  /** The level above: pairs of neighbours joined, an odd last node with itself. */
  function Above<N>(join: (N, N) -> N, level: seq<N>): (next: seq<N>)
    ensures |next| == (|level| + 1) / 2
  {
    if level == [] then []
    else if |level| == 1 then [join(level[0], level[0])]
    else [join(level[0], level[1])] + Above(join, level[2..])
  }

  lemma {:induction false} AboveConcat<N>(join: (N, N) -> N, a: seq<N>, b: seq<N>)
    requires |a| % 2 == 0
    ensures Above(join, a + b) == Above(join, a) + Above(join, b)
  {
    if a == [] {
      assert a + b == b;
    } else {
      assert (a + b)[2..] == a[2..] + b;
      AboveConcat(join, a[2..], b);
    }
  }

  function AboveRest<N>(join: (N, N) -> N, level: seq<N>, i: nat): seq<N> {
    if i < |level| then Above(join, level[i..]) else []
  }

  lemma AboveFrom<N>(join: (N, N) -> N, level: seq<N>, i: nat)
    requires i < |level|
    ensures AboveRest(join, level, i) ==
            [join(level[i], if i + 1 < |level| then level[i + 1] else level[i])] + AboveRest(join, level, i + 2)
  {
    if i + 2 <= |level| {
      assert level[i..][2..] == level[i + 2..];
    }
  }

  lemma {:induction false} AboveAt<N>(join: (N, N) -> N, level: seq<N>, j: nat)
    requires 2 * j < |level|
    ensures Above(join, level)[j] ==
            join(level[2 * j], if 2 * j + 1 < |level| then level[2 * j + 1] else level[2 * j])
  {
    if j > 0 {
      AboveAt(join, level[2..], j - 1);
    }
  }

  function Root<N>(join: (N, N) -> N, level: seq<N>): N
    requires level != []
    decreases |level|
  {
    if |level| == 1 then level[0] else Root(join, Above(join, level))
  }

  function CeilLog2(n: nat): nat
    requires n > 0
  {
    if n == 1 then 0 else 1 + CeilLog2((n + 1) / 2)
  }

  function Pow2(d: nat): (p: nat)
    ensures p >= 1
  {
    if d == 0 then 1 else 2 * Pow2(d - 1)
  }

  /** CeilLog2 is the least depth whose full tree has room for n leaves. */
  lemma {:induction false} CeilLog2IsLeast(n: nat, d: nat)
    requires n > 0
    ensures n <= Pow2(d) <==> CeilLog2(n) <= d
  {
    if n > 1 {
      if d > 0 {
        CeilLog2IsLeast((n + 1) / 2, d - 1);
      }
    }
  }

  /** The inner loop: one hash computation for each node of the next level. */
  method NextLevel<N>(join: (N, N) -> N, level: seq<N>) returns (next: seq<N>)
    ensures next == Above(join, level)
  {
    next := [];
    var i := 0;
    while i < |level|
      invariant next + AboveRest(join, level, i) == Above(join, level)
    {
      var left := level[i];
      var right := if i + 1 < |level| then level[i + 1] else left;
      AboveFrom(join, level, i);
      next := next + [join(left, right)];
      i := i + 2;
    }
    assert next + [] == next;
  }

  /** The loop: rounds counts the levels built, joins the hash computations. */
  method MerkleLoop<N>(join: (N, N) -> N, leaves: seq<N>) returns (root: N, rounds: nat, joins: nat)
    requires leaves != []
    ensures root == Root(join, leaves)
    ensures rounds == CeilLog2(|leaves|)
    ensures |leaves| - 1 <= joins <= |leaves| - 1 + rounds
  {
    var level := leaves;
    rounds, joins := 0, 0;
    while |level| > 1
      invariant level != [] && Root(join, level) == Root(join, leaves)
      invariant rounds + CeilLog2(|level|) == CeilLog2(|leaves|)
      invariant |leaves| - |level| <= joins <= |leaves| - |level| + rounds
      decreases |level|
    {
      level := NextLevel(join, level);
      joins := joins + |level|;
      rounds := rounds + 1;
    }
    root := level[0];
  }

  // ---------- the balanced tree ----------

  /** The tree of depth d over at most 2^d leaves: a missing right half copies the left one. */
  function Tree<N>(join: (N, N) -> N, leaves: seq<N>, d: nat): N
    requires 0 < |leaves| <= Pow2(d)
    decreases d
  {
    if d == 0 then leaves[0]
    else
      var half := Pow2(d - 1);
      if |leaves| <= half then
        var left := Tree(join, leaves, d - 1);
        join(left, left)
      else
        join(Tree(join, leaves[..half], d - 1), Tree(join, leaves[half..], d - 1))
  }

  lemma AboveHalves<N>(join: (N, N) -> N, leaves: seq<N>, d: nat)
    requires d > 1 && Pow2(d - 1) < |leaves| <= Pow2(d)
    ensures var half, quarter := Pow2(d - 1), Pow2(d - 2);
            && quarter < |Above(join, leaves)| <= half
            && Above(join, leaves)[..quarter] == Above(join, leaves[..half])
            && Above(join, leaves)[quarter..] == Above(join, leaves[half..])
  {
    var half, quarter := Pow2(d - 1), Pow2(d - 2);
    assert half == 2 * quarter;
    assert leaves == leaves[..half] + leaves[half..];
    AboveConcat(join, leaves[..half], leaves[half..]);
    assert |Above(join, leaves[..half])| == quarter;
  }

  lemma AboveFits<N>(join: (N, N) -> N, leaves: seq<N>, d: nat)
    requires d > 0 && 0 < |leaves| <= Pow2(d)
    ensures 0 < |Above(join, leaves)| <= Pow2(d - 1)
  {}

  lemma TreeOfHalves<N>(join: (N, N) -> N, leaves: seq<N>, d: nat)
    requires d > 0 && Pow2(d - 1) < |leaves| <= Pow2(d)
    ensures var half := Pow2(d - 1);
            Tree(join, leaves, d) == join(Tree(join, leaves[..half], d - 1), Tree(join, leaves[half..], d - 1))
  {}

  /** Joining the neighbours of the bottom level first builds the same tree. */
  lemma {:induction false} TreeFromBelow<N>(join: (N, N) -> N, leaves: seq<N>, d: nat)
    requires d > 0 && 0 < |leaves| <= Pow2(d)
    ensures 0 < |Above(join, leaves)| <= Pow2(d - 1)
    ensures Tree(join, leaves, d) == Tree(join, Above(join, leaves), d - 1)
    decreases d
  {
    AboveFits(join, leaves, d);
    if d == 1 {
    } else if |leaves| <= Pow2(d - 1) {
      TreeFromBelow(join, leaves, d - 1);
    } else {
      var half := Pow2(d - 1);
      AboveHalves(join, leaves, d);
      TreeFromBelow(join, leaves[..half], d - 1);
      TreeFromBelow(join, leaves[half..], d - 1);
      TreeOfHalves(join, leaves, d);
      TreeOfHalves(join, Above(join, leaves), d - 1);
    }
  }

  /** The loop computes the root of the balanced tree of least depth. */
  lemma {:induction false} RootIsTree<N>(join: (N, N) -> N, leaves: seq<N>)
    requires leaves != []
    ensures |leaves| <= Pow2(CeilLog2(|leaves|))
    ensures Root(join, leaves) == Tree(join, leaves, CeilLog2(|leaves|))
    decreases |leaves|
  {
    CeilLog2IsLeast(|leaves|, CeilLog2(|leaves|));
    if |leaves| > 1 {
      RootIsTree(join, Above(join, leaves));
      TreeFromBelow(join, leaves, CeilLog2(|leaves|));
    }
  }

  // ---------- inclusion paths ----------

  /** The sibling of node i; the odd last node is its own. */
  function Sibling<N>(level: seq<N>, i: nat): N
    requires i < |level|
  {
    if i % 2 == 1 then level[i - 1] else if i + 1 < |level| then level[i + 1] else level[i]
  }

  function Path<N>(join: (N, N) -> N, level: seq<N>, i: nat): seq<N>
    requires i < |level|
    decreases |level|
  {
    if |level| == 1 then [] else [Sibling(level, i)] + Path(join, Above(join, level), i / 2)
  }

  /** What a verifier computes from a leaf, its position and the siblings. */
  function FoldPath<N>(join: (N, N) -> N, leaf: N, i: nat, path: seq<N>): N {
    if path == [] then leaf
    else FoldPath(join, if i % 2 == 1 then join(path[0], leaf) else join(leaf, path[0]), i / 2, path[1..])
  }

  lemma NodeAbove<N>(join: (N, N) -> N, level: seq<N>, i: nat)
    requires i < |level|
    ensures i / 2 < |Above(join, level)|
    ensures Above(join, level)[i / 2] ==
            if i % 2 == 1 then join(Sibling(level, i), level[i]) else join(level[i], Sibling(level, i))
  {
    var j := i / 2;
    AboveAt(join, level, j);
    if i % 2 == 1 {
      assert i == 2 * j + 1;
    } else {
      assert i == 2 * j;
    }
  }

  /** Every leaf of every list proves its membership with CeilLog2(n) siblings. */
  lemma {:induction false} PathRebuildsRoot<N>(join: (N, N) -> N, leaves: seq<N>, i: nat)
    requires i < |leaves|
    ensures |Path(join, leaves, i)| == CeilLog2(|leaves|)
    ensures FoldPath(join, leaves[i], i, Path(join, leaves, i)) == Root(join, leaves)
    decreases |leaves|
  {
    if |leaves| > 1 {
      var path := Path(join, leaves, i);
      PathRebuildsRoot(join, Above(join, leaves), i / 2);
      NodeAbove(join, leaves, i);
      assert path[1..] == Path(join, Above(join, leaves), i / 2);
    }
  }

  // ---------- binding ----------

  predicate Collides<N(==)>(join: (N, N) -> N, p: (N, N), q: (N, N)) { p != q && join(p.0, p.1) == join(q.0, q.1) }

  function Pair<N>(level: seq<N>, i: nat): (N, N)
    requires i < |level|
  {
    (level[i / 2 * 2], if i / 2 * 2 + 1 < |level| then level[i / 2 * 2 + 1] else level[i / 2 * 2])
  }

  function FirstDifference<N(==)>(a: seq<N>, b: seq<N>): (i: nat)
    requires |a| == |b| && a != b
    ensures i < |a| && a[i] != b[i]
  {
    if a[0] != b[0] then 0 else 1 + FirstDifference(a[1..], b[1..])
  }

  ghost predicate AllOk<N>(ok: N -> bool, s: seq<N>) { forall i :: 0 <= i < |s| ==> ok(s[i]) }

  lemma AboveIsOk<N(!new)>(join: (N, N) -> N, ok: N -> bool, level: seq<N>)
    requires forall l, r :: ok(join(l, r))
    ensures AllOk(ok, Above(join, level))
  {
    forall i | 0 <= i < |Above(join, level)| ensures ok(Above(join, level)[i]) {
      AboveAt(join, level, i);
    }
  }

  /** From two different lists of equal length with one root: two different pairs of nodes with one join.
      `ok` is any property of the leaves and of all joins. */
  lemma {:induction false} Collision<N(!new)>(join: (N, N) -> N, ok: N -> bool, a: seq<N>, b: seq<N>)
    returns (p: (N, N), q: (N, N))
    requires |a| == |b| && a != b && Root(join, a) == Root(join, b)
    requires AllOk(ok, a) && AllOk(ok, b) && forall l, r :: ok(join(l, r))
    ensures Collides(join, p, q) && ok(p.0) && ok(p.1) && ok(q.0) && ok(q.1)
    decreases |a|
  {
    if Above(join, a) != Above(join, b) {
      AboveIsOk(join, ok, a);
      AboveIsOk(join, ok, b);
      p, q := Collision(join, ok, Above(join, a), Above(join, b));
    } else {
      var i := FirstDifference(a, b);
      AboveAt(join, a, i / 2);
      AboveAt(join, b, i / 2);
      p, q := Pair(a, i), Pair(b, i);
    }
  }

  // ---------- which lists share a root ----------

  /** All 2^d leaves of the tree of depth d, the copies written out. */
  function Full<N>(leaves: seq<N>, d: nat): (full: seq<N>)
    requires 0 < |leaves| <= Pow2(d)
    ensures |full| == Pow2(d)
    decreases d
  {
    if d == 0 then leaves
    else
      var half := Pow2(d - 1);
      if |leaves| <= half then Full(leaves, d - 1) + Full(leaves, d - 1)
      else Full(leaves[..half], d - 1) + Full(leaves[half..], d - 1)
  }

  function Padded<N>(leaves: seq<N>): (full: seq<N>)
    requires leaves != []
    ensures |full| == Pow2(CeilLog2(|leaves|))
  {
    CeilLog2IsLeast(|leaves|, CeilLog2(|leaves|));
    Full(leaves, CeilLog2(|leaves|))
  }

  function Each<A, B>(f: A -> B, s: seq<A>): (t: seq<B>)
    ensures |t| == |s| && forall i :: 0 <= i < |s| ==> t[i] == f(s[i])
  {
    seq(|s|, i requires 0 <= i < |s| => f(s[i]))
  }

  lemma EachConcat<A, B>(f: A -> B, s: seq<A>, t: seq<A>)
    ensures Each(f, s + t) == Each(f, s) + Each(f, t)
  {}

  lemma EachSplit<A, B>(f: A -> B, s: seq<A>, n: nat)
    requires n <= |s|
    ensures Each(f, s)[..n] == Each(f, s[..n]) && Each(f, s)[n..] == Each(f, s[n..])
  {}

  lemma {:induction false} FullOfEach<A, B>(f: A -> B, s: seq<A>, d: nat)
    requires 0 < |s| <= Pow2(d)
    ensures Full(Each(f, s), d) == Each(f, Full(s, d))
    decreases d
  {
    if d == 0 {
      assert Full(s, 0) == s;
    } else if |s| <= Pow2(d - 1) {
      FullOfEach(f, s, d - 1);
      EachConcat(f, Full(s, d - 1), Full(s, d - 1));
    } else {
      var left, right := s[..Pow2(d - 1)], s[Pow2(d - 1)..];
      EachSplit(f, s, Pow2(d - 1));
      FullOfEach(f, left, d - 1);
      FullOfEach(f, right, d - 1);
      EachConcat(f, Full(left, d - 1), Full(right, d - 1));
    }
  }

  lemma PaddedOfEach<A, B>(f: A -> B, s: seq<A>)
    requires s != []
    ensures Padded(Each(f, s)) == Each(f, Padded(s))
  {
    CeilLog2IsLeast(|s|, CeilLog2(|s|));
    FullOfEach(f, s, CeilLog2(|s|));
  }

  lemma {:induction false} FullFirst<N>(leaves: seq<N>, d: nat)
    requires 0 < |leaves| <= Pow2(d)
    ensures Full(leaves, d)[0] == leaves[0]
    decreases d
  {
    if d > 0 {
      FullFirst(if |leaves| <= Pow2(d - 1) then leaves else leaves[..Pow2(d - 1)], d - 1);
    }
  }

  lemma PaddedFirst<N>(leaves: seq<N>)
    requires leaves != []
    ensures Padded(leaves)[0] == leaves[0]
  {
    CeilLog2IsLeast(|leaves|, CeilLog2(|leaves|));
    FullFirst(leaves, CeilLog2(|leaves|));
  }

  lemma {:induction false} FullHasSameTree<N>(join: (N, N) -> N, leaves: seq<N>, d: nat)
    requires 0 < |leaves| <= Pow2(d)
    ensures Tree(join, Full(leaves, d), d) == Tree(join, leaves, d)
    decreases d
  {
    if d > 0 {
      var half := Pow2(d - 1);
      var full := Full(leaves, d);
      var left, right := if |leaves| <= half then leaves else leaves[..half], if |leaves| <= half then leaves else leaves[half..];
      FullHasSameTree(join, left, d - 1);
      FullHasSameTree(join, right, d - 1);
      assert full[..half] == Full(left, d - 1) && full[half..] == Full(right, d - 1);
    }
  }

  lemma {:induction false} Pow2Depth(d: nat)
    ensures CeilLog2(Pow2(d)) == d
  {
    if d > 0 {
      Pow2Depth(d - 1);
      assert (Pow2(d) + 1) / 2 == Pow2(d - 1);
    }
  }

  lemma PaddedHasSameRoot<N>(join: (N, N) -> N, leaves: seq<N>)
    requires leaves != []
    ensures Root(join, Padded(leaves)) == Root(join, leaves)
  {
    var d := CeilLog2(|leaves|);
    RootIsTree(join, leaves);
    RootIsTree(join, Padded(leaves));
    Pow2Depth(d);
    FullHasSameTree(join, leaves, d);
  }

  /** The k-th level above. */
  function Up<N>(join: (N, N) -> N, level: seq<N>, k: nat): seq<N> {
    if k == 0 then level else Above(join, Up(join, level, k - 1))
  }

  /** No mark tells inner nodes from leaves, so every level of a tree has its root. */
  lemma {:induction false} UpHasSameRoot<N>(join: (N, N) -> N, level: seq<N>, k: nat)
    requires level != [] && k <= CeilLog2(|level|)
    ensures Up(join, level, k) != [] && CeilLog2(|Up(join, level, k)|) == CeilLog2(|level|) - k
    ensures Root(join, Up(join, level, k)) == Root(join, level)
  {
    if k > 0 {
      UpHasSameRoot(join, level, k - 1);
    }
  }

  lemma {:induction false} AllOkFull<N(!new)>(ok: N -> bool, leaves: seq<N>, d: nat)
    requires 0 < |leaves| <= Pow2(d) && AllOk(ok, leaves)
    ensures AllOk(ok, Full(leaves, d))
    decreases d
  {
    if d > 0 {
      var half := Pow2(d - 1);
      if |leaves| <= half {
        AllOkFull(ok, leaves, d - 1);
      } else {
        AllOkFull(ok, leaves[..half], d - 1);
        AllOkFull(ok, leaves[half..], d - 1);
      }
    }
  }

  lemma AllOkPadded<N(!new)>(ok: N -> bool, leaves: seq<N>)
    requires leaves != [] && AllOk(ok, leaves)
    ensures AllOk(ok, Padded(leaves))
  {
    CeilLog2IsLeast(|leaves|, CeilLog2(|leaves|));
    AllOkFull(ok, leaves, CeilLog2(|leaves|));
  }

  lemma {:induction false} UpIsNotEmpty<N>(join: (N, N) -> N, level: seq<N>, k: nat)
    requires level != []
    ensures Up(join, level, k) != []
  {
    if k > 0 {
      UpIsNotEmpty(join, level, k - 1);
    }
  }

  lemma {:induction false} AllOkUp<N(!new)>(join: (N, N) -> N, ok: N -> bool, level: seq<N>, k: nat)
    requires AllOk(ok, level) && forall l, r :: ok(join(l, r))
    ensures AllOk(ok, Up(join, level, k))
  {
    if k > 0 {
      AboveIsOk(join, ok, Up(join, level, k - 1));
    }
  }

  /** The level of b at the height of a. */
  function Level<N>(join: (N, N) -> N, a: seq<N>, b: seq<N>): (level: seq<N>)
    requires a != [] && b != [] && CeilLog2(|a|) <= CeilLog2(|b|)
    ensures level != [] && CeilLog2(|level|) == CeilLog2(|a|) && Root(join, level) == Root(join, b)
  {
    UpHasSameRoot(join, b, CeilLog2(|b|) - CeilLog2(|a|));
    Up(join, b, CeilLog2(|b|) - CeilLog2(|a|))
  }

  /** The two lists are the same up to copies and to taking nodes for leaves. */
  predicate Aligned<N(==)>(join: (N, N) -> N, a: seq<N>, b: seq<N>)
    requires a != [] && b != [] && CeilLog2(|a|) <= CeilLog2(|b|)
  {
    Padded(a) == Padded(Level(join, a, b))
  }

  lemma {:induction false} LevelIsOk<N(!new)>(join: (N, N) -> N, ok: N -> bool, a: seq<N>, b: seq<N>)
    requires a != [] && b != [] && CeilLog2(|a|) <= CeilLog2(|b|)
    requires AllOk(ok, b) && forall l, r :: ok(join(l, r))
    ensures AllOk(ok, Level(join, a, b))
  {
    AllOkUp(join, ok, b, CeilLog2(|b|) - CeilLog2(|a|));
  }

  lemma {:induction false} AlignedShareRoot<N>(join: (N, N) -> N, a: seq<N>, b: seq<N>)
    requires a != [] && b != [] && CeilLog2(|a|) <= CeilLog2(|b|) && Aligned(join, a, b)
    ensures Root(join, a) == Root(join, b)
  {
    PaddedHasSameRoot(join, a);
    PaddedHasSameRoot(join, Level(join, a, b));
  }

  lemma {:induction false} PaddedCollision<N(!new)>(join: (N, N) -> N, ok: N -> bool, a: seq<N>, b: seq<N>) returns (p: (N, N), q: (N, N))
    requires a != [] && b != [] && CeilLog2(|a|) == CeilLog2(|b|)
    requires Root(join, a) == Root(join, b) && Padded(a) != Padded(b)
    requires AllOk(ok, a) && AllOk(ok, b) && forall l, r :: ok(join(l, r))
    ensures Collides(join, p, q) && ok(p.0) && ok(p.1) && ok(q.0) && ok(q.1)
  {
    PaddedHasSameRoot(join, a);
    PaddedHasSameRoot(join, b);
    AllOkPadded(ok, a);
    AllOkPadded(ok, b);
    p, q := Collision(join, ok, Padded(a), Padded(b));
  }

  /** For lists of any two lengths: aligned lists share their root, and two lists that share it are aligned
      or give two different pairs of nodes with one join. */
  lemma {:induction false} RootsAgreeExactly<N(!new)>(join: (N, N) -> N, ok: N -> bool, a: seq<N>, b: seq<N>) returns (p: (N, N), q: (N, N))
    requires a != [] && b != [] && CeilLog2(|a|) <= CeilLog2(|b|)
    requires AllOk(ok, a) && AllOk(ok, b) && forall l, r :: ok(join(l, r))
    ensures Aligned(join, a, b) ==> Root(join, a) == Root(join, b)
    ensures Root(join, a) == Root(join, b) && !Aligned(join, a, b) ==>
              Collides(join, p, q) && ok(p.0) && ok(p.1) && ok(q.0) && ok(q.1)
  {
    p, q := (a[0], a[0]), (a[0], a[0]);
    if Aligned(join, a, b) {
      AlignedShareRoot(join, a, b);
    } else if Root(join, a) == Root(join, b) {
      LevelIsOk(join, ok, a, b);
      p, q := PaddedCollision(join, ok, a, Level(join, a, b));
    }
  }

  lemma AboveOfPair<N>(join: (N, N) -> N, x: N)
    ensures Above(join, [x, x]) == [join(x, x)] == Above(join, [x])
  {
    assert [x, x][2..] == [];
  }

  lemma {:induction false} AboveRepeated<N>(join: (N, N) -> N, front: seq<N>, last: N)
    requires |front| % 2 == 0
    ensures Above(join, front + [last, last]) == Above(join, front + [last])
  {
    AboveConcat(join, front, [last]);
    AboveConcat(join, front, [last, last]);
    AboveOfPair(join, last);
  }

  /** The smallest instance at one height: an odd list and the list that repeats its last leaf. */
  lemma {:induction false} RepeatedLastLeaf<N>(join: (N, N) -> N, front: seq<N>, last: N)
    requires front != [] && |front| % 2 == 0
    ensures Root(join, front + [last, last]) == Root(join, front + [last])
  {
    AboveRepeated(join, front, last);
  }

  // ---------- bytes and text ----------

  function Bytes(s: string): (b: seq<Byte>)
    ensures |b| == |s| && forall i :: 0 <= i < |s| ==> b[i] == s[i] as int % 256
  {
    seq(|s|, i requires 0 <= i < |s| => s[i] as int % 256)
  }

  function Hex(d: seq<Byte>): (s: string)
    ensures |s| == 2 * |d| && IsAscii(s)
  {
    if d == [] then "" else [HEX_DIGITS[d[0] / 16], HEX_DIGITS[d[0] % 16]] + Hex(d[1..])
  }

  /** Two characters for each byte, the high half first, in lower case. */
  lemma {:induction false} HexAt(d: seq<Byte>, i: nat)
    requires i < |d|
    ensures |Hex(d)| == 2 * |d|
    ensures Hex(d)[2 * i] == "0123456789abcdef"[d[i] / 16] && Hex(d)[2 * i + 1] == "0123456789abcdef"[d[i] % 16]
  {
    if i > 0 {
      HexAt(d[1..], i - 1);
      assert Hex(d)[2..] == Hex(d[1..]);
      assert Hex(d)[2 * i] == Hex(d)[2..][2 * (i - 1)] && Hex(d)[2 * i + 1] == Hex(d)[2..][2 * (i - 1) + 1];
    }
  }

  lemma {:induction false} HexIsInjective(a: seq<Byte>, b: seq<Byte>)
    requires Hex(a) == Hex(b)
    ensures a == b
  {
    if a == [] || b == [] {
      assert |Hex(a)| == 2 * |a| && |Hex(b)| == 2 * |b|;
    } else {
      var x, y := Hex(a), Hex(b);
      assert x[0] == y[0] && x[1] == y[1] && x[2..] == Hex(a[1..]) && y[2..] == Hex(b[1..]);
      HexIsInjective(a[1..], b[1..]);
      DigitsDiffer(a[0] / 16, b[0] / 16);
      DigitsDiffer(a[0] % 16, b[0] % 16);
      assert a == [a[0]] + a[1..] && b == [b[0]] + b[1..];
    }
  }

  lemma BytesAreInjective(a: string, b: string)
    requires IsAscii(a) && IsAscii(b) && Bytes(a) == Bytes(b)
    ensures a == b
  {
    assert |a| == |Bytes(a)| == |b|;
    forall i | 0 <= i < |a| ensures a[i] == b[i] {
      assert Bytes(a)[i] == Bytes(b)[i];
    }
  }

  /** createHash('sha256').update(s).digest('hex') */
  function HexHash(hash: Hash, s: string): (h: string)
    ensures |h| == 64 && IsAscii(h)
  {
    Hex(hash(Bytes(s)))
  }

  lemma HexHashCollision(hash: Hash, s: string, t: string) returns (x: seq<Byte>, y: seq<Byte>)
    requires IsAscii(s) && IsAscii(t) && s != t && HexHash(hash, s) == HexHash(hash, t)
    ensures x == Bytes(s) && y == Bytes(t) && x != y && hash(x) == hash(y)
  {
    x, y := Bytes(s), Bytes(t);
    HexIsInjective(hash(x), hash(y));
    if x == y {
      BytesAreInjective(s, t);
    }
  }

  // ---------- the implementation on digests ----------

  /** The value of a hexadecimal digit of either case; 16 for any other character. */
  function DigitValue(c: char): nat {
    if '0' <= c <= '9' then c as int - '0' as int
    else if 'a' <= c <= 'f' then c as int - 'a' as int + 10
    else if 'A' <= c <= 'F' then c as int - 'A' as int + 10
    else 16
  }

  /** Buffer.from(s, 'hex'): pairs of digits up to the first pair that is none. */
  function Decode(s: string): seq<Byte> {
    if |s| < 2 || DigitValue(s[0]) == 16 || DigitValue(s[1]) == 16 then []
    else [16 * DigitValue(s[0]) + DigitValue(s[1])] + Decode(s[2..])
  }

  lemma DigitRoundTrip(n: nat)
    requires n < 16
    ensures DigitValue(HEX_DIGITS[n]) == n
  {}

  lemma {:induction false} DecodeHex(d: seq<Byte>)
    ensures Decode(Hex(d)) == d
  {
    if d != [] {
      DigitRoundTrip(d[0] / 16);
      DigitRoundTrip(d[0] % 16);
      DecodeHex(d[1..]);
      assert Hex(d)[2..] == Hex(d[1..]);
    }
  }

  function DecodeAll(hashes: seq<string>): (leaves: seq<seq<Byte>>)
    ensures |leaves| == |hashes| && forall i :: 0 <= i < |hashes| ==> leaves[i] == Decode(hashes[i])
  {
    seq(|hashes|, i requires 0 <= i < |hashes| => Decode(hashes[i]))
  }

  function JoinBytes(hash: Hash): (seq<Byte>, seq<Byte>) -> seq<Byte> {
    (l: seq<Byte>, r: seq<Byte>) => hash(l + r)
  }

  /** The root in binary form. */
  function BytesRoot(hash: Hash, leaves: seq<seq<Byte>>): seq<Byte> {
    if leaves == [] then hash([]) else Root(JoinBytes(hash), leaves)
  }

  /** The recursive tree with its hash computations written out: the left half comes first. */
  function HashTree(hash: Hash, leaves: seq<seq<Byte>>, d: nat): seq<Byte>
    requires 0 < |leaves| <= Pow2(d)
    decreases d
  {
    if d == 0 then leaves[0]
    else
      var half := Pow2(d - 1);
      if |leaves| <= half then hash(HashTree(hash, leaves, d - 1) + HashTree(hash, leaves, d - 1))
      else hash(HashTree(hash, leaves[..half], d - 1) + HashTree(hash, leaves[half..], d - 1))
  }

  lemma {:induction false} HashTreeIsTree(hash: Hash, leaves: seq<seq<Byte>>, d: nat)
    requires 0 < |leaves| <= Pow2(d)
    ensures HashTree(hash, leaves, d) == Tree(JoinBytes(hash), leaves, d)
    decreases d
  {
    if d > 0 {
      var half := Pow2(d - 1);
      if |leaves| <= half {
        HashTreeIsTree(hash, leaves, d - 1);
      } else {
        HashTreeIsTree(hash, leaves[..half], d - 1);
        HashTreeIsTree(hash, leaves[half..], d - 1);
      }
    }
  }

  /** What a verifier computes: the sibling goes first for a node at an odd position, last at an even one. */
  function Verify(hash: Hash, node: seq<Byte>, i: nat, path: seq<seq<Byte>>): seq<Byte>
    decreases |path|
  {
    if path == [] then node
    else Verify(hash, if i % 2 == 1 then hash(path[0] + node) else hash(node + path[0]), i / 2, path[1..])
  }

  lemma {:induction false} VerifyIsFold(hash: Hash, node: seq<Byte>, i: nat, path: seq<seq<Byte>>)
    ensures Verify(hash, node, i, path) == FoldPath(JoinBytes(hash), node, i, path)
    decreases |path|
  {
    if path != [] {
      VerifyIsFold(hash, if i % 2 == 1 then hash(path[0] + node) else hash(node + path[0]), i / 2, path[1..]);
    }
  }

  /** merkleRoot, on any strings: the hash tree over the decoded leaves, and every leaf has a path of
      ceil(log2 n) siblings that rebuilds the root. */
  method MerkleRoot(hash: Hash, hashes: seq<string>) returns (root: string)
    ensures root == Hex(BytesRoot(hash, DecodeAll(hashes)))
    ensures hashes == [] ==> root == Hex(hash([]))
    ensures hashes != [] ==>
              |hashes| <= Pow2(CeilLog2(|hashes|)) && root == Hex(HashTree(hash, DecodeAll(hashes), CeilLog2(|hashes|)))
    ensures forall i :: 0 <= i < |hashes| ==>
              exists path :: |path| == CeilLog2(|hashes|) && Verify(hash, Decode(hashes[i]), i, path) == Decode(root)
  {
    if hashes == [] { return HexHash(hash, ""); }
    var leaves := DecodeAll(hashes);
    var node, rounds, joins := MerkleLoop(JoinBytes(hash), leaves);
    root := Hex(node);
    RootIsTree(JoinBytes(hash), leaves);
    HashTreeIsTree(hash, leaves, CeilLog2(|leaves|));
    DecodeHex(node);
    forall i | 0 <= i < |hashes|
      ensures exists path :: |path| == CeilLog2(|hashes|) && Verify(hash, Decode(hashes[i]), i, path) == Decode(root)
    {
      PathRebuildsRoot(JoinBytes(hash), leaves, i);
      VerifyIsFold(hash, leaves[i], i, Path(JoinBytes(hash), leaves, i));
    }
  }

  function Is32(): seq<Byte> -> bool { (d: seq<Byte>) => |d| == 32 }

  lemma HalvesDiffer(p: (seq<Byte>, seq<Byte>), q: (seq<Byte>, seq<Byte>))
    requires |p.0| == |p.1| == |q.0| == |q.1| == 32 && p != q
    ensures p.0 + p.1 != q.0 + q.1
  {
    var x, y := p.0 + p.1, q.0 + q.1;
    assert x[..32] == p.0 && x[32..] == p.1 && y[..32] == q.0 && y[32..] == q.1;
  }

  /** Two different lists of equally many 32-byte hashes with one root give two different 64-byte inputs
      with one SHA-256. */
  lemma DigestRootBinds(hash: Hash, a: seq<seq<Byte>>, b: seq<seq<Byte>>) returns (x: seq<Byte>, y: seq<Byte>)
    requires |a| == |b| && a != b && AllOk(Is32(), a) && AllOk(Is32(), b) && BytesRoot(hash, a) == BytesRoot(hash, b)
    ensures |x| == |y| == 64 && x != y && hash(x) == hash(y)
  {
    var p, q := Collision(JoinBytes(hash), Is32(), a, b);
    HalvesDiffer(p, q);
    x, y := p.0 + p.1, q.0 + q.1;
  }

  /** Lists of 32-byte hashes of any two lengths share a root exactly when they are aligned, or else give
      two different 64-byte inputs with one SHA-256. */
  lemma {:induction false} DigestRootsAgreeExactly(hash: Hash, a: seq<seq<Byte>>, b: seq<seq<Byte>>) returns (x: seq<Byte>, y: seq<Byte>)
    requires a != [] && b != [] && CeilLog2(|a|) <= CeilLog2(|b|) && AllOk(Is32(), a) && AllOk(Is32(), b)
    ensures Aligned(JoinBytes(hash), a, b) ==> BytesRoot(hash, a) == BytesRoot(hash, b)
    ensures BytesRoot(hash, a) == BytesRoot(hash, b) && !Aligned(JoinBytes(hash), a, b) ==>
              |x| == |y| == 64 && x != y && hash(x) == hash(y)
  {
    var p, q := RootsAgreeExactly(JoinBytes(hash), Is32(), a, b);
    x, y := p.0 + p.1, q.0 + q.1;
    if BytesRoot(hash, a) == BytesRoot(hash, b) && !Aligned(JoinBytes(hash), a, b) {
      HalvesDiffer(p, q);
    }
  }

  /** The root of no hashes is that of one other list, or there is a collision with the empty input. */
  lemma EmptyRootAgreesExactly(hash: Hash, b: seq<seq<Byte>>) returns (x: seq<Byte>)
    requires b != [] && AllOk(Is32(), b)
    ensures b == [hash([])] ==> BytesRoot(hash, b) == BytesRoot(hash, [])
    ensures BytesRoot(hash, b) == BytesRoot(hash, []) && b != [hash([])] ==> |x| == 64 && hash(x) == hash([])
  {
    x := [];
    if |b| > 1 {
      var k := CeilLog2(|b|) - 1;
      var top := Up(JoinBytes(hash), b, k);
      UpHasSameRoot(JoinBytes(hash), b, k);
      AllOkUp(JoinBytes(hash), Is32(), b, k);
      assert CeilLog2(|top|) == 1;
      TopPair(JoinBytes(hash), top);
      x := top[0] + top[1];
    }
  }

  lemma TopPair<N>(join: (N, N) -> N, top: seq<N>)
    requires top != [] && CeilLog2(|top|) == 1
    ensures |top| == 2 && Root(join, top) == join(top[0], top[1])
  {
    CeilLog2IsLeast(|top|, 1);
    assert Pow2(1) == 2;
    AboveAt(join, top, 0);
  }

  // ---------- the implementation on hex strings ----------

  /** The hash computation on text, as a function of the text alone. */
  function TextHash(hash: Hash): string -> string { (s: string) => HexHash(hash, s) }

  lemma TextHashIs(hash: Hash, s: string)
    ensures TextHash(hash)(s) == Hex(hash(Bytes(s)))
  {}

  function JoinText(h: string -> string): (string, string) -> string { (l: string, r: string) => h(l + r) }

  function JoinHex(hash: Hash): (string, string) -> string { JoinText(TextHash(hash)) }

  /** The leaves of a day: the hex hashes of the audit ids. */
  function IdLeaves(hash: Hash, ids: seq<nat>): (leaves: seq<string>)
    ensures |leaves| == |ids| && forall i :: 0 <= i < |ids| ==> leaves[i] == HexHash(hash, Decimal(ids[i]))
  {
    Each(IdHash(hash), ids)
  }

  function IdHash(hash: Hash): nat -> string { (id: nat) => HexHash(hash, Decimal(id)) }

  function HexRoot(hash: Hash, ids: seq<nat>): string {
    if ids == [] then HexHash(hash, "") else Root(JoinHex(hash), IdLeaves(hash, ids))
  }

  /** The recursive tree over text: a node hashes the text of its halves, the left one first. */
  function TextTree(h: string -> string, leaves: seq<string>, d: nat): string
    requires 0 < |leaves| <= Pow2(d)
    decreases d
  {
    if d == 0 then leaves[0]
    else
      var half := Pow2(d - 1);
      if |leaves| <= half then h(TextTree(h, leaves, d - 1) + TextTree(h, leaves, d - 1))
      else h(TextTree(h, leaves[..half], d - 1) + TextTree(h, leaves[half..], d - 1))
  }

  lemma {:induction false} TextTreeIsTree(h: string -> string, leaves: seq<string>, d: nat)
    requires 0 < |leaves| <= Pow2(d)
    ensures TextTree(h, leaves, d) == Tree(JoinText(h), leaves, d)
    decreases d
  {
    if d > 0 {
      var half := Pow2(d - 1);
      if |leaves| <= half {
        TextTreeIsTree(h, leaves, d - 1);
      } else {
        TextTreeIsTree(h, leaves[..half], d - 1);
        TextTreeIsTree(h, leaves[half..], d - 1);
        TreeOfHalves(JoinText(h), leaves, d);
      }
    }
  }

  function VerifyText(h: string -> string, node: string, i: nat, path: seq<string>): string
    decreases |path|
  {
    if path == [] then node
    else VerifyText(h, if i % 2 == 1 then h(path[0] + node) else h(node + path[0]), i / 2, path[1..])
  }

  lemma {:induction false} VerifyTextIsFold(h: string -> string, node: string, i: nat, path: seq<string>)
    ensures VerifyText(h, node, i, path) == FoldPath(JoinText(h), node, i, path)
    decreases |path|
  {
    if path != [] {
      VerifyTextIsFold(h, if i % 2 == 1 then h(path[0] + node) else h(node + path[0]), i / 2, path[1..]);
    }
  }

  /** The hashing part of computeDailyMerkleRoot: the hash tree over the ids, and every id has a path of
      ceil(log2 n) siblings that rebuilds the root from the hash of its numeral. */
  method HexMerkleRoot(hash: Hash, ids: seq<nat>) returns (root: string)
    ensures root == HexRoot(hash, ids)
    ensures ids == [] ==> root == Hex(hash([]))
    ensures ids != [] ==> |ids| <= Pow2(CeilLog2(|ids|))
    ensures ids != [] ==>
              exists leaves :: |leaves| == |ids| && (forall i :: 0 <= i < |ids| ==> leaves[i] == TextHash(hash)(Decimal(ids[i]))) &&
                               root == TextTree(TextHash(hash), leaves, CeilLog2(|ids|))
    ensures forall i :: 0 <= i < |ids| ==>
              exists path :: |path| == CeilLog2(|ids|) && VerifyText(TextHash(hash), TextHash(hash)(Decimal(ids[i])), i, path) == root
  {
    if ids == [] { return HexHash(hash, ""); }
    var leaves := IdLeaves(hash, ids);
    var rounds, joins;
    root, rounds, joins := MerkleLoop(JoinHex(hash), leaves);
    RootIsTree(JoinHex(hash), leaves);
    TextTreeIsTree(TextHash(hash), leaves, CeilLog2(|ids|));
    forall i | 0 <= i < |ids|
      ensures exists path :: |path| == CeilLog2(|ids|) && VerifyText(TextHash(hash), TextHash(hash)(Decimal(ids[i])), i, path) == root
    {
      PathRebuildsRoot(JoinHex(hash), leaves, i);
      VerifyTextIsFold(TextHash(hash), leaves[i], i, Path(JoinHex(hash), leaves, i));
    }
  }

  function IsHexHash(): string -> bool { (s: string) => |s| == 64 && IsAscii(s) }

  /** Ids of a BIGSERIAL column. */
  const ID_LIMIT: nat := 0x8000_0000_0000_0000

  predicate AreIds(ids: seq<nat>) { forall i :: 0 <= i < |ids| ==> ids[i] < ID_LIMIT }

  function Pow10(k: nat): nat { if k == 0 then 1 else 10 * Pow10(k - 1) }

  lemma {:induction false} DecimalLength(n: nat, k: nat)
    requires k > 0 && n < Pow10(k)
    ensures |Decimal(n)| <= k
  {
    if n >= 10 {
      DecimalLength(n / 10, k - 1);
    }
  }

  lemma IdsAreShort(n: nat)
    requires n < ID_LIMIT
    ensures |Decimal(n)| <= 19
  {
    assert Pow10(7) == 10_000_000;
    assert Pow10(13) == 10_000_000_000_000;
    assert Pow10(19) == 10_000_000_000_000_000_000;
    DecimalLength(n, 19);
  }

  /** A collision of node pairs is one of the strings that were hashed. */
  lemma NodeCollision(hash: Hash, p: (string, string), q: (string, string)) returns (x: seq<Byte>, y: seq<Byte>)
    requires Collides(JoinHex(hash), p, q)
    requires IsHexHash()(p.0) && IsHexHash()(p.1) && IsHexHash()(q.0) && IsHexHash()(q.1)
    ensures x != y && hash(x) == hash(y)
  {
    var s, t := p.0 + p.1, q.0 + q.1;
    assert s[..64] == p.0 && s[64..] == p.1 && t[..64] == q.0 && t[64..] == q.1;
    x, y := HexHashCollision(hash, s, t);
  }

  lemma IdCollision(hash: Hash, a: seq<nat>, b: seq<nat>) returns (x: seq<Byte>, y: seq<Byte>)
    requires |a| == |b| && a != b && IdLeaves(hash, a) == IdLeaves(hash, b)
    ensures x != y && hash(x) == hash(y)
  {
    var i := FirstDifference(a, b);
    assert IdLeaves(hash, a)[i] == IdLeaves(hash, b)[i];
    if Decimal(a[i]) == Decimal(b[i]) { DecimalIsInjective(a[i], b[i]); }
    x, y := HexHashCollision(hash, Decimal(a[i]), Decimal(b[i]));
  }

  /** Two different days of equally many audit ids with one root give a SHA-256 collision. */
  lemma HexRootBinds(hash: Hash, a: seq<nat>, b: seq<nat>) returns (x: seq<Byte>, y: seq<Byte>)
    requires |a| == |b| && a != b && HexRoot(hash, a) == HexRoot(hash, b)
    ensures x != y && hash(x) == hash(y)
  {
    if IdLeaves(hash, a) == IdLeaves(hash, b) {
      x, y := IdCollision(hash, a, b);
    } else {
      var p, q := Collision(JoinHex(hash), IsHexHash(), IdLeaves(hash, a), IdLeaves(hash, b));
      x, y := NodeCollision(hash, p, q);
    }
  }

  // ---------- which id lists share a root ----------

  /** The same ids up to the copies that fill the tree. */
  predicate SameUpToCopies(a: seq<nat>, b: seq<nat>) {
    if a == [] || b == [] then a == b else CeilLog2(|a|) == CeilLog2(|b|) && Padded(a) == Padded(b)
  }

  lemma {:induction false} CopiesShareRoot(hash: Hash, a: seq<nat>, b: seq<nat>)
    requires SameUpToCopies(a, b)
    ensures HexRoot(hash, a) == HexRoot(hash, b)
  {
    if a != [] && b != [] {
      PaddedOfEach(IdHash(hash), a);
      PaddedOfEach(IdHash(hash), b);
      PaddedHasSameRoot(JoinHex(hash), IdLeaves(hash, a));
      PaddedHasSameRoot(JoinHex(hash), IdLeaves(hash, b));
    }
  }

  lemma {:induction false} SameHeightCollision(hash: Hash, a: seq<nat>, b: seq<nat>) returns (x: seq<Byte>, y: seq<Byte>)
    requires a != [] && b != [] && CeilLog2(|a|) == CeilLog2(|b|) && Padded(a) != Padded(b)
    requires HexRoot(hash, a) == HexRoot(hash, b)
    ensures x != y && hash(x) == hash(y)
  {
    PaddedOfEach(IdHash(hash), a);
    PaddedOfEach(IdHash(hash), b);
    if IdLeaves(hash, Padded(a)) == IdLeaves(hash, Padded(b)) {
      x, y := IdCollision(hash, Padded(a), Padded(b));
    } else {
      x, y := TextCollision(hash, IdLeaves(hash, a), IdLeaves(hash, b));
    }
  }

  lemma JoinHexIsHash(hash: Hash)
    ensures forall l, r :: IsHexHash()(JoinHex(hash)(l, r))
  {}

  lemma NodesAreHashes(hash: Hash, leaves: seq<string>, k: nat)
    requires AllOk(IsHexHash(), leaves)
    ensures AllOk(IsHexHash(), Up(JoinHex(hash), leaves, k))
  {
    JoinHexIsHash(hash);
    AllOkUp(JoinHex(hash), IsHexHash(), leaves, k);
  }

  lemma {:induction false} TextCollision(hash: Hash, a: seq<string>, b: seq<string>) returns (x: seq<Byte>, y: seq<Byte>)
    requires a != [] && b != [] && CeilLog2(|a|) == CeilLog2(|b|)
    requires Root(JoinHex(hash), a) == Root(JoinHex(hash), b) && Padded(a) != Padded(b)
    requires AllOk(IsHexHash(), a) && AllOk(IsHexHash(), b)
    ensures x != y && hash(x) == hash(y)
  {
    JoinHexIsHash(hash);
    var p, q := PaddedCollision(JoinHex(hash), IsHexHash(), a, b);
    x, y := NodeCollision(hash, p, q);
  }

  lemma FirstNodeText(hash: Hash, level: seq<string>) returns (s: string)
    requires level != [] && AllOk(IsHexHash(), level)
    ensures |s| == 128 && IsAscii(s) && Above(JoinHex(hash), level)[0] == HexHash(hash, s)
  {
    AboveAt(JoinHex(hash), level, 0);
    var right := if 1 < |level| then level[1] else level[0];
    assert IsHexHash()(level[0]) && IsHexHash()(right);
    s := level[0] + right;
  }

  /** The first node of a higher level is the hash of 128 characters. */
  lemma NodeText(hash: Hash, leaves: seq<string>, k: nat) returns (s: string)
    requires leaves != [] && k > 0 && AllOk(IsHexHash(), leaves)
    ensures Up(JoinHex(hash), leaves, k) != [] && Up(JoinHex(hash), leaves, k)[0] == HexHash(hash, s)
    ensures |s| == 128 && IsAscii(s)
  {
    UpIsNotEmpty(JoinHex(hash), leaves, k - 1);
    NodesAreHashes(hash, leaves, k - 1);
    s := FirstNodeText(hash, Up(JoinHex(hash), leaves, k - 1));
  }

  lemma LeafIsNoNode(hash: Hash, id: nat, text: string) returns (x: seq<Byte>, y: seq<Byte>)
    requires id < ID_LIMIT && |text| == 128 && IsAscii(text)
    ensures HexHash(hash, Decimal(id)) == HexHash(hash, text) ==> x != y && hash(x) == hash(y)
  {
    x, y := [], [];
    IdsAreShort(id);
    if HexHash(hash, Decimal(id)) == HexHash(hash, text) {
      x, y := HexHashCollision(hash, Decimal(id), text);
    }
  }

  lemma HeightsDiffer(hash: Hash, id: nat, a: seq<string>, b: seq<string>, k: nat) returns (x: seq<Byte>, y: seq<Byte>)
    requires a != [] && b != [] && AllOk(IsHexHash(), a) && AllOk(IsHexHash(), b)
    requires k > 0 && CeilLog2(|b|) == CeilLog2(|a|) + k
    requires id < ID_LIMIT
    ensures a[0] == HexHash(hash, Decimal(id)) && Root(JoinHex(hash), a) == Root(JoinHex(hash), b) ==> x != y && hash(x) == hash(y)
  {
    var text := NodeText(hash, b, k);
    x, y := LeafIsNoNode(hash, id, text);
    UpHasSameRoot(JoinHex(hash), b, k);
    NodesAreHashes(hash, b, k);
    if a[0] != HexHash(hash, text) && Root(JoinHex(hash), a) == Root(JoinHex(hash), b) {
      PaddedFirst(a);
      PaddedFirst(Up(JoinHex(hash), b, k));
      x, y := TextCollision(hash, a, Up(JoinHex(hash), b, k));
    }
  }

  /** A leaf is the hash of a short text and an inner node that of a long one, so trees of different heights
      do not share a root. */
  lemma {:induction false} OtherHeightCollision(hash: Hash, a: seq<nat>, b: seq<nat>) returns (x: seq<Byte>, y: seq<Byte>)
    requires a != [] && b != [] && CeilLog2(|a|) < CeilLog2(|b|) && AreIds(a)
    requires HexRoot(hash, a) == HexRoot(hash, b)
    ensures x != y && hash(x) == hash(y)
  {
    x, y := HeightsDiffer(hash, a[0], IdLeaves(hash, a), IdLeaves(hash, b), CeilLog2(|b|) - CeilLog2(|a|));
  }

  lemma EmptyDayCollision(hash: Hash, b: seq<nat>) returns (x: seq<Byte>, y: seq<Byte>)
    requires b != [] && HexRoot(hash, []) == HexRoot(hash, b)
    ensures x != y && hash(x) == hash(y)
  {
    var s := Decimal(b[0]);
    if |b| > 1 {
      UpHasSameRoot(JoinHex(hash), IdLeaves(hash, b), CeilLog2(|b|));
      s := NodeText(hash, IdLeaves(hash, b), CeilLog2(|b|));
    }
    x, y := HexHashCollision(hash, "", s);
  }

  /** For id lists of any two lengths: lists that are the same up to copies share their root, and two lists
      that share it are the same up to copies or give a SHA-256 collision. */
  lemma {:induction false} HexRootsAgreeExactly(hash: Hash, a: seq<nat>, b: seq<nat>) returns (x: seq<Byte>, y: seq<Byte>)
    requires AreIds(a) && AreIds(b)
    ensures SameUpToCopies(a, b) ==> HexRoot(hash, a) == HexRoot(hash, b)
    ensures HexRoot(hash, a) == HexRoot(hash, b) && !SameUpToCopies(a, b) ==> x != y && hash(x) == hash(y)
  {
    x, y := [], [];
    if SameUpToCopies(a, b) {
      CopiesShareRoot(hash, a, b);
    } else if HexRoot(hash, a) == HexRoot(hash, b) {
      if a == [] {
        x, y := EmptyDayCollision(hash, b);
      } else if b == [] {
        x, y := EmptyDayCollision(hash, a);
      } else if CeilLog2(|a|) == CeilLog2(|b|) {
        x, y := SameHeightCollision(hash, a, b);
      } else if CeilLog2(|a|) < CeilLog2(|b|) {
        x, y := OtherHeightCollision(hash, a, b);
      } else {
        x, y := OtherHeightCollision(hash, b, a);
      }
    }
  }
}
