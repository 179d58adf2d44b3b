/** The tree reading of a solution: checking sibling pairs only, level by level,
    amounts to the global definition. */
module EquihashTrees {
  import opened Words
  import opened IndexCodec
  import opened EquihashRows

  ghost predicate Disjoint(s: seq<Index>, t: seq<Index>) {
    forall i, j :: 0 <= i < |s| && 0 <= j < |t| ==> s[i] != t[j]
  }

  /** What one sibling pair is checked for. */
  ghost predicate SiblingsOk(env: Env, l: seq<Index>, r: seq<Index>, lo: nat, hi: nat)
    requires env.Ok() && lo <= hi <= env.p.hashLength && |l| == |r|
  {
    Disjoint(l, r) && MemLess(l, r) && XorOf(env, l)[lo..hi] == XorOf(env, r)[lo..hi]
  }

  /** A subtree of height r, every node of which passed the sibling checks. */
  ghost predicate TreeOk(env: Env, idx: seq<Index>, r: nat)
    requires env.Ok()
    decreases r
  {
    && |idx| == Pow2(r) && Off(env, r) <= env.p.hashLength
    && (r > 0 ==>
        && TreeOk(env, idx[..Pow2(r - 1)], r - 1)
        && TreeOk(env, idx[Pow2(r - 1)..], r - 1)
        && SiblingsOk(env, idx[..Pow2(r - 1)], idx[Pow2(r - 1)..], Off(env, r - 1), Off(env, r)))
  }

  // --- Xor ------------------------------------------------------------------------

  lemma {:induction false} XorAssoc(a: seq<bv8>, b: seq<bv8>, c: seq<bv8>)
    requires |a| == |b| == |c|
    ensures XorBytes(a, XorBytes(b, c)) == XorBytes(XorBytes(a, b), c)
  {}

  lemma {:induction false} XorComm(a: seq<bv8>, b: seq<bv8>)
    requires |a| == |b|
    ensures XorBytes(a, b) == XorBytes(b, a)
  {}

  lemma {:induction false} XorWithZero(z: seq<bv8>, x: seq<bv8>)
    requires |z| == |x| && AllZero(z)
    ensures XorBytes(z, x) == x
  {
    forall i | 0 <= i < |x| ensures XorBytes(z, x)[i] == x[i] { XorByte(z[i], x[i]); }
  }

  lemma {:induction false} XorByte(u: bv8, v: bv8)
    ensures u ^ v == 0 <==> u == v
    ensures u == 0 ==> u ^ v == v
  {}

  lemma {:induction false} XorConcat(env: Env, s: seq<Index>, t: seq<Index>)
    requires env.Ok()
    ensures XorOf(env, s + t) == XorBytes(XorOf(env, s), XorOf(env, t))
  {
    hide Leaf;
    if s == [] {
      assert s + t == t;
      XorWithZero(XorOf(env, s), XorOf(env, t));
    } else {
      XorConcat(env, s[1..], t);
      assert (s + t)[1..] == s[1..] + t;
      XorAssoc(Leaf(env, s[0]), XorOf(env, s[1..]), XorOf(env, t));
    }
  }

  lemma {:induction false} ZeroXorIsEqual(a: seq<bv8>, b: seq<bv8>, lo: nat, hi: nat)
    requires lo <= hi <= |a| == |b|
    ensures AllZero(XorBytes(a, b)[lo..hi]) <==> a[lo..hi] == b[lo..hi]
  {
    var x := XorBytes(a, b);
    if AllZero(x[lo..hi]) {
      forall i | lo <= i < hi ensures a[i] == b[i] {
        assert x[lo..hi][i - lo] == 0;
        XorByte(a[i], b[i]);
      }
    }
    if a[lo..hi] == b[lo..hi] {
      forall i | 0 <= i < hi - lo ensures x[lo..hi][i] == 0 {
        assert a[lo..hi][i] == b[lo..hi][i];
        XorByte(a[lo + i], b[lo + i]);
      }
    }
  }

  lemma {:induction false} OffIsProduct(env: Env, r: nat)
    ensures Off(env, r) == r * env.c
  {
    if r > 0 { OffIsProduct(env, r - 1); MulSucc(r - 1, env.c); }
  }

  /** Exactly one collision step of hash is left at the root. */
  lemma {:induction false} OffAtRoot(env: Env)
    ensures Off(env, env.p.k + 1) == env.p.hashLength
    ensures Off(env, env.p.k) + env.c == env.p.hashLength
  {
    OffIsProduct(env, env.p.k + 1);
  }

  lemma {:induction false} OffMonotone(env: Env, r: nat, s: nat)
    requires r <= s
    ensures Off(env, r) <= Off(env, s)
  {
    if r < s { OffMonotone(env, r, s - 1); }
  }

  lemma {:induction false} P2Monotone(r: nat, s: nat)
    requires r <= s
    ensures Pow2(r) <= Pow2(s)
  {
    if r < s { P2Monotone(r, s - 1); }
  }

  // --- What a checked tree implies ---------------------------------------------------

  lemma {:induction false} LeafTree(env: Env, idx: seq<Index>)
    requires env.Ok()
    ensures TreeOk(env, idx, 0) <==> |idx| == 1
    ensures Off(env, 0) == 0
  {}

  lemma {:induction false} TreeHalves(env: Env, idx: seq<Index>, r: nat)
    requires env.Ok() && TreeOk(env, idx, r) && r > 0
    ensures |idx| == Pow2(r) == 2 * Pow2(r - 1)
    ensures Off(env, r - 1) <= Off(env, r) <= env.p.hashLength
    ensures TreeOk(env, idx[..Pow2(r - 1)], r - 1) && TreeOk(env, idx[Pow2(r - 1)..], r - 1)
    ensures SiblingsOk(env, idx[..Pow2(r - 1)], idx[Pow2(r - 1)..], Off(env, r - 1), Off(env, r))
  {}

  /** Sibling checks accumulate: a checked subtree cancels on all its levels and
      has no repeated index anywhere. */
  lemma {:induction false} TreeZero(env: Env, idx: seq<Index>, r: nat)
    requires env.Ok() && TreeOk(env, idx, r)
    ensures AllZero(XorOf(env, idx)[..Off(env, r)])
    ensures Distinct(idx)
  {
    hide TreeOk, XorOf, MemLess, XorBytes;
    if r == 0 {
      LeafTree(env, idx);
    } else {
      TreeHalves(env, idx, r);
      var l, t := idx[..Pow2(r - 1)], idx[Pow2(r - 1)..];
      TreeZero(env, l, r - 1);
      TreeZero(env, t, r - 1);
      assert idx == l + t;
      XorConcat(env, l, t);
      ZeroHalves(XorOf(env, l), XorOf(env, t), Off(env, r - 1), Off(env, r));
      DistinctHalves(l, t);
    }
  }

  lemma {:induction false} ZeroHalves(a: seq<bv8>, b: seq<bv8>, lo: nat, hi: nat)
    requires lo <= hi <= |a| == |b|
    requires AllZero(a[..lo]) && AllZero(b[..lo]) && a[lo..hi] == b[lo..hi]
    ensures AllZero(XorBytes(a, b)[..hi])
  {
    assert a[..hi] == a[..lo] + a[lo..hi];
    assert b[..hi] == b[..lo] + b[lo..hi];
    assert a[..lo] == b[..lo];
    assert a[0..hi] == a[..hi] && b[0..hi] == b[..hi];
    ZeroXorIsEqual(a, b, 0, hi);
    assert XorBytes(a, b)[0..hi] == XorBytes(a, b)[..hi];
  }

  lemma {:induction false} DistinctHalves(l: seq<Index>, t: seq<Index>)
    ensures Distinct(l + t) <==> Distinct(l) && Distinct(t) && Disjoint(l, t)
  {
    var idx := l + t;
    if Distinct(idx) {
      forall i, j | 0 <= i < |l| && 0 <= j < |t| ensures l[i] != t[j] {
        assert idx[i] == l[i] && idx[|l| + j] == t[j];
      }
      forall i, j | 0 <= i < j < |t| ensures t[i] != t[j] {
        assert idx[|l| + i] == t[i] && idx[|l| + j] == t[j];
      }
      forall i, j | 0 <= i < j < |l| ensures l[i] != l[j] {
        assert idx[i] == l[i] && idx[j] == l[j];
      }
    }
  }

  // --- Aligned blocks -------------------------------------------------------------------

  lemma {:induction false} PowerAligned(r: nat, s: nat)
    requires r <= s
    ensures Aligned(Pow2(s), r)
  {
    if r > 0 { PowerAligned(r - 1, s - 1); }
  }

  lemma {:induction false} AlignedShift(a: nat, b: nat, r: nat)
    requires Aligned(b, r)
    ensures Aligned(a + b, r) <==> Aligned(a, r)
  {
    if r > 0 && a % 2 == 0 {
      assert (a + b) / 2 == a / 2 + b / 2;
      AlignedShift(a / 2, b / 2, r - 1);
    }
  }

  /** An aligned block starting before an aligned boundary ends by it. */
  lemma {:induction false} NoStraddle(a: nat, b: nat, r: nat)
    requires Aligned(a, r) && Aligned(b, r) && a < b
    ensures a + Pow2(r) <= b
  {
    if r > 0 { NoStraddle(a / 2, b / 2, r - 1); }
  }

  lemma {:induction false} TreeBlock(env: Env, idx: seq<Index>, r: nat)
    requires env.Ok() && TreeOk(env, idx, r) && r > 0
    ensures BlockOk(env, idx, r)
  {
    hide XorOf, MemLess, TreeOk, Off;
    TreeZero(env, idx, r);
    TreeHalves(env, idx, r);
  }

  lemma {:induction false} TreeBlocks(env: Env, idx: seq<Index>, height: nat, r: nat, a: nat)
    requires env.Ok() && TreeOk(env, idx, height)
    requires 1 <= r <= height && Aligned(a, r) && a + Pow2(r) <= |idx|
    ensures BlockOk(env, idx[a..a + Pow2(r)], r)
    decreases height
  {
    hide XorOf, MemLess, TreeOk, BlockOk, Off, SiblingsOk;
    TreeHalves(env, idx, height);
    if r == height {
      assert a == 0 && idx[0..|idx|] == idx;
      TreeBlock(env, idx, r);
    } else {
      var h := Pow2(height - 1);
      PowerAligned(r, height - 1);
      if a < h {
        NoStraddle(a, h, r);
        TreeBlocks(env, idx[..h], height - 1, r, a);
        assert idx[..h][a..a + Pow2(r)] == idx[a..a + Pow2(r)];
      } else {
        AlignedShift(a - h, h, r);
        TreeBlocks(env, idx[h..], height - 1, r, a - h);
        assert idx[h..][a - h..a - h + Pow2(r)] == idx[a..a + Pow2(r)];
      }
    }
  }

  ghost predicate BlocksOk(env: Env, idx: seq<Index>, height: nat)
    requires env.Ok()
  {
    forall r: nat, a: nat :: 1 <= r <= height && Aligned(a, r) && a + Pow2(r) <= |idx| ==>
      BlockOk(env, idx[a..a + Pow2(r)], r)
  }

  lemma {:induction false} BlocksTree(env: Env, idx: seq<Index>, height: nat)
    requires env.Ok() && |idx| == Pow2(height) && Off(env, height) <= env.p.hashLength
    requires Distinct(idx) && BlocksOk(env, idx, height)
    ensures TreeOk(env, idx, height)
  {
    if height > 0 {
      var h := Pow2(height - 1);
      var l, t := idx[..h], idx[h..];
      assert idx == l + t;
      DistinctHalves(l, t);
      HalfBlocks(env, idx, height);
      BlocksTree(env, l, height - 1);
      BlocksTree(env, t, height - 1);
      RootSiblings(env, idx, height);
    }
  }

  lemma {:induction false} HalfBlocks(env: Env, idx: seq<Index>, height: nat)
    requires env.Ok() && height > 0 && |idx| == Pow2(height) && BlocksOk(env, idx, height)
    ensures BlocksOk(env, idx[..Pow2(height - 1)], height - 1)
    ensures BlocksOk(env, idx[Pow2(height - 1)..], height - 1)
  {
    hide BlockOk;
    var h := Pow2(height - 1);
    var l, t := idx[..h], idx[h..];
    forall r: nat, a: nat | 1 <= r <= height - 1 && Aligned(a, r) && a + Pow2(r) <= h
      ensures BlockOk(env, l[a..a + Pow2(r)], r) && BlockOk(env, t[a..a + Pow2(r)], r)
    {
      PowerAligned(r, height - 1);
      AlignedShift(a, h, r);
      assert l[a..a + Pow2(r)] == idx[a..a + Pow2(r)];
      assert t[a..a + Pow2(r)] == idx[a + h..a + h + Pow2(r)];
    }
  }

  lemma {:induction false} RootSiblings(env: Env, idx: seq<Index>, height: nat)
    requires env.Ok() && height > 0 && |idx| == Pow2(height) && Off(env, height) <= env.p.hashLength
    requires Distinct(idx) && BlocksOk(env, idx, height)
    ensures SiblingsOk(env, idx[..Pow2(height - 1)], idx[Pow2(height - 1)..], Off(env, height - 1), Off(env, height))
  {
    hide XorOf, MemLess;
    var h := Pow2(height - 1);
    var l, t := idx[..h], idx[h..];
    assert idx == l + t;
    DistinctHalves(l, t);
    AlignedZero(height);
    assert idx[0..0 + Pow2(height)] == idx;
    assert BlockOk(env, idx, height);
    XorConcat(env, l, t);
    var x, hi := XorBytes(XorOf(env, l), XorOf(env, t)), Off(env, height);
    assert AllZero(x[..hi]);
    assert x[0..hi] == x[..hi];
    ZeroXorIsEqual(XorOf(env, l), XorOf(env, t), 0, hi);
    SameTail(XorOf(env, l), XorOf(env, t), Off(env, height - 1), hi);
  }

  lemma {:induction false} SameTail(a: seq<bv8>, b: seq<bv8>, lo: nat, hi: nat)
    requires lo <= hi <= |a| == |b| && a[0..hi] == b[0..hi]
    ensures a[lo..hi] == b[lo..hi]
  {
    assert a[lo..hi] == a[0..hi][lo..];
    assert b[lo..hi] == b[0..hi][lo..];
  }

  lemma {:induction false} AlignedZero(r: nat)
    ensures Aligned(0, r)
  {
    if r > 0 { AlignedZero(r - 1); }
  }

  /** Sibling checks on every level plus the zero test at the root are exactly the
      global definition; in particular sibling-only distinctness is global. */
  lemma {:induction false} TreeIsSolution(env: Env, idx: seq<Index>)
    requires env.Ok()
    ensures Solution(env, idx)
        <==> TreeOk(env, idx, env.p.k) && AllZero(XorOf(env, idx)[Off(env, env.p.k)..])
  {
    hide XorOf, MemLess, Aligned;
    var k, x := env.p.k, XorOf(env, idx);
    OffAtRoot(env);
    if Solution(env, idx) {
      BlocksTree(env, idx, k);
    }
    if TreeOk(env, idx, k) && AllZero(x[Off(env, k)..]) {
      TreeZero(env, idx, k);
      ZeroParts(x, Off(env, k));
      forall r: nat, a: nat | 1 <= r <= k && Aligned(a, r) && a + Pow2(r) <= |idx|
        ensures BlockOk(env, idx[a..a + Pow2(r)], r)
      {
        TreeBlocks(env, idx, k, r, a);
      }
    }
  }

  lemma {:induction false} ZeroParts(x: seq<bv8>, n: nat)
    requires n <= |x| && AllZero(x[..n]) && AllZero(x[n..])
    ensures AllZero(x)
  {
    forall i | 0 <= i < |x| ensures x[i] == 0 {
      if i < n { assert x[..n][i] == 0; } else { assert x[n..][i - n] == 0; }
    }
  }

  // --- Rows of checked subtrees -------------------------------------------------------

  /** The row that stands for a subtree of height r. */
  function RowOf(env: Env, idx: seq<Index>, r: nat): Row
    requires env.Ok() && Off(env, r) <= env.p.hashLength
  {
    Row(XorOf(env, idx)[Off(env, r)..], idx)
  }

  lemma {:induction false} OffFits(env: Env, r: nat)
    requires r <= env.p.k
    ensures Off(env, r) + env.c <= env.p.hashLength
  {
    OffAtRoot(env);
    OffMonotone(env, r, env.p.k);
  }

  /** Two colliding rows without a common index merge into the row of the joined
      subtree, whichever of them comes first. */
  lemma {:induction false} MergeIsTree(env: Env, l: seq<Index>, t: seq<Index>, r: nat)
    requires env.Ok() && r < env.p.k && TreeOk(env, l, r) && TreeOk(env, t, r)
    ensures Off(env, r) + env.c == Off(env, r + 1) <= env.p.hashLength
    ensures var a, b := RowOf(env, l, r), RowOf(env, t, r);
      HasCollision(a, b, env.c) && DistinctIndices(a, b) ==>
        var idx := if MemLess(l, t) then l + t else t + l;
        TreeOk(env, idx, r + 1) && Merge(a, b, env.c) == RowOf(env, idx, r + 1)
  {
    hide XorOf, TreeOk, Disjoint, MemLess, Flat;
    OffFits(env, r);
    OffFits(env, r + 1);
    TreeSize(env, l, r); TreeSize(env, t, r);
    var a, b := RowOf(env, l, r), RowOf(env, t, r);
    if HasCollision(a, b, env.c) && DistinctIndices(a, b) {
      DifferentLists(l, t);
      MemLessTotal(l, t);
      CollisionStep(XorOf(env, l), XorOf(env, t), Off(env, r), env.c);
      if MemLess(l, t) {
        JoinTrees(env, l, t, r);
      } else {
        FlipDisjoint(l, t);
        JoinTrees(env, t, l, r);
      }
      MergedRow(env, l, t, r);
    }
  }

  lemma {:induction false} MergedRow(env: Env, l: seq<Index>, t: seq<Index>, r: nat)
    requires env.Ok() && |l| == |t| && Off(env, r + 1) <= env.p.hashLength
    ensures Off(env, r) + env.c == Off(env, r + 1)
    ensures Merge(RowOf(env, l, r), RowOf(env, t, r), env.c) ==
         RowOf(env, if MemLess(l, t) then l + t else t + l, r + 1)
  {
    hide XorOf, MemLess, Flat;
    MemLessFlat(l, t);
    XorConcat(env, l, t);
    XorConcat(env, t, l);
    XorComm(XorOf(env, l), XorOf(env, t));
    CollisionStep(XorOf(env, l), XorOf(env, t), Off(env, r), env.c);
  }

  lemma {:induction false} TreeSize(env: Env, idx: seq<Index>, r: nat)
    requires env.Ok() && TreeOk(env, idx, r)
    ensures |idx| == Pow2(r)
  {}

  lemma {:induction false} FlipDisjoint(l: seq<Index>, t: seq<Index>)
    requires DistinctIndices(Row([], l), Row([], t))
    ensures Disjoint(l, t) && Disjoint(t, l)
  {}

  lemma {:induction false} DifferentLists(l: seq<Index>, t: seq<Index>)
    requires |l| > 0 && DistinctIndices(Row([], l), Row([], t))
    ensures l != t && Disjoint(l, t)
  {
    if |t| > 0 { assert Row([], l).indices[0] != Row([], t).indices[0]; }
  }

  /** Trimming the collision off the xor of two hash tails. */
  lemma {:induction false} CollisionStep(x: seq<bv8>, y: seq<bv8>, off: nat, c: nat)
    requires |x| == |y| && off + c <= |x|
    ensures x[off..][..c] == x[off..off + c] && y[off..][..c] == y[off..off + c]
    ensures XorBytes(x[off..], y[off..])[c..] == XorBytes(x, y)[off + c..]
  {}

  lemma {:induction false} JoinTrees(env: Env, l: seq<Index>, t: seq<Index>, r: nat)
    requires env.Ok() && TreeOk(env, l, r) && TreeOk(env, t, r) && |l| == |t| == Pow2(r)
    requires Off(env, r + 1) <= env.p.hashLength
    requires SiblingsOk(env, l, t, Off(env, r), Off(env, r + 1))
    ensures TreeOk(env, l + t, r + 1)
  {
    hide XorOf, Disjoint, MemLess;
    assert (l + t)[..Pow2(r)] == l && (l + t)[Pow2(r)..] == t;
  }

  /** The three checks on a sibling pair hold exactly when the joined subtree is a
      checked tree, and then merging gives its row. */
  lemma {:induction false} PairStep(env: Env, l: seq<Index>, t: seq<Index>, r: nat)
    requires env.Ok() && r < env.p.k && TreeOk(env, l, r) && TreeOk(env, t, r)
    ensures |l| == |t| == Pow2(r)
    ensures Off(env, r) + env.c == Off(env, r + 1) <= env.p.hashLength
    ensures var a, b := RowOf(env, l, r), RowOf(env, t, r);
      && (HasCollision(a, b, env.c) && !IndicesBefore(b, a) && DistinctIndices(a, b)
          <==> TreeOk(env, l + t, r + 1))
      && (TreeOk(env, l + t, r + 1) ==> Merge(a, b, env.c) == RowOf(env, l + t, r + 1))
  {
    hide XorOf, TreeOk, Disjoint, MemLess, Flat;
    OffFits(env, r);
    OffFits(env, r + 1);
    TreeSize(env, l, r); TreeSize(env, t, r);
    MergeIsTree(env, l, t, r);
    MemLessFlat(l, t);
    MemLessFlat(t, l);
    MemLessTotal(l, t);
    CollisionStep(XorOf(env, l), XorOf(env, t), Off(env, r), env.c);
    if TreeOk(env, l + t, r + 1) {
      TreeHalves(env, l + t, r + 1);
      assert (l + t)[..Pow2(r)] == l && (l + t)[Pow2(r)..] == t;
      assert SiblingsOk(env, l, t, Off(env, r), Off(env, r + 1));
      DisjointRows(l, t);
    } else if DistinctIndices(RowOf(env, l, r), RowOf(env, t, r)) {
      DifferentLists(l, t);
    }
  }

  lemma {:induction false} DisjointRows(l: seq<Index>, t: seq<Index>)
    requires Disjoint(l, t)
    ensures DistinctIndices(Row([], l), Row([], t))
  {}
}
