/** Equihash::BasicSolve of src/equihash.cpp: what it offers to validBlock. */
module EquihashSolver {
  import opened Words
  import opened Packing
  import opened IndexCodec
  import opened EquihashRows
  import opened EquihashTrees
  import opened EquihashValidator
  import opened EquihashMerges
  import opened EquihashRound

  // --- What a table holds ---------------------------------------------------------------

  function InitSize(env: Env): nat { Pow2(env.p.collisionBitLength + 1) }

  ghost predicate BelowSize(env: Env, idx: seq<Index>) {
    forall i :: 0 <= i < |idx| ==> idx[i] < InitSize(env)
  }

  /** A checked subtree of height r over the generated leaves. */
  ghost predicate Subtree(env: Env, idx: seq<Index>, r: nat)
    requires env.Ok()
  {
    TreeOk(env, idx, r) && BelowSize(env, idx)
  }

  ghost predicate RowStands(env: Env, row: Row, r: nat)
    requires env.Ok() && Off(env, r) <= env.p.hashLength
  {
    Subtree(env, row.indices, r) && row == RowOf(env, row.indices, r)
  }

  /** The table after r rounds holds the rows of exactly the checked subtrees of
      height r. */
  ghost predicate Full(env: Env, X: seq<Row>, r: nat)
    requires env.Ok() && Off(env, r) <= env.p.hashLength
  {
    && (forall i :: 0 <= i < |X| ==> RowStands(env, X[i], r))
    && (forall idx: seq<Index> :: Subtree(env, idx, r) ==> RowOf(env, idx, r) in X)
  }

  lemma {:induction false} BelowConcat(env: Env, s: seq<Index>, t: seq<Index>)
    ensures BelowSize(env, s + t) <==> BelowSize(env, s) && BelowSize(env, t)
  {
    if BelowSize(env, s + t) {
      forall i | 0 <= i < |s| ensures s[i] < InitSize(env) { assert (s + t)[i] == s[i]; }
      forall i | 0 <= i < |t| ensures t[i] < InitSize(env) { assert (s + t)[|s| + i] == t[i]; }
    }
  }

  /** Matching rows of subtrees merge into the row of a subtree. */
  lemma {:induction false} MergeStands(env: Env, a: Row, b: Row, r: nat)
    requires env.Ok() && r < env.p.k && Off(env, r) <= env.p.hashLength
    requires RowStands(env, a, r) && RowStands(env, b, r) && Match(a, b, env.c)
    ensures Off(env, r + 1) <= env.p.hashLength && RowStands(env, Merge(a, b, env.c), r + 1)
  {
    hide TreeOk, MemLess, XorOf, Merge, BelowSize, HasCollision, DistinctIndices, Flat;
    MergeIsTree(env, a.indices, b.indices, r);
    BelowConcat(env, a.indices, b.indices);
    BelowConcat(env, b.indices, a.indices);
  }

  /** a and b are the rows of the halves of idx, and merge into its row. */
  ghost predicate Halves(env: Env, a: Row, b: Row, idx: seq<Index>, r: nat)
    requires env.Ok() && Off(env, r + 1) <= env.p.hashLength
  {
    && a.indices + b.indices == idx
    && Match(a, b, env.c) && Match(b, a, env.c) && !IndicesBefore(b, a)
    && Merge(a, b, env.c) == Merge(b, a, env.c) == RowOf(env, idx, r + 1)
  }

  /** Every subtree of height r+1 is the merge of the rows of its halves. */
  lemma {:induction false} SubtreeSplits(env: Env, idx: seq<Index>, r: nat) returns (l: seq<Index>, t: seq<Index>)
    requires env.Ok() && r < env.p.k && Subtree(env, idx, r + 1)
    ensures Off(env, r) <= env.p.hashLength && Off(env, r + 1) <= env.p.hashLength
    ensures Subtree(env, l, r) && Subtree(env, t, r) && l != t
    ensures Halves(env, RowOf(env, l, r), RowOf(env, t, r), idx, r)
  {
    hide TreeOk, MemLess, XorOf, Merge, BelowSize, HasCollision, DistinctIndices, Flat;
    TreeHalves(env, idx, r + 1);
    OffFits(env, r);
    l, t := idx[..Pow2(r)], idx[Pow2(r)..];
    assert idx == l + t;
    BelowConcat(env, l, t);
    PairStep(env, l, t, r);
    RowShapes(env, l, t, r);
    var a, b := RowOf(env, l, r), RowOf(env, t, r);
    RowIndices(env, l, t, r);
    DifferentLists(l, t);
    MatchSymmetric(a, b, env.c);
    MergeSymmetric(a, b, env.c);
  }

  lemma {:induction false} RowIndices(env: Env, l: seq<Index>, t: seq<Index>, r: nat)
    requires env.Ok() && Off(env, r) <= env.p.hashLength
    ensures DistinctIndices(RowOf(env, l, r), RowOf(env, t, r)) <==> DistinctIndices(Row([], l), Row([], t))
  {}

  /** A round takes the full table of one height to the full table of the next. */
  lemma {:induction false} RoundFull(env: Env, X: seq<Row>, X': seq<Row>, r: nat)
    requires env.Ok() && r < env.p.k && Off(env, r) <= env.p.hashLength && Full(env, X, r)
    requires multiset(X') == AllMerges(X, env.c)
    ensures Off(env, r + 1) <= env.p.hashLength && Full(env, X', r + 1)
  {
    hide RowStands, Subtree, RowOf, AllMerges, Merge, Match, Off;
    OffFits(env, r + 1);
    forall i | 0 <= i < |X'| ensures RowStands(env, X'[i], r + 1) {
      assert X'[i] in multiset(X');
      var a, b := MergeWitness(X, env.c, X'[i]);
      MergeStands(env, X[a], X[b], r);
    }
    var s := r + 1;
    forall idx: seq<Index> | Subtree(env, idx, s) ensures RowOf(env, idx, s) in X' {
      RoundFinds(env, X, idx, r);
      assert RowOf(env, idx, s) in multiset(X');
    }
  }

  lemma {:induction false} RoundFinds(env: Env, X: seq<Row>, idx: seq<Index>, r: nat)
    requires env.Ok() && r < env.p.k && Off(env, r) <= env.p.hashLength && Full(env, X, r)
    requires Subtree(env, idx, r + 1)
    ensures Off(env, r + 1) <= env.p.hashLength && RowOf(env, idx, r + 1) in AllMerges(X, env.c)
  {
    hide RowStands, Subtree, AllMerges, Merge, Match, Off, RowOf;
    var i, j := SubtreeRows(env, X, idx, r);
    if i < j { MergeIncluded(X, i, j, env.c); } else { MergeIncluded(X, j, i, env.c); }
  }

  /** Two different positions of the table hold the halves of a subtree. */
  lemma {:induction false} SubtreeRows(env: Env, X: seq<Row>, idx: seq<Index>, r: nat) returns (i: nat, j: nat)
    requires env.Ok() && r < env.p.k && Off(env, r) <= env.p.hashLength && Full(env, X, r)
    requires Subtree(env, idx, r + 1)
    ensures Off(env, r + 1) <= env.p.hashLength
    ensures i < |X| && j < |X| && i != j && Halves(env, X[i], X[j], idx, r)
  {
    hide Full, Subtree, Halves, Off, RowOf;
    var l, t := SubtreeSplits(env, idx, r);
    i := RowPosition(env, X, l, r);
    j := RowPosition(env, X, t, r);
    RowsDiffer(env, l, t, r);
  }

  lemma {:induction false} RowPosition(env: Env, X: seq<Row>, idx: seq<Index>, r: nat) returns (i: nat)
    requires env.Ok() && Off(env, r) <= env.p.hashLength && Full(env, X, r) && Subtree(env, idx, r)
    ensures i < |X| && X[i] == RowOf(env, idx, r)
  {
    hide RowStands, Subtree, RowOf, Off;
    assert RowOf(env, idx, r) in X;
    i :| 0 <= i < |X| && X[i] == RowOf(env, idx, r);
  }

  lemma {:induction false} RowsDiffer(env: Env, l: seq<Index>, t: seq<Index>, r: nat)
    requires env.Ok() && Off(env, r) <= env.p.hashLength && l != t
    ensures RowOf(env, l, r) != RowOf(env, t, r)
  {}

  lemma {:induction false} FullUniform(env: Env, X: seq<Row>, r: nat)
    requires env.Ok() && Off(env, r) <= env.p.hashLength && Full(env, X, r)
    ensures Uniform(X, env.p.hashLength - Off(env, r), Pow2(r))
  {
    hide BelowSize, Off;
    forall i | 0 <= i < |X|
      ensures |X[i].hash| == env.p.hashLength - Off(env, r) && |X[i].indices| == Pow2(r)
    {
      assert RowStands(env, X[i], r);
    }
  }

  // --- The first list ------------------------------------------------------------------------

  lemma {:induction false} InitSizeFits(env: Env)
    requires env.p.Supported()
    ensures InitSize(env) <= WORD32
    ensures InitSize(env) == Mask(env.p.collisionBitLength + 1) + 1
  {
    P2IsMask(env.p.collisionBitLength + 1);
    P2IsMask(32);
    P2Monotone(env.p.collisionBitLength + 1, 32);
    Mask32();
  }

  lemma {:induction false} P2IsMask(n: nat)
    ensures Pow2(n) == Mask(n) + 1
  {
    if n > 0 { P2IsMask(n - 1); }
  }

  /** Step 1: the leaves in order of their index. */
  method GenerateList(env: Env) returns (X: seq<Row>)
    requires env.Ok()
    ensures |X| == InitSize(env) <= WORD32
    ensures forall i :: 0 <= i < |X| ==> X[i] == Row(Leaf(env, i), [i])
  {
    hide Leaf, LeafAt, InitSize, Pow2;
    InitSizeFits(env);
    PerHashPositive(env.p.n);
    var initSize := InitSize(env);
    X := [];
    var g := 0;
    while |X| < initSize
      invariant |X| <= initSize && |X| <= g * env.perHash && (|X| < initSize ==> |X| == g * env.perHash)
      invariant forall i :: 0 <= i < |X| ==> X[i] == Row(Leaf(env, i), [i])
      decreases initSize - |X|
    {
      X := OneHash(env, g, X, initSize);
      MulSucc(g, env.perHash);
      g := g + 1;
    }
  }

  /** The rows cut from one hash output. */
  method OneHash(env: Env, g: nat, X0: seq<Row>, initSize: nat) returns (X: seq<Row>)
    requires env.Ok() && |X0| < initSize <= WORD32 && |X0| == g * env.perHash
    requires forall i :: 0 <= i < |X0| ==> X0[i] == Row(Leaf(env, i), [i])
    ensures |X0| < |X| <= initSize && |X| <= |X0| + env.perHash
    ensures |X| < initSize ==> |X| == |X0| + env.perHash
    ensures forall i :: 0 <= i < |X| ==> X[i] == Row(Leaf(env, i), [i])
  {
    hide Leaf, LeafAt;
    PerHashPositive(env.p.n);
    var tmpHash := env.generate(g);
    X := X0;
    var i := 0;
    while i < env.perHash && |X| < initSize
      invariant 0 <= i <= env.perHash && |X| == |X0| + i <= initSize
      invariant forall q :: 0 <= q < |X| ==> X[q] == Row(Leaf(env, q), [q])
    {
      LeafOfSlot(env, g, i);
      X := X + [Row(LeafAt(env, tmpHash, i), [|X|])];
      i := i + 1;
    }
  }

  lemma {:induction false} LeafOfSlot(env: Env, g: nat, i: nat)
    requires env.Ok() && i < env.perHash
    ensures Leaf(env, g * env.perHash + i) == LeafAt(env, env.generate(g), i)
  {
    hide LeafAt;
    assert env.perHash * g == g * env.perHash;
    RemainderUnique(g * env.perHash + i, env.perHash, g, i);
  }

  lemma {:induction false} FirstListFull(env: Env, X: seq<Row>)
    requires env.Ok() && |X| == InitSize(env) <= WORD32
    requires forall i :: 0 <= i < |X| ==> X[i] == Row(Leaf(env, i), [i])
    ensures Off(env, 0) <= env.p.hashLength && Full(env, X, 0)
  {
    hide Leaf, TreeOk, InitSize, RowOf;
    forall i | 0 <= i < |X| ensures RowStands(env, X[i], 0) {
      LeafRow(env, i);
    }
    forall idx: seq<Index> | Subtree(env, idx, 0) ensures RowOf(env, idx, 0) in X {
      LeafTree(env, idx);
      LeafRow(env, idx[0]);
      assert idx == [idx[0]];
      assert X[idx[0]] in X;
    }
  }

  // --- The last collision ----------------------------------------------------------------------

  /** Two rows of the last table that agree on all the hash left. */
  lemma {:induction false} FinalSound(env: Env, a: Row, b: Row)
    requires env.Ok() && Off(env, env.last) <= env.p.hashLength
    requires RowStands(env, a, env.last) && RowStands(env, b, env.last)
    requires Match(a, b, |a.hash|)
    ensures var idx := Merge(a, b, 0).indices; Solution(env, idx) && BelowSize(env, idx)
  {
    hide TreeOk, BelowSize, XorOf, Solution, DistinctIndices, HasCollision, Off, Merge;
    var k := env.p.k;
    OffAtRoot(env);
    OffFits(env, k - 1);
    FullMatch(a, b, env.c);
    MergeStands(env, a, b, k - 1);
    MergeParts(a, b, env.c);
    TreeIsSolution(env, Merge(a, b, 0).indices);
  }

  lemma {:induction false} MergeParts(a: Row, b: Row, c: nat)
    requires c <= |a.hash| == |b.hash| && |a.indices| == |b.indices|
    ensures Merge(a, b, c).indices == Merge(a, b, 0).indices
    ensures Merge(a, b, c).hash == XorBytes(a.hash, b.hash)[c..]
  {}

  lemma {:induction false} FullMatch(a: Row, b: Row, c: nat)
    requires c <= |a.hash| == |b.hash|
    ensures Match(a, b, |a.hash|) <==> Match(a, b, c) && AllZero(XorBytes(a.hash, b.hash)[c..])
  {
    hide DistinctIndices;
    hide XorBytes;
    FullPrefix(a.hash, b.hash, c);
  }

  lemma {:induction false} FullPrefix(a: seq<bv8>, b: seq<bv8>, c: nat)
    requires c <= |a| == |b|
    ensures a[..|a|] == b[..|a|] <==> a[..c] == b[..c] && AllZero(XorBytes(a, b)[c..])
  {
    var n := |a|;
    assert XorBytes(a, b)[c..n] == XorBytes(a, b)[c..];
    ZeroXorIsEqual(a, b, c, n);
    assert a[..n] == a[..c] + a[c..n] && b[..n] == b[..c] + b[c..n];
    assert a[..c] == a[..n][..c] && a[c..n] == a[..n][c..];
    assert b[..c] == b[..n][..c] && b[c..n] == b[..n][c..];
  }

  lemma {:induction false} FinalComplete(env: Env, X: seq<Row>, idx: seq<Index>) returns (i: nat, j: nat)
    requires env.Ok() && Off(env, env.last) <= env.p.hashLength && Full(env, X, env.last)
    requires Solution(env, idx) && BelowSize(env, idx)
    ensures i < j < |X|
    ensures Match(X[i], X[j], |X[i].hash|) && Merge(X[i], X[j], 0).indices == idx
  {
    hide TreeOk, BelowSize, XorOf, Solution, Flat, DistinctIndices, Full, MemLess, HasCollision;
    TreeIsSolution(env, idx);
    i, j := SubtreeRows(env, X, idx, env.last);
    var a, b := X[i], X[j];
    FullMatch(a, b, env.c);
    assert RowOf(env, idx, env.p.k).hash == XorOf(env, idx)[Off(env, env.p.k)..];
    MergeSymmetric(a, b, 0);
    MatchSymmetric(a, b, |a.hash|);
    if j < i { i, j := j, i; }
  }

  /** FullStepRow::GetIndices. */
  method GetIndices(row: Row, cBitLen: nat) returns (ret: array<Byte>)
    requires 8 <= cBitLen + 1 <= 25
    ensures ret[..] == Minimal(row.indices, cBitLen)
  {
    hide Compressed, Flat;
    var lenIndices := 4 * |row.indices|;
    ret := new Byte[(cBitLen + 1) * lenIndices / (8 * 4)](_ => 0);
    CompressArray(Flat(row.indices), ret, cBitLen + 1, BytePad(cBitLen), |row.indices|);
  }

  lemma {:induction false} BelowFits(env: Env, idx: seq<Index>)
    requires env.p.Supported()
    ensures BelowSize(env, idx) <==> IndicesFit(idx, env.p.collisionBitLength + 1)
  {
    hide InitSize;
    InitSizeFits(env);
  }

  /** Packed solutions are accepted by the validator. */
  lemma {:induction false} PackedAccepted(env: Env, idx: seq<Index>, soln: seq<Byte>)
    requires env.Ok() && Solution(env, idx) && BelowSize(env, idx)
    requires soln == Minimal(idx, env.p.collisionBitLength)
    ensures Accepts(env, soln)
  {
    hide BlockOk, Flat, Compressed, Unflat, Expanded, BelowSize, MemLess;
    var b := env.p.collisionBitLength + 1;
    BelowFits(env, idx);
    WholeIndices(env.p);
    IndicesOfMinimal(idx, env.p.collisionBitLength);
    UnpackedIs(soln, env.p.collisionBitLength);
    SolutionLength(idx, env.p);
  }

  lemma {:induction false} SolutionLength(idx: seq<Index>, p: Params)
    requires p.Supported() && |idx| == Pow2(p.k)
    ensures |Minimal(idx, p.collisionBitLength)| == SolutionWidth(p)
  {
    hide Flat, Compressed, Pow2;
    var b := p.collisionBitLength + 1;
    CompressedFits(Flat(idx), b, BytePad(p.collisionBitLength), |idx|);
    assert b * (4 * |idx|) == |idx| * b * 4;
    CancelWidth(|idx| * b, 4);
  }

  /** An accepted solution is a solution over the generated leaves, packed. */
  lemma {:induction false} AcceptedUnpacks(env: Env, soln: seq<Byte>)
    requires env.Ok() && Accepts(env, soln)
    ensures var idx := Unpacked(soln, env.p.collisionBitLength);
      Solution(env, idx) && BelowSize(env, idx) && Minimal(idx, env.p.collisionBitLength) == soln
  {
    hide Solution, Unpacked, Minimal, BelowSize, SolutionWidth;
    WholeIndices(env.p);
    UnpackedFits(soln, env.p.collisionBitLength);
    BelowFits(env, Unpacked(soln, env.p.collisionBitLength));
    MinimalOfUnpacked(soln, env.p.collisionBitLength, Pow2(env.p.k));
  }

  /** The packed merge of rows a and b of X, if they match, has been offered. */
  ghost predicate Offered(env: Env, X: seq<Row>, offered: seq<seq<Byte>>, a: nat, b: nat)
    requires env.p.Supported() && a < |X| && b < |X|
  {
    Match(X[a], X[b], |X[a].hash|) ==>
      exists q :: 0 <= q < |offered| && offered[q] == Minimal(Merge(X[a], X[b], 0).indices, env.p.collisionBitLength)
  }

  ghost predicate Covered(env: Env, X: seq<Row>, offered: seq<seq<Byte>>, n: nat)
    requires env.p.Supported() && n <= |X|
  {
    forall a, b :: 0 <= a < n && a < b < |X| ==> Offered(env, X, offered, a, b)
  }

  ghost predicate RowCovered(env: Env, X: seq<Row>, offered: seq<seq<Byte>>, a: nat, m: nat)
    requires env.p.Supported() && a < |X| && m <= |X|
  {
    forall b :: a < b < m ==> Offered(env, X, offered, a, b)
  }

  /** Everything offered so far is acceptable, and was rejected by validBlock. */
  ghost predicate Tried(env: Env, validBlock: seq<Byte> -> bool, offered: seq<seq<Byte>>)
    requires env.Ok()
  {
    forall q :: 0 <= q < |offered| ==> Accepts(env, offered[q]) && !validBlock(offered[q])
  }

  /** The last offer was taken, all earlier ones were rejected. */
  ghost predicate LastAccepted(env: Env, validBlock: seq<Byte> -> bool, offered: seq<seq<Byte>>)
    requires env.Ok()
  {
    && offered != []
    && Accepts(env, offered[|offered| - 1]) && validBlock(offered[|offered| - 1])
    && Tried(env, validBlock, offered[..|offered| - 1])
  }

  lemma {:induction false} OfferedGrows(env: Env, X: seq<Row>, offered: seq<seq<Byte>>, more: seq<seq<Byte>>, a: nat,
      b: nat)
    requires env.p.Supported() && a < |X| && b < |X| && Offered(env, X, offered, a, b) && offered <= more
    ensures Offered(env, X, more, a, b)
  {
    hide HasCollision, DistinctIndices, Merge, Minimal;
    if Match(X[a], X[b], |X[a].hash|) {
      var q :| 0 <= q < |offered| && offered[q] == Minimal(Merge(X[a], X[b], 0).indices, env.p.collisionBitLength);
      assert more[q] == offered[q];
    }
  }

  lemma {:induction false} CoveredGrows(env: Env, X: seq<Row>, offered: seq<seq<Byte>>, more: seq<seq<Byte>>, n: nat,
      a: nat, m: nat)
    requires env.p.Supported() && n <= |X| && a < |X| && m <= |X| && offered <= more
    requires Covered(env, X, offered, n) && RowCovered(env, X, offered, a, m)
    ensures Covered(env, X, more, n) && RowCovered(env, X, more, a, m)
  {
    hide Offered;
    forall x, y | 0 <= x < n && x < y < |X|
      ensures Offered(env, X, more, x, y) { OfferedGrows(env, X, offered, more, x, y); }
    forall y | a < y < m ensures Offered(env, X, more, a, y) { OfferedGrows(env, X, offered, more, a, y); }
  }

  /** Rows of the last table that agree on all the hash left. */
  ghost predicate LastPair(env: Env, a: Row, b: Row)
    requires env.Ok() && Off(env, env.last) <= env.p.hashLength
  {
    && RowStands(env, a, env.last) && RowStands(env, b, env.last)
    && |a.hash| == |b.hash| && |a.indices| == |b.indices|
    && HasCollision(a, b, |a.hash|)
  }

  /** Offering one pair of a group. */
  method OfferPair(env: Env, X: seq<Row>, a: nat, b: nat, validBlock: seq<Byte> -> bool, offered0: seq<seq<Byte>>)
    returns (found: bool, offered: seq<seq<Byte>>)
    requires env.Ok() && Off(env, env.last) <= env.p.hashLength && a < b < |X|
    requires LastPair(env, X[a], X[b]) && Tried(env, validBlock, offered0)
    ensures offered0 <= offered && Offered(env, X, offered, a, b)
    ensures !found ==> Tried(env, validBlock, offered)
    ensures found ==> LastAccepted(env, validBlock, offered)
  {
    hide RowStands, Solution, BelowSize, Minimal, Accepts, DistinctIndices, Off;
    var res := Merge(X[a], X[b], 0);
    found, offered := false, offered0;
    if DistinctIndices(X[a], X[b]) {
      FinalSound(env, X[a], X[b]);
      var packed := GetIndices(res, env.p.collisionBitLength);
      var soln := packed[..];
      SolutionSize(env, res.indices);
      assert |soln| == SolutionWidth(env.p);
      PackedAccepted(env, res.indices, soln);
      offered := offered + [soln];
      assert offered[|offered| - 1] == soln && offered[..|offered| - 1] == offered0;
      found := validBlock(soln);
    }
  }

  lemma {:induction false} SolutionSize(env: Env, idx: seq<Index>)
    requires env.Ok() && Solution(env, idx)
    ensures |Minimal(idx, env.p.collisionBitLength)| == SolutionWidth(env.p)
  {
    hide Minimal;
    SolutionLength(idx, env.p);
  }

  /** The loops over one group of fully colliding rows. */
  method OfferGroup(env: Env, X: seq<Row>, i: nat, j: nat, validBlock: seq<Byte> -> bool, offered0: seq<seq<Byte>>)
    returns (found: bool, offered: seq<seq<Byte>>)
    requires env.Ok() && Off(env, env.last) <= env.p.hashLength && LastTable(env, X) && 1 <= j && i + j <= |X|
    requires Group(X[i..i + j], LastLen(env), Pow2(env.last), LastLen(env))
    requires Boundary(X, LastLen(env), i + j)
    requires Covered(env, X, offered0, i) && Tried(env, validBlock, offered0)
    ensures !found ==> Tried(env, validBlock, offered) && Covered(env, X, offered, i + j)
    ensures found ==> LastAccepted(env, validBlock, offered)
  {
    hide LastTable, Offered, Covered, RowCovered, Tried, LastAccepted, HasCollision, Boundary, Group, Pow2, Off,
      LastLen;
    found, offered := false, offered0;
    var l := 0;
    while l < j - 1
      invariant 0 <= l < j && Tried(env, validBlock, offered) && Covered(env, X, offered, i + l)
    {
      found, offered := OfferRow(env, X, i, j, l, validBlock, offered);
      if found {
        return;
      }
      l := l + 1;
    }
    RowCoveredStart(env, X, offered, i + l);
    RowDone(env, X, offered, i, j, i + l);
  }

  /** The inner loop: row l of the group against the later ones. */
  method OfferRow(env: Env, X: seq<Row>, i: nat, j: nat, l: nat, validBlock: seq<Byte> -> bool,
      offered0: seq<seq<Byte>>)
    returns (found: bool, offered: seq<seq<Byte>>)
    requires env.Ok() && Off(env, env.last) <= env.p.hashLength && LastTable(env, X) && l < j && i + j <= |X|
    requires Group(X[i..i + j], LastLen(env), Pow2(env.last), LastLen(env))
    requires Boundary(X, LastLen(env), i + j)
    requires Covered(env, X, offered0, i + l) && Tried(env, validBlock, offered0)
    ensures !found ==> Tried(env, validBlock, offered) && Covered(env, X, offered, i + l + 1)
    ensures found ==> LastAccepted(env, validBlock, offered)
  {
    hide LastTable, Offered, Covered, RowCovered, Tried, LastAccepted, HasCollision, Boundary, Group, Pow2, Off,
      LastLen, RowStands;
    found, offered := false, offered0;
    var m := l + 1;
    RowCoveredStart(env, X, offered, i + l);
    while m < j
      invariant l < m <= j && Tried(env, validBlock, offered)
      invariant Covered(env, X, offered, i + l) && RowCovered(env, X, offered, i + l, i + m)
    {
      ghost var before := offered;
      PairOfGroup(env, X, i, j, i + l, i + m);
      found, offered := OfferPair(env, X, i + l, i + m, validBlock, offered);
      if found {
        return;
      }
      CoveredGrows(env, X, before, offered, i + l, i + l, i + m);
      RowCoveredStep(env, X, offered, i + l, i + m);
      m := m + 1;
    }
    RowDone(env, X, offered, i, j, i + l);
  }

  function LastLen(env: Env): nat
    requires env.p.Supported() && Off(env, env.last) <= env.p.hashLength
  {
    env.p.hashLength - Off(env, env.last)
  }

  /** The table before the last collision. */
  ghost predicate LastTable(env: Env, X: seq<Row>)
    requires env.Ok() && Off(env, env.last) <= env.p.hashLength
    ensures LastTable(env, X) ==> Wide(X, LastLen(env))
  {
    && (forall i :: 0 <= i < |X| ==> RowStands(env, X[i], env.last))
    && Uniform(X, LastLen(env), Pow2(env.last))
    && Wide(X, LastLen(env))
  }

  lemma {:induction false} PairOfGroup(env: Env, X: seq<Row>, i: nat, j: nat, a: nat, b: nat)
    requires env.Ok() && Off(env, env.last) <= env.p.hashLength && LastTable(env, X)
    requires i <= a < b < i + j <= |X| && Group(X[i..i + j], LastLen(env), Pow2(env.last), LastLen(env))
    ensures LastPair(env, X[a], X[b])
  {
    hide RowStands, Pow2, Off, LastLen, Group, HasCollision;
    GroupPair(X[i..i + j], LastLen(env), Pow2(env.last), a - i, b - i);
  }

  lemma {:induction false} GroupPair(G: seq<Row>, len: nat, count: nat, a: nat, b: nat)
    requires Group(G, len, count, len) && a < |G| && b < |G|
    ensures |G[a].hash| == |G[b].hash| == len && |G[a].indices| == |G[b].indices|
    ensures HasCollision(G[a], G[b], len)
  {
    assert HasCollision(G[0], G[a], len) && HasCollision(G[0], G[b], len);
  }

  lemma {:induction false} RowCoveredStart(env: Env, X: seq<Row>, offered: seq<seq<Byte>>, a: nat)
    requires env.p.Supported() && a < |X|
    ensures RowCovered(env, X, offered, a, a + 1)
  {}

  lemma {:induction false} RowCoveredStep(env: Env, X: seq<Row>, offered: seq<seq<Byte>>, a: nat, m: nat)
    requires env.p.Supported() && a < m < |X|
    requires RowCovered(env, X, offered, a, m) && Offered(env, X, offered, a, m)
    ensures RowCovered(env, X, offered, a, m + 1)
  {
    hide Offered;
  }

  /** A row is done once its group is: it collides with nothing beyond. */
  lemma {:induction false} RowDone(env: Env, X: seq<Row>, offered: seq<seq<Byte>>, i: nat, j: nat, a: nat)
    requires env.Ok() && Off(env, env.last) <= env.p.hashLength && LastTable(env, X)
    requires i <= a < i + j <= |X| && Boundary(X, LastLen(env), i + j)
    requires Covered(env, X, offered, a) && RowCovered(env, X, offered, a, i + j)
    ensures Covered(env, X, offered, a + 1)
  {
    hide RowStands;
    forall b | a < b < |X| ensures Offered(env, X, offered, a, b) {
      if i + j <= b { assert !HasCollision(X[a], X[b], LastLen(env)); }
    }
  }

  method FinalCollisions(env: Env, X0: seq<Row>, hashLen: nat, validBlock: seq<Byte> -> bool)
    returns (found: bool, offered: seq<seq<Byte>>)
    requires env.Ok() && Off(env, env.last) <= env.p.hashLength && Full(env, X0, env.last)
    requires |X0| > 1 && hashLen == LastLen(env)
    ensures found ==> LastAccepted(env, validBlock, offered)
    ensures !found ==> Tried(env, validBlock, offered) && forall soln :: Accepts(env, soln) ==> soln in offered
  {
    hide Full, LastTable, Offered, Covered, Tried, LastAccepted, HasCollision, Boundary, Accepts, SortedRows, Off;
    FullIsLast(env, X0);
    UniformWide(X0, hashLen, Pow2(env.last), hashLen);
    var X := SortRows(X0, hashLen);
    FullPermuted(env, X0, X, env.last);
    FullIsLast(env, X);
    found, offered := false, [];
    var i: nat := 0;
    FinalStart(env, X, validBlock, hashLen);
    while i < |X| - 1
      invariant i <= |X| && Boundary(X, hashLen, i)
      invariant Tried(env, validBlock, offered) && Covered(env, X, offered, i)
    {
      var j := GroupEnd(X, X, i, hashLen, hashLen, Pow2(env.last));
      GroupOf(X, i, j, hashLen, Pow2(env.last), hashLen);
      found, offered := OfferGroup(env, X, i, j, validBlock, offered);
      if found {
        return;
      }
      i := i + j;
    }
    forall soln | Accepts(env, soln) ensures soln in offered {
      AllOffered(env, X, offered, i, soln);
    }
  }

  lemma {:induction false} FullIsLast(env: Env, X: seq<Row>)
    requires env.Ok() && Off(env, env.last) <= env.p.hashLength && Full(env, X, env.last)
    ensures LastTable(env, X) && Uniform(X, LastLen(env), Pow2(env.last))
  {
    hide RowStands;
    FullUniform(env, X, env.last);
  }

  lemma {:induction false} FullPermuted(env: Env, X: seq<Row>, Y: seq<Row>, r: nat)
    requires env.Ok() && Off(env, r) <= env.p.hashLength && Full(env, X, r) && multiset(X) == multiset(Y)
    ensures Full(env, Y, r)
  {
    hide RowStands, Subtree, RowOf, Off;
    forall i | 0 <= i < |Y| ensures RowStands(env, Y[i], r) { assert Y[i] in multiset(X); }
    forall idx: seq<Index> | Subtree(env, idx, r) ensures RowOf(env, idx, r) in Y {
      assert RowOf(env, idx, r) in X;
      assert RowOf(env, idx, r) in multiset(Y);
    }
  }

  lemma {:induction false} FinalStart(env: Env, X: seq<Row>, validBlock: seq<Byte> -> bool, hashLen: nat)
    requires env.Ok() && Wide(X, hashLen)
    ensures Boundary(X, hashLen, 0) && Tried(env, validBlock, []) && Covered(env, X, [], 0)
  {}

  lemma {:induction false} AllOffered(env: Env, X: seq<Row>, offered: seq<seq<Byte>>, n: nat, soln: seq<Byte>)
    requires env.Ok() && Off(env, env.last) <= env.p.hashLength && Full(env, X, env.last)
    requires |X| - 1 <= n <= |X| && Covered(env, X, offered, n) && Accepts(env, soln)
    ensures soln in offered
  {
    hide Full, Accepts, Solution, BelowSize, Unpacked, Minimal, Match, Off;
    AcceptedUnpacks(env, soln);
    var idx := Unpacked(soln, env.p.collisionBitLength);
    var a, b := FinalComplete(env, X, idx);
    assert Offered(env, X, offered, a, b);
  }

  // --- The whole solver ---------------------------------------------------------------------------

  /** A table with at most one row, or a shorter run of rounds that ended empty,
      leaves no solution to find. */
  lemma {:induction false} NothingToFind(env: Env, X: seq<Row>, r: nat, soln: seq<Byte>)
    requires env.Ok() && r < env.p.k && Off(env, r) <= env.p.hashLength && Full(env, X, r)
    requires |X| <= 1 && (r == env.last || X == [])
    ensures !Accepts(env, soln)
  {
    hide Full, Accepts, Solution, BelowSize, Unpacked, Minimal, TreeOk, Halves, Off, RowOf;
    if Accepts(env, soln) {
      AcceptedUnpacks(env, soln);
      var idx := Unpacked(soln, env.p.collisionBitLength);
      TreeIsSolution(env, idx);
      if r == env.last {
        var i, j := SubtreeRows(env, X, idx, r);
      } else {
        FirstSubtree(env, idx, env.p.k, r);
        var i := RowPosition(env, X, idx[..Pow2(r)], r);
      }
      assert false;
    }
  }

  lemma {:induction false} FirstSubtree(env: Env, idx: seq<Index>, height: nat, r: nat)
    requires env.Ok() && r < height && Subtree(env, idx, height)
    ensures Pow2(r) <= |idx| && Subtree(env, idx[..Pow2(r)], r)
  {
    hide TreeOk, BelowSize;
    TreeSize(env, idx, height);
    P2Monotone(r, height);
    TreeLevels(env, idx, height, r);
    assert idx == idx[..Pow2(r)] + idx[Pow2(r)..];
    BelowConcat(env, idx[..Pow2(r)], idx[Pow2(r)..]);
  }

  // --- The size of the last table -----------------------------------------------------------------

  /** Two checked subtrees of the height of the last table. */
  ghost predicate TwoSubtrees(env: Env)
    requires env.Ok()
  {
    exists l: seq<Index>, t: seq<Index> :: Subtree(env, l, env.last) && Subtree(env, t, env.last) && l != t
  }

  lemma {:induction false} FirstNoTwins(env: Env, X: seq<Row>)
    requires env.Ok() && |X| <= WORD32 && forall i :: 0 <= i < |X| ==> X[i] == Row(Leaf(env, i), [i])
    ensures NoTwins(X, Pow2(0))
  {
    hide Leaf;
    forall i, j | 0 <= i < j < |X| ensures X[i].indices != X[j].indices { assert X[i].indices[0] != X[j].indices[0]; }
  }

  /** A round makes no row twice, because a row tells what it was made from. */
  lemma {:induction false} RoundNoTwins(env: Env, X: seq<Row>, X': seq<Row>, r: nat)
    requires env.Ok() && Off(env, r) <= env.p.hashLength && Full(env, X', r)
    requires r > 0 && NoTwins(X, Pow2(r - 1)) && multiset(X') == AllMerges(X, env.c)
    ensures NoTwins(X', Pow2(r))
  {
    hide Full, RowStands, Off, AllMerges, Pow2;
    FullUniform(env, X', r);
    forall i, j | 0 <= i < j < |X'| ensures X'[i].indices != X'[j].indices {
      if X'[i].indices == X'[j].indices {
        SameRow(env, X', i, j, r);
        AllMergesOnce(X, env.c, Pow2(r - 1), X'[i]);
        RepeatCounts(X', i, j);
        assert false;
      }
    }
  }

  lemma {:induction false} SameRow(env: Env, X: seq<Row>, i: nat, j: nat, r: nat)
    requires env.Ok() && Off(env, r) <= env.p.hashLength && Full(env, X, r)
    requires i < |X| && j < |X| && X[i].indices == X[j].indices
    ensures X[i] == X[j]
  {
    hide Subtree, RowOf, Off;
    assert RowStands(env, X[i], r) && RowStands(env, X[j], r);
  }

  /** The last table has more than one row exactly when there are two such subtrees; a run
      of rounds that ended early left none. */
  lemma {:induction false} LastRows(env: Env, X: seq<Row>, r: nat)
    requires env.Ok() && r < env.p.k && Off(env, r) <= env.p.hashLength && Full(env, X, r) && NoTwins(X, Pow2(r))
    requires r == env.last || X == []
    ensures |X| > 1 <==> TwoSubtrees(env)
  {
    hide Full, Subtree, RowOf, Off, Pow2;
    if |X| > 1 {
      assert X[0].indices != X[1].indices;
      StandingSubtree(env, X, 0, r);
      StandingSubtree(env, X, 1, r);
    }
    if TwoSubtrees(env) {
      var l: seq<Index>, t: seq<Index> :| Subtree(env, l, env.last) && Subtree(env, t, env.last) && l != t;
      if r == env.last {
        var i := RowPosition(env, X, l, r);
        var j := RowPosition(env, X, t, r);
        RowsDiffer(env, l, t, r);
      } else {
        FirstSubtree(env, l, env.last, r);
        var i := RowPosition(env, X, l[..Pow2(r)], r);
      }
    }
  }

  lemma {:induction false} StandingSubtree(env: Env, X: seq<Row>, i: nat, r: nat)
    requires env.Ok() && Off(env, r) <= env.p.hashLength && Full(env, X, r) && i < |X|
    ensures Subtree(env, X[i].indices, r)
  {
    assert RowStands(env, X[i], r);
  }

  /** What the call gives back. The code ends without a return statement, and so with no
      defined result, when the last table has several rows and nothing was accepted. */
  datatype Verdict = Returned(found: bool) | NoReturn

  ghost predicate Findable(env: Env, validBlock: seq<Byte> -> bool)
    requires env.Ok()
  {
    exists soln :: Accepts(env, soln) && validBlock(soln)
  }

  /** BasicSolve, without cancellation, with a record of the calls to validBlock.
      It returns true exactly when an accepted solution passes validBlock, and it never
      offers anything the validator would refuse. Otherwise it returns false or runs off
      its end, by whether the last table has more than one row. */
  method BasicSolve(env: Env, validBlock: seq<Byte> -> bool) returns (verdict: Verdict, offered: seq<seq<Byte>>)
    requires env.Ok()
    ensures forall q :: 0 <= q < |offered| ==> Accepts(env, offered[q])
    ensures verdict == if Findable(env, validBlock) then Returned(true)
      else if TwoSubtrees(env) then NoReturn else Returned(false)
    ensures verdict != Returned(true) ==> forall soln :: Accepts(env, soln) ==> soln in offered
    ensures verdict == Returned(true) ==> offered != [] && validBlock(offered[|offered| - 1])
    ensures forall q :: 0 <= q < |offered| - (if verdict == Returned(true) then 1 else 0) ==> !validBlock(offered[q])
  {
    hide Full, Accepts, Off, RowStands, Pow2, AllMerges, Uniform, NoTwins, TwoSubtrees;
    var X := GenerateList(env);
    FirstListFull(env, X);
    FirstNoTwins(env, X);
    var hashLen: int := env.p.hashLength;
    assert Off(env, 0) == 0 by { NoOffset(env); }
    var r: nat := 1;
    while r < env.p.k && |X| > 0
      invariant 1 <= r <= env.p.k && Off(env, r - 1) <= env.p.hashLength && Full(env, X, r - 1)
      invariant NoTwins(X, Pow2(r - 1)) && hashLen == env.p.hashLength - Off(env, r - 1)
    {
      ghost var before := X;
      FullUniform(env, X, r - 1);
      OffFits(env, r - 1);
      NextOffset(env, r - 1);
      X := Round(X, env.c, hashLen, Pow2(r - 1));
      RoundFull(env, before, X, r - 1);
      RoundNoTwins(env, before, X, r);
      hashLen := hashLen - env.c;
      r := r + 1;
    }
    LastRows(env, X, r - 1);
    if |X| > 1 {
      var found;
      found, offered := FinalCollisions(env, X, hashLen, validBlock);
      Summary(env, validBlock, found, offered);
      verdict := if found then Returned(true) else NoReturn;
    } else {
      verdict, offered := Returned(false), [];
      forall soln ensures !Accepts(env, soln) { NothingToFind(env, X, r - 1, soln); }
    }
  }

  lemma {:induction false} NoOffset(env: Env)
    ensures Off(env, 0) == 0
  {}

  lemma {:induction false} NextOffset(env: Env, r: nat)
    ensures Off(env, r + 1) == Off(env, r) + env.c
  {}

  lemma {:induction false} Summary(env: Env, validBlock: seq<Byte> -> bool, found: bool, offered: seq<seq<Byte>>)
    requires env.Ok()
    requires found ==> LastAccepted(env, validBlock, offered)
    requires !found ==> Tried(env, validBlock, offered) && forall soln :: Accepts(env, soln) ==> soln in offered
    ensures forall q :: 0 <= q < |offered| ==> Accepts(env, offered[q])
    ensures found <==> Findable(env, validBlock)
    ensures forall q :: 0 <= q < |offered| - (if found then 1 else 0) ==> !validBlock(offered[q])
  {
    hide Accepts;
    if found {
      var n := |offered| - 1;
      forall q | 0 <= q < n ensures Accepts(env, offered[q]) && !validBlock(offered[q]) {
        assert offered[..n][q] == offered[q];
      }
    }
  }
}
