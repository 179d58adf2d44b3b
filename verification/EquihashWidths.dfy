/** The fixed arrays that hold a row in src/equihash.cpp: hash bytes followed by index bytes.
    The rows of every round fit them, so the assertions of FullStepRow hold. */
module EquihashWidths {
  import opened Words
  import opened IndexCodec
  import opened EquihashRows
  import opened EquihashTrees
  import opened EquihashValidator
  import opened EquihashMerges
  import opened EquihashSolver

  function FullWidth(p: Params): nat
    requires p.k > 0
  {
    2 * p.collisionByteLength + 4 * Pow2(p.k - 1)
  }

  function FinalFullWidth(p: Params): nat { 2 * p.collisionByteLength + 4 * Pow2(p.k) }

  /** The bytes a row takes. */
  function RowBytes(row: Row): nat { |row.hash| + |Flat(row.indices)| }

  /** Twice as many indices outweigh the hash bytes a round takes off, which are at most
      three. */
  lemma {:induction false} WidthGrows(c: nat, r: nat, k: nat)
    requires c <= 3 && r <= k
    ensures (k - r) * c + 4 * Pow2(r) <= 4 * Pow2(k)
    decreases k
  {
    if r < k {
      WidthGrows(c, r, k - 1);
      MulSucc(k - 1 - r, c);
    }
  }

  lemma {:induction false} FewBytes(p: Params)
    requires p.Supported()
    ensures p.collisionByteLength <= 3
  {}

  /** What a row of height r takes. */
  lemma {:induction false} RowWidth(env: Env, idx: seq<Index>, r: nat)
    requires env.Ok() && r <= env.p.k && |idx| == Pow2(r)
    ensures Off(env, r) + env.c <= env.p.hashLength
    ensures RowBytes(RowOf(env, idx, r)) == (env.p.k + 1 - r) * env.c + 4 * Pow2(r)
  {
    hide Flat, XorOf;
    OffFits(env, r);
    OffIsProduct(env, r);
    ProductMinus(env.p.k + 1, r, env.c);
  }

  lemma {:induction false} ProductMinus(k: nat, r: nat, c: nat)
    requires r <= k
    ensures k * c - r * c == (k - r) * c
  {}

  /** Every row of every table of the solver fits the array of FullStepRow<FullWidth>, before a
      round and after it, and a merge of the last table fits FinalFullWidth exactly. */
  lemma {:induction false} SolverRowsFit(env: Env, X: seq<Row>, r: nat)
    requires env.Ok() && r <= env.last && Off(env, r) <= env.p.hashLength && Full(env, X, r)
    ensures forall i :: 0 <= i < |X| ==> RowBytes(X[i]) <= FullWidth(env.p)
    ensures r == env.last ==> forall i, j :: 0 <= i < |X| && 0 <= j < |X| && Match(X[i], X[j], env.c) ==>
      RowBytes(Merge(X[i], X[j], 0)) == FinalFullWidth(env.p)
  {
    hide Flat, XorOf, TreeOk, BelowSize, Off, MemLess, HasCollision, DistinctIndices;
    FewBytes(env.p);
    WidthGrows(env.c, r, env.last);
    MulSucc(env.last - r + 1, env.c);
    MulSucc(env.last - r, env.c);
    forall i | 0 <= i < |X|
      ensures |X[i].indices| == Pow2(r) && RowBytes(X[i]) == (env.p.k + 1 - r) * env.c + 4 * Pow2(r)
    {
      StandingSubtree(env, X, i, r);
      assert RowStands(env, X[i], r);
      TreeSize(env, X[i].indices, r);
      RowWidth(env, X[i].indices, r);
    }
  }

  /** Every row of every level of the validator fits the array of FullStepRow<FinalFullWidth>. */
  lemma {:induction false} ValidatorRowsFit(env: Env, idx: seq<Index>, r: nat)
    requires env.Ok() && r <= env.p.k && |idx| == Pow2(r)
    ensures Off(env, r) <= env.p.hashLength && RowBytes(RowOf(env, idx, r)) <= FinalFullWidth(env.p)
  {
    RowWidth(env, idx, r);
    FewBytes(env.p);
    WidthGrows(env.c, r, env.p.k);
    MulSucc(env.p.k - r, env.c);
  }
}
