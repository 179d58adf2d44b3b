/** Equihash::IsValidSolution of src/equihash.cpp. */
module EquihashValidator {
  import opened Words
  import opened IndexCodec
  import opened EquihashRows
  import opened EquihashTrees

  function SolutionWidth(p: Params): nat { Pow2(p.k) * (p.collisionBitLength + 1) / 8 }

  /** What the validator must decide. */
  ghost predicate Accepts(env: Env, soln: seq<Byte>)
    requires env.Ok()
  {
    |soln| == SolutionWidth(env.p) && Solution(env, Unpacked(soln, env.p.collisionBitLength))
  }

  // --- Levels of the reduction -----------------------------------------------------

  /** The table after r levels: one row per block of 2^r leaves. */
  function LevelRows(env: Env, idx: seq<Index>, r: nat): seq<Row>
    requires env.Ok() && Off(env, r) <= env.p.hashLength
    decreases |idx|
  {
    if |idx| < Pow2(r) then [] else [RowOf(env, idx[..Pow2(r)], r)] + LevelRows(env, idx[Pow2(r)..], r)
  }

  /** idx is a run of checked subtrees of height r. */
  ghost predicate LevelOk(env: Env, idx: seq<Index>, r: nat)
    requires env.Ok()
    decreases |idx|
  {
    if |idx| < Pow2(r) then idx == [] else TreeOk(env, idx[..Pow2(r)], r) && LevelOk(env, idx[Pow2(r)..], r)
  }

  lemma {:induction false} LevelStep(env: Env, block: seq<Index>, rest: seq<Index>, r: nat)
    requires env.Ok() && Off(env, r) <= env.p.hashLength && |block| == Pow2(r)
    ensures LevelRows(env, block + rest, r) == [RowOf(env, block, r)] + LevelRows(env, rest, r)
    ensures LevelOk(env, block + rest, r) <==> TreeOk(env, block, r) && LevelOk(env, rest, r)
  {
    assert (block + rest)[..Pow2(r)] == block && (block + rest)[Pow2(r)..] == rest;
  }

  lemma {:induction false} LevelEnd(env: Env, idx: seq<Index>, r: nat)
    requires env.Ok() && Off(env, r) <= env.p.hashLength
    ensures |idx| < Pow2(r) ==> LevelRows(env, idx, r) == [] && (LevelOk(env, idx, r) <==> idx == [])
  {}

  /** A checked tree is a run of checked subtrees on every lower level. */
  lemma {:induction false} TreeLevels(env: Env, idx: seq<Index>, height: nat, r: nat)
    requires env.Ok() && TreeOk(env, idx, height) && r <= height
    ensures LevelOk(env, idx, r)
    decreases height
  {
    hide TreeOk, LevelOk, SiblingsOk;
    TreeSize(env, idx, height);
    TreeOffset(env, idx, height);
    OffMonotone(env, r, height);
    if r == height {
      assert idx == idx + [];
      LevelStep(env, idx, [], r);
      LevelEnd(env, [], r);
    } else {
      TreeHalves(env, idx, height);
      var l, t := idx[..Pow2(height - 1)], idx[Pow2(height - 1)..];
      TreeLevels(env, l, height - 1, r);
      TreeLevels(env, t, height - 1, r);
      assert idx == l + t;
      LevelAppend(env, l, t, r);
    }
  }

  lemma {:induction false} TreeOffset(env: Env, idx: seq<Index>, r: nat)
    requires env.Ok() && TreeOk(env, idx, r)
    ensures Off(env, r) <= env.p.hashLength
  {}

  lemma {:induction false} LevelAppend(env: Env, s: seq<Index>, t: seq<Index>, r: nat)
    requires env.Ok() && Off(env, r) <= env.p.hashLength && LevelOk(env, s, r)
    ensures LevelOk(env, s + t, r) <==> LevelOk(env, t, r)
    decreases |s|
  {
    hide LevelOk, TreeOk, Off;
    if |s| < Pow2(r) {
      LevelEnd(env, s, r);
      assert s + t == t;
    } else {
      var block, rest := s[..Pow2(r)], s[Pow2(r)..];
      assert s == block + rest;
      LevelStep(env, block, rest, r);
      LevelAppend(env, rest, t, r);
      assert s + t == block + (rest + t);
      LevelStep(env, block, rest + t, r);
    }
  }

  lemma {:induction false} LevelCount(env: Env, idx: seq<Index>, r: nat, s: nat)
    requires env.Ok() && Off(env, r) <= env.p.hashLength && r <= s && |idx| == Pow2(s)
    ensures |LevelRows(env, idx, r)| == Pow2(s - r)
    decreases s
  {
    hide LevelRows, RowOf;
    if r == s {
      assert idx == idx + [];
      LevelStep(env, idx, [], r);
      LevelEnd(env, [], r);
    } else {
      var l, t := idx[..Pow2(s - 1)], idx[Pow2(s - 1)..];
      LevelCount(env, l, r, s - 1);
      LevelCount(env, t, r, s - 1);
      RowsAppend(env, l, t, r, s - 1);
      assert idx == l + t;
    }
  }

  lemma {:induction false} RowsAppend(env: Env, l: seq<Index>, t: seq<Index>, r: nat, s: nat)
    requires env.Ok() && Off(env, r) <= env.p.hashLength && r <= s && |l| == Pow2(s)
    ensures LevelRows(env, l + t, r) == LevelRows(env, l, r) + LevelRows(env, t, r)
    decreases s
  {
    hide LevelRows, RowOf;
    if r == s {
      assert l == l + [];
      LevelStep(env, l, t, r);
      LevelStep(env, l, [], r);
      LevelEnd(env, [], r);
    } else {
      var a, b := l[..Pow2(s - 1)], l[Pow2(s - 1)..];
      RowsAppend(env, a, b + t, r, s - 1);
      RowsAppend(env, a, b, r, s - 1);
      RowsAppend(env, b, t, r, s - 1);
      assert l == a + b && l + t == a + (b + t);
      assert LevelRows(env, a, r) + (LevelRows(env, b, r) + LevelRows(env, t, r)) ==
          (LevelRows(env, a, r) + LevelRows(env, b, r)) + LevelRows(env, t, r);
    }
  }

  // --- One round of sibling checks --------------------------------------------------------

  /** Two adjacent blocks at the front of the part of a level not yet visited. */
  lemma {:induction false} NextPair(env: Env, rest: seq<Index>, r: nat)
    requires env.Ok() && r < env.p.k && Off(env, r) <= env.p.hashLength
    requires LevelOk(env, rest, r) && Pow2(r + 1) <= |rest|
    ensures Off(env, r) + env.c == Off(env, r + 1) <= env.p.hashLength
    ensures var l, t, rest' := rest[..Pow2(r)], rest[Pow2(r)..Pow2(r + 1)], rest[Pow2(r + 1)..];
      var rows := LevelRows(env, rest, r);
      && 2 <= |rows| && rows[0] == RowOf(env, l, r) && rows[1] == RowOf(env, t, r)
      && rows[2..] == LevelRows(env, rest', r) && LevelOk(env, rest', r)
      && TreeOk(env, l, r) && TreeOk(env, t, r)
      && (LevelOk(env, rest, r + 1) <==> TreeOk(env, l + t, r + 1) && LevelOk(env, rest', r + 1))
      && LevelRows(env, rest, r + 1) == [RowOf(env, l + t, r + 1)] + LevelRows(env, rest', r + 1)
  {
    hide LevelRows, LevelOk, RowOf, TreeOk;
    OffFits(env, r);
    OffFits(env, r + 1);
    var l, t, rest' := rest[..Pow2(r)], rest[Pow2(r)..Pow2(r + 1)], rest[Pow2(r + 1)..];
    assert rest == l + (t + rest') && rest == (l + t) + rest';
    LevelStep(env, l, t + rest', r);
    LevelStep(env, t, rest', r);
    LevelStep(env, l + t, rest', r + 1);
  }

  /** One iteration of the outer loop: either every sibling pair passes and the
      table moves one level up, or no tree can be completed. */
  method CheckLevel(env: Env, X: seq<Row>, ghost idx: seq<Index>, ghost r: nat)
    returns (ok: bool, Xc: seq<Row>)
    requires env.Ok() && r < env.p.k && |idx| == Pow2(env.p.k)
    requires Off(env, r) <= env.p.hashLength && LevelOk(env, idx, r) && X == LevelRows(env, idx, r)
    ensures Off(env, r + 1) <= env.p.hashLength
    ensures ok <==> LevelOk(env, idx, r + 1)
    ensures ok ==> Xc == LevelRows(env, idx, r + 1)
  {
    hide LevelRows, LevelOk, RowOf, TreeOk, Off, Merge, HasCollision, IndicesBefore, DistinctIndices;
    OffFits(env, r + 1);
    Xc := [];
    ghost var rest := idx;
    var i := 0;
    LevelEven(env, idx, r, env.p.k);
    while i < |X|
      invariant 0 <= i <= |X|
      invariant X[i..] == LevelRows(env, rest, r) && LevelOk(env, rest, r)
      invariant LevelRows(env, idx, r + 1) == Xc + LevelRows(env, rest, r + 1)
      invariant LevelOk(env, idx, r + 1) <==> LevelOk(env, rest, r + 1)
      invariant Pairs(|rest|, r)
    {
      RestNotEmpty(env, rest, r);
      NextPair(env, rest, r);
      ghost var l, t := rest[..Pow2(r)], rest[Pow2(r)..Pow2(r + 1)];
      assert X[i] == X[i..][0] && X[i + 1] == X[i..][1] && X[i + 2..] == X[i..][2..];
      PairStep(env, l, t, r);
      RowShapes(env, l, t, r);
      if !HasCollision(X[i], X[i + 1], env.c) {
        return false, [];
      }
      if IndicesBefore(X[i + 1], X[i]) {
        return false, [];
      }
      if !DistinctIndices(X[i], X[i + 1]) {
        return false, [];
      }
      Xc := Xc + [Merge(X[i], X[i + 1], env.c)];
      rest := rest[Pow2(r + 1)..];
      i := i + 2;
    }
    RestEmpty(env, rest, r);
    ok := true;
  }

  /** n is a whole number of pairs of blocks of height r. */
  ghost predicate Pairs(n: nat, r: nat)
    decreases n
  {
    n == 0 || (Pow2(r + 1) <= n && Pairs(n - Pow2(r + 1), r))
  }

  lemma {:induction false} LevelEven(env: Env, idx: seq<Index>, r: nat, s: nat)
    requires r < s && |idx| == Pow2(s)
    ensures Pairs(|idx|, r)
    decreases s
  {
    if r + 1 < s {
      LevelEven(env, idx[..Pow2(s - 1)], r, s - 1);
      PairsAdd(Pow2(s - 1), Pow2(s - 1), r);
    }
  }

  lemma {:induction false} PairsAdd(m: nat, n: nat, r: nat)
    requires Pairs(m, r) && Pairs(n, r)
    ensures Pairs(m + n, r)
    decreases m
  {
    if m > 0 { PairsAdd(m - Pow2(r + 1), n, r); }
  }

  lemma {:induction false} RestNotEmpty(env: Env, rest: seq<Index>, r: nat)
    requires env.Ok() && Off(env, r) <= env.p.hashLength && Pairs(|rest|, r)
    requires LevelRows(env, rest, r) != []
    ensures Pow2(r + 1) <= |rest|
    ensures Pairs(|rest[Pow2(r + 1)..]|, r)
  {}

  lemma {:induction false} RestEmpty(env: Env, rest: seq<Index>, r: nat)
    requires env.Ok() && Off(env, r + 1) <= env.p.hashLength && Off(env, r) <= env.p.hashLength && Pairs(|rest|, r)
    requires LevelRows(env, rest, r) == []
    ensures LevelOk(env, rest, r + 1) && LevelRows(env, rest, r + 1) == []
  {
    hide RowOf, Off;
    assert Pow2(r + 1) == 2 * Pow2(r);
  }

  lemma {:induction false} RowShapes(env: Env, l: seq<Index>, t: seq<Index>, r: nat)
    requires env.Ok() && Off(env, r) + env.c <= env.p.hashLength && |l| == |t|
    ensures var a, b := RowOf(env, l, r), RowOf(env, t, r);
      |a.hash| == |b.hash| && env.c <= |a.hash| && |a.indices| == |b.indices|
  {}

  /** The bytes of one index, out of the hash it shares with its neighbours. */
  method LeafHash(env: Env, i: Index) returns (hash: seq<bv8>)
    requires env.Ok()
    ensures hash == Leaf(env, i)
  {
    hide LeafAt;
    PerHashPositive(env.p.n);
    var tmpHash := env.generate(i / env.perHash);
    hash := LeafAt(env, tmpHash, i % env.perHash);
  }

  /** The starting table: one row per unpacked index. */
  method LeafRows(env: Env, indices: seq<Index>) returns (X: seq<Row>)
    requires env.Ok()
    ensures Off(env, 0) <= env.p.hashLength && X == LevelRows(env, indices, 0) && LevelOk(env, indices, 0)
  {
    hide LevelRows, LevelOk, Leaf;
    X := [];
    LevelEnd(env, [], 0);
    for t := 0 to |indices|
      invariant X == LevelRows(env, indices[..t], 0) && LevelOk(env, indices[..t], 0)
    {
      var hash := LeafHash(env, indices[t]);
      LeafSnoc(env, indices[..t], indices[t]);
      assert indices[..t + 1] == indices[..t] + [indices[t]];
      X := X + [Row(hash, [indices[t]])];
    }
    assert indices[..|indices|] == indices;
  }

  lemma {:induction false} LeafSnoc(env: Env, s: seq<Index>, i: Index)
    requires env.Ok() && LevelOk(env, s, 0)
    ensures LevelOk(env, s + [i], 0)
    ensures LevelRows(env, s + [i], 0) == LevelRows(env, s, 0) + [Row(Leaf(env, i), [i])]
    decreases |s|
  {
    hide LevelRows, LevelOk, Leaf;
    LeafRow(env, i);
    if s == [] {
      assert s + [i] == [i] + [];
      LevelEnd(env, [], 0);
      LevelStep(env, [i], [], 0);
    } else {
      var rest := s[1..];
      assert s == [s[0]] + rest && s + [i] == [s[0]] + (rest + [i]);
      LevelStep(env, [s[0]], rest, 0);
      LeafSnoc(env, rest, i);
      LevelStep(env, [s[0]], rest + [i], 0);
      LeafTree(env, [s[0]]);
    }
  }

  lemma {:induction false} LeafRow(env: Env, i: Index)
    requires env.Ok()
    ensures TreeOk(env, [i], 0) && RowOf(env, [i], 0) == Row(Leaf(env, i), [i])
  {
    hide Leaf;
    var z := XorOf(env, []);
    assert [i][1..] == [];
    XorComm(Leaf(env, i), z);
    XorWithZero(z, Leaf(env, i));
    assert XorOf(env, [i])[0..] == XorOf(env, [i]);
  }

  method IsValidSolution(env: Env, soln: seq<Byte>) returns (ok: bool)
    requires env.Ok()
    ensures ok <==> Accepts(env, soln)
  {
    hide SolutionWidth, Solution, Unpacked, Minimal;
    if |soln| != SolutionWidth(env.p) {
      return false;
    }
    WholeIndices(env.p);
    var indices := GetIndicesFromMinimal(soln, env.p.collisionBitLength, Pow2(env.p.k));
    MinimalOfUnpacked(soln, env.p.collisionBitLength, Pow2(env.p.k));
    ok := ReduceLevels(env, indices);
  }

  /** The level-by-level reduction at the heart of IsValidSolution. */
  method ReduceLevels(env: Env, indices: seq<Index>) returns (ok: bool)
    requires env.Ok() && |indices| == Pow2(env.p.k)
    ensures ok <==> Solution(env, indices)
  {
    hide LevelRows, LevelOk, RowOf, TreeOk, Off, Solution, AllZero, XorOf;
    TreeIsSolution(env, indices);
    OffAtRoot(env);
    var X := LeafRows(env, indices);
    ghost var r := 0;
    LevelCount(env, indices, 0, env.p.k);
    while |X| > 1
      invariant r <= env.p.k && Off(env, r) <= env.p.hashLength
      invariant LevelOk(env, indices, r) && X == LevelRows(env, indices, r) && |X| == Pow2(env.p.k - r)
      decreases |X|
    {
      var passed;
      passed, X := CheckLevel(env, X, indices, r);
      if !passed {
        if TreeOk(env, indices, env.p.k) { TreeLevels(env, indices, env.p.k, r + 1); }
        return false;
      }
      r := r + 1;
      LevelCount(env, indices, r, env.p.k);
    }
    RootRow(env, indices, r);
    RootHash(env, indices);
    ok := AllZero(X[0].hash);
  }

  lemma {:induction false} RootHash(env: Env, idx: seq<Index>)
    requires env.Ok() && Off(env, env.p.k) <= env.p.hashLength
    ensures RowOf(env, idx, env.p.k).hash == XorOf(env, idx)[Off(env, env.p.k)..]
  {}

  lemma {:induction false} RootRow(env: Env, idx: seq<Index>, r: nat)
    requires env.Ok() && r <= env.p.k && |idx| == Pow2(env.p.k) && Off(env, r) <= env.p.hashLength
    requires Pow2(env.p.k - r) == 1 && LevelOk(env, idx, r)
    ensures r == env.p.k && TreeOk(env, idx, r) && LevelRows(env, idx, r) == [RowOf(env, idx, r)]
  {
    hide LevelRows, LevelOk, RowOf, TreeOk, Off;
    assert idx == idx + [];
    LevelStep(env, idx, [], r);
    LevelEnd(env, [], r);
  }

  lemma {:induction false} WholeIndices(p: Params)
    requires p.Supported()
    ensures 8 * SolutionWidth(p) == Pow2(p.k) * (p.collisionBitLength + 1)
    ensures Pow2(p.k) * (p.collisionBitLength + 1) % 8 == 0
  {
    var q := Pow2(p.k - 3);
    assert Pow2(p.k) == 2 * Pow2(p.k - 1) == 4 * Pow2(p.k - 2) == 8 * q;
    EightTimes(q, p.collisionBitLength + 1);
  }

  lemma {:induction false} EightTimes(q: nat, x: nat)
    ensures 8 * q * x % 8 == 0 && 8 * (8 * q * x / 8) == 8 * q * x
  {
    assert 8 * q * x == 8 * (q * x);
  }
}
