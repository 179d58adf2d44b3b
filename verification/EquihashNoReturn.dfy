/** A hash state on which BasicSolve of src/equihash.cpp ends without a return statement. */
module EquihashNoReturn {
  import opened Words
  import opened Packing
  import opened IndexCodec
  import opened EquihashRows
  import opened EquihashTrees
  import opened EquihashValidator
  import opened EquihashSolver

  /** All leaves have one hash. */
  ghost predicate SameLeaves(env: Env)
    requires env.Ok()
  {
    forall i: Index, j: Index :: Leaf(env, i) == Leaf(env, j)
  }

  /** n indices in order from a. */
  function From(a: nat, n: nat): (s: seq<Index>)
    requires a + n <= WORD32
    ensures |s| == n && forall i :: 0 <= i < n ==> s[i] as nat == a + i
  {
    seq(n, i requires 0 <= i < n => a + i)
  }

  lemma {:induction false} SameXor(env: Env, s: seq<Index>, t: seq<Index>)
    requires env.Ok() && SameLeaves(env) && |s| == |t|
    ensures XorOf(env, s) == XorOf(env, t)
    decreases |s|
  {
    hide Leaf;
    if s != [] {
      SameXor(env, s[1..], t[1..]);
    }
  }

  /** Then any indices in order make a checked subtree. */
  lemma {:induction false} OrderedTree(env: Env, a: nat, r: nat)
    requires env.Ok() && SameLeaves(env) && r <= env.p.k && a + Pow2(r) <= WORD32
    ensures TreeOk(env, From(a, Pow2(r)), r)
    decreases r
  {
    hide XorOf, Leaf, SameLeaves, TreeOk;
    var s := From(a, Pow2(r));
    OffFits(env, r);
    if r == 0 {
      LeafTree(env, s);
    } else {
      var n := Pow2(r - 1);
      var l, t := From(a, n), From(a + n, n);
      OrderedTree(env, a, r - 1);
      OrderedTree(env, a + n, r - 1);
      SameXor(env, l, t);
      OffFits(env, r - 1);
      assert SiblingsOk(env, l, t, Off(env, r - 1), Off(env, r));
      assert s == l + t;
      JoinTrees(env, l, t, r - 1);
    }
  }

  /** With one hash for all leaves and room for two subtrees there are two. */
  lemma {:induction false} TwoOrderedTrees(env: Env)
    requires env.Ok() && SameLeaves(env) && Pow2(env.p.k) <= InitSize(env)
    ensures TwoSubtrees(env)
  {
    hide TreeOk, SameLeaves, InitSize;
    InitSizeFits(env);
    var n := Pow2(env.last);
    assert Pow2(env.p.k) == 2 * n;
    OrderedTree(env, 0, env.last);
    OrderedTree(env, n, env.last);
    var l, t := From(0, n), From(n, n);
    assert l[0] != t[0];
    assert Subtree(env, l, env.last) && Subtree(env, t, env.last);
  }

  /** GenerateHash gives zeros. */
  function ZeroState(): Env { Env(Params(96, 5), _ => Repeat(0, 60)) }

  function ZeroSlice(): seq<Byte> { Repeat(0, 12) }

  lemma {:induction false} ZeroLeaves()
    ensures ZeroState().Ok() && SameLeaves(ZeroState())
  {
    hide Expanded;
    var env := ZeroState();
    assert env.perHash == 5;
    forall i: Index, j: Index ensures Leaf(env, i) == Leaf(env, j) {
      ZeroLeaf(env, i);
      ZeroLeaf(env, j);
    }
  }

  lemma {:induction false} ZeroLeaf(env: Env, i: Index)
    requires env == ZeroState() && env.Ok()
    ensures IsBytes(Expanded(ZeroSlice(), 16, 0)) && Leaf(env, i) == ToBits8(Expanded(ZeroSlice(), 16, 0))
  {
    hide Expanded;
    var slice := ZeroSlice();
    assert env.perHash == 5 && env.p.n / 8 == 12 && env.p.collisionBitLength == 16;
    LeafLength(env.p, slice);
    var q: nat := i % 5;
    var hash: seq<Byte> := env.generate(i / 5);
    assert q * 96 / 8 == 12 * q;
    assert hash[12 * q..12 * q + 12] == slice;
    assert Leaf(env, i) == LeafAt(env, hash, q);
  }

  /** There every pair of ordered lists matches, and a caller that accepts no block gets no
      result. */
  lemma {:induction false} NoReturnHappens()
    ensures var env := ZeroState();
      env.Ok() && TwoSubtrees(env) && !Findable(env, _ => false)
  {
    hide SameLeaves, TwoSubtrees;
    var env := ZeroState();
    ZeroLeaves();
    P2Monotone(5, 17);
    TwoOrderedTrees(env);
  }
}
