/** The Merkle trees of CBlock (src/core.cpp), over any pair hash. */
module Merkle {
  import opened Words

  type Pair<!H> = (H, H) -> H

  // --- Levels -----------------------------------------------------------------------------

  /** The number of nodes one level up. */
  function Half(n: nat): nat { (n + 1) / 2 }

  /** The parents of a level; an odd last node is paired with itself. */
  function Parents<H>(s: seq<H>, pair: Pair<H>): (r: seq<H>)
    ensures |r| == Half(|s|)
    ensures forall k :: 0 <= k < |r| ==> r[k] == pair(s[2 * k], s[Min(2 * k + 1, |s| - 1)])
  {
    seq(Half(|s|), k requires 0 <= k < Half(|s|) => pair(s[2 * k], s[Min(2 * k + 1, |s| - 1)]))
  }

  /** The root over a non-empty list of leaves. */
  function Root<H>(s: seq<H>, pair: Pair<H>): H
    requires s != []
    decreases |s|
  {
    if |s| == 1 then s[0] else Root(Parents(s, pair), pair)
  }

  /** All levels, from the leaves up, one after the other. */
  function Flat<H>(s: seq<H>, pair: Pair<H>): (t: seq<H>)
    ensures |s| <= |t|
    decreases |s|
  {
    if |s| <= 1 then s else s + Flat(Parents(s, pair), pair)
  }

  lemma {:induction false} LastIsRoot<H>(s: seq<H>, pair: Pair<H>)
    requires s != []
    ensures Flat(s, pair)[|Flat(s, pair)| - 1] == Root(s, pair)
    decreases |s|
  {
    hide Parents;
    if |s| > 1 {
      LastIsRoot(Parents(s, pair), pair);
    }
  }

  // --- Branches ----------------------------------------------------------------------------

  function Xor1(i: nat): nat { if i % 2 == 0 then i + 1 else i - 1 }

  /** The sibling of leaf i at every level. */
  function Branch<H>(s: seq<H>, pair: Pair<H>, i: nat): seq<H>
    decreases |s|
  {
    if |s| <= 1 then [] else [s[Min(Xor1(i), |s| - 1)]] + Branch(Parents(s, pair), pair, i / 2)
  }

  /** A hash climbing along a branch; index bits tell the side. */
  function Climb<H>(hash: H, branch: seq<H>, index: int, pair: Pair<H>): H
    decreases |branch|
  {
    if branch == [] then hash
    else
      Climb(Up(hash, branch[0], index, pair), branch[1..], index / 2, pair)
  }

  /** The branch of any leaf leads to the root. */
  lemma {:induction false} BranchChecks<H>(s: seq<H>, pair: Pair<H>, i: nat)
    requires i < |s|
    ensures Climb(s[i], Branch(s, pair, i), i, pair) == Root(s, pair)
    decreases |s|
  {
    if |s| > 1 {
      BranchChecks(Parents(s, pair), pair, i / 2);
      var b := Branch(s, pair, i);
      assert b[1..] == Branch(Parents(s, pair), pair, i / 2);
      if i % 2 == 1 {
        assert 2 * (i / 2) == i - 1;
      } else {
        assert 2 * (i / 2) == i;
      }
    }
  }

  /** One level up: the pair hash of a node and its sibling. */
  function Up<H>(hash: H, sibling: H, index: int, pair: Pair<H>): H {
    if index % 2 == 1 then pair(sibling, hash) else pair(hash, sibling)
  }

  /** Two climbs to the same height show no collision of the pair hash: at every level,
      equal results come from equal inputs. */
  predicate NoCollision<H(==)>(a: H, b: H, p: seq<H>, q: seq<H>, index: int, pair: Pair<H>)
    requires |p| == |q|
    decreases |p|
  {
    p != [] ==>
      var u, v := Up(a, p[0], index, pair), Up(b, q[0], index, pair);
      (u == v ==> a == b && p[0] == q[0]) && NoCollision(u, v, p[1..], q[1..], index / 2, pair)
  }

  /** A place in the tree and a result determine the hash climbed from and the whole
      branch, unless the two climbs show a collision. */
  lemma {:induction false} ClimbUnique<H>(a: H, b: H, p: seq<H>, q: seq<H>, index: int, pair: Pair<H>)
    requires |p| == |q| && NoCollision(a, b, p, q, index, pair)
    ensures Climb(a, p, index, pair) == Climb(b, q, index, pair) <==> a == b && p == q
    decreases |p|
  {
    if p != [] {
      var u, v := Up(a, p[0], index, pair), Up(b, q[0], index, pair);
      ClimbUnique(u, v, p[1..], q[1..], index / 2, pair);
      assert p == [p[0]] + p[1..] && q == [q[0]] + q[1..];
    }
  }

  /** So nothing but a leaf, with its own branch, checks against a root at that leaf's
      place, unless its climb and the leaf's own show a collision. */
  lemma {:induction false} OnlyLeavesCheck<H>(s: seq<H>, pair: Pair<H>, i: nat, hash: H, branch: seq<H>)
    requires i < |s| && |branch| == |Branch(s, pair, i)|
    requires NoCollision(hash, s[i], branch, Branch(s, pair, i), i, pair)
    ensures Climb(hash, branch, i, pair) == Root(s, pair) <==> hash == s[i] && branch == Branch(s, pair, i)
  {
    BranchChecks(s, pair, i);
    ClimbUnique(hash, s[i], branch, Branch(s, pair, i), i, pair);
  }

  // --- The root determines the leaves -----------------------------------------------------------

  /** Two trees of one shape show no collision of the pair hash: at every level, equal
      parents come from equal children. */
  ghost predicate TreesNoCollision<H>(s: seq<H>, t: seq<H>, pair: Pair<H>)
    requires |s| == |t|
    decreases |s|
  {
    |s| > 1 ==>
      && (forall k :: 0 <= k < Half(|s|) && Parents(s, pair)[k] == Parents(t, pair)[k] ==> SameChildren(s, t, k))
      && TreesNoCollision(Parents(s, pair), Parents(t, pair), pair)
  }

  ghost predicate SameChildren<H>(s: seq<H>, t: seq<H>, k: nat)
    requires |s| == |t| && k < Half(|s|)
  {
    s[2 * k] == t[2 * k] && s[Min(2 * k + 1, |s| - 1)] == t[Min(2 * k + 1, |s| - 1)]
  }

  /** Leaf lists of one length have one root if and only if they are equal, unless their
      trees show a collision. */
  lemma {:induction false} RootUnique<H>(s: seq<H>, t: seq<H>, pair: Pair<H>)
    requires |s| == |t| > 0 && TreesNoCollision(s, t, pair)
    ensures Root(s, pair) == Root(t, pair) <==> s == t
    decreases |s|
  {
    hide Parents;
    if |s| > 1 {
      RootUnique(Parents(s, pair), Parents(t, pair), pair);
      if Root(s, pair) == Root(t, pair) {
        forall i | 0 <= i < |s| ensures s[i] == t[i] {
          assert Parents(s, pair)[i / 2] == Parents(t, pair)[i / 2];
          assert SameChildren(s, t, i / 2);
        }
      }
    } else {
      assert s == [s[0]] && t == [t[0]];
    }
  }

  /** The last 2^j leaves. */
  function Tail<H>(s: seq<H>, j: nat): seq<H>
    requires Pow2(j) <= |s|
  {
    s[|s| - Pow2(j)..]
  }

  /** The length does not help to tell lists apart: when level j has an odd number q > 1 of
      full subtrees, repeating the last one gives a longer list with the same root, whatever
      the pair hash. */
  lemma {:induction false} RepeatedTail<H>(s: seq<H>, pair: Pair<H>, j: nat, q: nat)
    requires q > 1 && q % 2 == 1 && |s| == Pow2(j) * q
    ensures Pow2(j) <= |s| && s + Tail(s, j) != s
    ensures Root(s + Tail(s, j), pair) == Root(s, pair)
    decreases j
  {
    hide Parents;
    TailLength(j, q);
    if j == 0 {
      RepeatedLast(s, pair);
    } else {
      RepeatedPairs(s, pair, Pow2(j - 1));
      RepeatedTail(Parents(s, pair), pair, j - 1, q);
    }
  }

  /** One level up, repeating the last node of an odd level changes nothing. */
  lemma {:induction false} RepeatedLast<H>(s: seq<H>, pair: Pair<H>)
    requires |s| % 2 == 1
    ensures Tail(s, 0) == [s[|s| - 1]]
    ensures Parents(s + Tail(s, 0), pair) == Parents(s, pair)
  {
    var t, up := s + [s[|s| - 1]], Parents(s, pair);
    assert Tail(s, 0) == [s[|s| - 1]];
    assert |Parents(t, pair)| == |up|;
    forall k | 0 <= k < |up| ensures Parents(t, pair)[k] == up[k] {}
  }

  /** One level up, repeating the last 2n nodes is repeating the last n. */
  lemma {:induction false} RepeatedPairs<H>(s: seq<H>, pair: Pair<H>, n: nat)
    requires |s| % 2 == 0 && 2 * n <= |s|
    ensures |Parents(s, pair)| == |s| / 2
    ensures Parents(s + s[|s| - 2 * n..], pair) == Parents(s, pair) + Parents(s, pair)[|s| / 2 - n..]
  {
    var t, up := s + s[|s| - 2 * n..], Parents(s, pair);
    var m := |s| / 2;
    assert |Parents(t, pair)| == m + n;
    forall k | 0 <= k < m + n ensures Parents(t, pair)[k] == (up + up[m - n..])[k] {
      if k >= m {
        assert t[2 * k] == s[2 * (k - n)] && t[2 * k + 1] == s[2 * (k - n) + 1];
      }
    }
  }

  lemma {:induction false} TailLength(j: nat, q: nat)
    requires q > 1
    ensures Pow2(j) < Pow2(j) * q
    ensures j > 0 ==> Pow2(j) * q == 2 * (Pow2(j - 1) * q)
  {
    MulMono(2, q, Pow2(j));
  }

  // --- CBlock ---------------------------------------------------------------------------------

  class CBlock<H(==)> {
    const pair: Pair<H>
    const zero: H
    const vtx: seq<H>           // the hashes of the transactions
    var vMerkleTree: seq<H>

    constructor (pair: Pair<H>, zero: H, vtx: seq<H>)
      ensures this.pair == pair && this.zero == zero && this.vtx == vtx && vMerkleTree == []
    {
      this.pair, this.zero, this.vtx, vMerkleTree := pair, zero, vtx, [];
    }

    /** One level more: the parents of the last nSize nodes. */
    method BuildLevel(j: nat, nSize: nat)
      requires j + nSize == |vMerkleTree|
      modifies `vMerkleTree
      ensures vMerkleTree == old(vMerkleTree) + Parents(old(vMerkleTree[j..]), pair)
    {
      ghost var level, parents := vMerkleTree[j..], Parents(vMerkleTree[j..], pair);
      ghost var done: nat := 0;
      var i := 0;
      while i < nSize
        invariant i == 2 * done && done <= |parents|
        invariant |vMerkleTree| == j + nSize + done && vMerkleTree == old(vMerkleTree) + parents[..done]
        decreases nSize - i
      {
        var i2 := Min(i + 1, nSize - 1);
        assert vMerkleTree[j + i] == level[i] && vMerkleTree[j + i2] == level[i2];
        assert parents[..done + 1] == parents[..done] + [parents[done]];
        vMerkleTree := vMerkleTree + [pair(vMerkleTree[j + i], vMerkleTree[j + i2])];
        i, done := i + 2, done + 1;
      }
      assert parents[..done] == parents;
    }

    static lemma {:induction false} LevelDone(t: seq<H>, t': seq<H>, j: nat, level: seq<H>, parents: seq<H>,
        rest: seq<H>)
      requires j <= |t| && t[j..] == level && t' == t + parents
      ensures t'[j + |level|..] == parents && t'[..j + |level|] + rest == t[..j] + (level + rest)
    {}

    static lemma {:induction false} FlatTop(level: seq<H>, pair: Pair<H>)
      requires |level| <= 1
      ensures Flat(level, pair) == level
    {}

    static lemma {:induction false} FlatUnfold(level: seq<H>, pair: Pair<H>)
      requires |level| > 1
      ensures Flat(level, pair) == level + Flat(Parents(level, pair), pair)
    {}

    method BuildMerkleTree() returns (root: H)
      modifies `vMerkleTree
      ensures vMerkleTree == Flat(vtx, pair)
      ensures root == if vtx == [] then zero else Root(vtx, pair)
    {
      hide Flat, Parents, Root;
      vMerkleTree := vtx;
      var j := 0;
      var nSize := |vtx|;
      ghost var level := vtx;
      while nSize > 1
        invariant 0 <= j && j + nSize == |vMerkleTree| && nSize == |level|
        invariant vMerkleTree[j..] == level && vMerkleTree[..j] + Flat(level, pair) == Flat(vtx, pair)
        decreases nSize
      {
        ghost var below := vMerkleTree;
        BuildLevel(j, nSize);
        LevelDone(below, vMerkleTree, j, level, Parents(level, pair), Flat(Parents(level, pair), pair));
        FlatUnfold(level, pair);
        j := j + nSize;
        level := Parents(level, pair);
        nSize := (nSize + 1) / 2;
      }
      assert vMerkleTree == vMerkleTree[..j] + vMerkleTree[j..];
      FlatTop(level, pair);
      if vtx != [] {
        LastIsRoot(vtx, pair);
        root := vMerkleTree[|vMerkleTree| - 1];
      } else {
        root := zero;
      }
    }

    /** The branch of a transaction, from a tree that is current or not yet built. */
    method GetMerkleBranch(nIndex0: nat) returns (vMerkleBranch: seq<H>)
      requires vMerkleTree == [] || vMerkleTree == Flat(vtx, pair)
      modifies `vMerkleTree
      ensures vMerkleTree == Flat(vtx, pair)
      ensures vMerkleBranch == Branch(vtx, pair, nIndex0)
    {
      hide Flat, Parents, Branch, Xor1;
      if vMerkleTree == [] {
        var root := BuildMerkleTree();
      }
      vMerkleBranch := [];
      var nIndex: nat := nIndex0;
      var j := 0;
      var nSize := |vtx|;
      ghost var level := vtx;
      while nSize > 1
        invariant 0 <= j <= |vMerkleTree| && nSize == |level| && vMerkleTree == Flat(vtx, pair)
        invariant vMerkleTree[j..] == Flat(level, pair)
        invariant vMerkleBranch + Branch(level, pair, nIndex) == Branch(vtx, pair, nIndex0)
        decreases nSize
      {
        FlatUnfold(level, pair);
        BranchUnfold(level, pair, nIndex);
        ghost var up := Branch(Parents(level, pair), pair, nIndex / 2);
        var i := Min(Xor1(nIndex), nSize - 1);
        NextLevel(vMerkleTree, j, level, Flat(Parents(level, pair), pair), i);
        assert vMerkleBranch + ([level[i]] + up) == (vMerkleBranch + [level[i]]) + up;
        vMerkleBranch := vMerkleBranch + [vMerkleTree[j + i]];
        nIndex := nIndex / 2;
        j := j + nSize;
        level := Parents(level, pair);
        nSize := (nSize + 1) / 2;
      }
      BranchTop(level, pair, nIndex);
    }

    static lemma {:induction false} BranchUnfold(level: seq<H>, pair: Pair<H>, i: nat)
      requires |level| > 1
      ensures Branch(level, pair, i) == [level[Min(Xor1(i), |level| - 1)]] + Branch(Parents(level, pair), pair, i / 2)
    {}

    static lemma {:induction false} BranchTop(level: seq<H>, pair: Pair<H>, i: nat)
      requires |level| <= 1
      ensures Branch(level, pair, i) == []
    {}

    static lemma {:induction false} NextLevel(t: seq<H>, j: nat, level: seq<H>, rest: seq<H>, i: nat)
      requires j <= |t| && t[j..] == level + rest && i < |level|
      ensures j + |level| <= |t| && t[j + i] == level[i] && t[j + |level|..] == rest
    {
      assert t[j..][i] == level[i];
      assert t[j..][|level|..] == t[j + |level|..];
    }

    /** CheckMerkleBranch; index -1 stands for no place at all. */
    static method CheckMerkleBranch(hash0: H, branch: seq<H>, nIndex0: int, pair: Pair<H>, zero: H) returns (hash: H)
      ensures hash == if nIndex0 == -1 then zero else Climb(hash0, branch, nIndex0, pair)
    {
      if nIndex0 == -1 {
        return zero;
      }
      hash := hash0;
      var nIndex := nIndex0;
      assert branch[0..] == branch;
      for k := 0 to |branch|
        invariant Climb(hash, branch[k..], nIndex, pair) == Climb(hash0, branch, nIndex0, pair)
      {
        assert branch[k..][1..] == branch[k + 1..];
        if nIndex % 2 == 1 {
          hash := pair(branch[k], hash);
        } else {
          hash := pair(hash, branch[k]);
        }
        nIndex := nIndex / 2;
      }
    }
  }
}
