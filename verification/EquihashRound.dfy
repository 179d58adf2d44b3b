/** One round of Equihash::BasicSolve, storing its results over the table it is
    still scanning (src/equihash.cpp, steps 2a to 2g). */
module EquihashRound {
  import opened Words
  import opened IndexCodec
  import opened EquihashRows
  import opened EquihashTrees
  import opened EquihashMerges

  // --- Order by hash prefix ------------------------------------------------------------

  /** memcmp(s, t, len) < 0 on hash bytes. */
  predicate HashLess(s: seq<bv8>, t: seq<bv8>)
    requires |s| == |t|
  {
    s != [] && (s[0] < t[0] || (s[0] == t[0] && HashLess(s[1..], t[1..])))
  }

  lemma {:induction false} HashLessTotal(s: seq<bv8>, t: seq<bv8>)
    requires |s| == |t|
    ensures !HashLess(s, t) && !HashLess(t, s) ==> s == t
    ensures !(HashLess(s, t) && HashLess(t, s))
  {
    if s != [] {
      HashLessTotal(s[1..], t[1..]);
      assert s == [s[0]] + s[1..] && t == [t[0]] + t[1..];
    }
  }

  lemma {:induction false} HashLessTransitive(s: seq<bv8>, t: seq<bv8>, u: seq<bv8>)
    requires |s| == |t| == |u| && !HashLess(t, s) && !HashLess(u, t)
    ensures !HashLess(u, s)
  {
    if s != [] && s[0] == t[0] == u[0] { HashLessTransitive(s[1..], t[1..], u[1..]); }
  }

  /** Every row has at least len hash bytes. */
  ghost predicate Wide(X: seq<Row>, len: nat) {
    forall i :: 0 <= i < |X| ==> len <= |X[i].hash|
  }

  /** CompareSR(len). */
  predicate CompareSR(a: Row, b: Row, len: nat)
    requires len <= |a.hash| && len <= |b.hash|
  {
    HashLess(a.hash[..len], b.hash[..len])
  }

  ghost predicate SortedRows(X: seq<Row>, len: nat)
    requires Wide(X, len)
  {
    forall i, j :: 0 <= i < j < |X| ==> !CompareSR(X[j], X[i], len)
  }

  /** std::sort with CompareSR: some ordered permutation. */
  method SortRows(X: seq<Row>, len: nat) returns (Y: seq<Row>)
    requires Wide(X, len)
    ensures multiset(Y) == multiset(X) && |Y| == |X| && Wide(Y, len) && SortedRows(Y, len)
  {
    Y := [];
    for i := 0 to |X|
      invariant multiset(Y) == multiset(X[..i]) && |Y| == i && Wide(Y, len) && SortedRows(Y, len)
    {
      assert X[..i + 1] == X[..i] + [X[i]];
      Y := InsertRow(Y, X[i], len);
    }
    assert X[..|X|] == X;
  }

  method InsertRow(Y: seq<Row>, x: Row, len: nat) returns (Z: seq<Row>)
    requires Wide(Y, len) && len <= |x.hash| && SortedRows(Y, len)
    ensures multiset(Z) == multiset(Y) + multiset{x} && |Z| == |Y| + 1 && Wide(Z, len) && SortedRows(Z, len)
  {
    hide CompareSR;
    var p := |Y|;
    while p > 0 && CompareSR(x, Y[p - 1], len)
      invariant 0 <= p <= |Y|
      invariant forall j :: p <= j < |Y| ==> !CompareSR(Y[j], x, len)
    {
      LessIsOneWay(x, Y[p - 1], len);
      p := p - 1;
    }
    Z := Y[..p] + [x] + Y[p..];
    InsertedAt(Y, x, p);
    InsertedSorted(Y, x, p, len);
  }

  lemma {:induction false} InsertedSorted(Y: seq<Row>, x: Row, p: nat, len: nat)
    requires Wide(Y, len) && len <= |x.hash| && SortedRows(Y, len) && p <= |Y|
    requires forall j :: p <= j < |Y| ==> !CompareSR(Y[j], x, len)
    requires p > 0 ==> !CompareSR(x, Y[p - 1], len)
    ensures var Z := Y[..p] + [x] + Y[p..]; Wide(Z, len) && SortedRows(Z, len)
  {
    hide CompareSR, Inserted;
    var Z := Y[..p] + [x] + Y[p..];
    InsertedAt(Y, x, p);
    assert Wide(Z, len);
    forall i, j | 0 <= i < j < |Z| ensures !CompareSR(Z[j], Z[i], len) {
      InsertedPair(Y, x, p, i, j, len);
    }
  }

  lemma {:induction false} InsertedAt(Y: seq<Row>, x: Row, p: nat)
    requires p <= |Y|
    ensures multiset(Y[..p] + [x] + Y[p..]) == multiset(Y) + multiset{x}
    ensures forall i :: 0 <= i <= |Y| ==> (Y[..p] + [x] + Y[p..])[i] == Inserted(Y, x, p, i)
  {
    assert Y == Y[..p] + Y[p..];
  }

  function Inserted(Y: seq<Row>, x: Row, p: nat, i: nat): Row
    requires p <= |Y| && i <= |Y|
  {
    if i < p then Y[i] else if i == p then x else Y[i - 1]
  }

  lemma {:induction false} InsertedPair(Y: seq<Row>, x: Row, p: nat, i: nat, j: nat, len: nat)
    requires Wide(Y, len) && len <= |x.hash| && SortedRows(Y, len) && p <= |Y| && i < j <= |Y|
    requires forall j :: p <= j < |Y| ==> !CompareSR(Y[j], x, len)
    requires p > 0 ==> !CompareSR(x, Y[p - 1], len)
    ensures !CompareSR(Inserted(Y, x, p, j), Inserted(Y, x, p, i), len)
  {
    hide CompareSR;
    if j == p && i < p - 1 { NotLessTransitive(Y[i], Y[p - 1], x, len); }
  }

  lemma {:induction false} LessIsOneWay(a: Row, b: Row, len: nat)
    requires len <= |a.hash| && len <= |b.hash| && CompareSR(a, b, len)
    ensures !CompareSR(b, a, len)
  {
    HashLessTotal(a.hash[..len], b.hash[..len]);
  }

  lemma {:induction false} NotLessTransitive(a: Row, b: Row, c: Row, len: nat)
    requires len <= |a.hash| && len <= |b.hash| && len <= |c.hash|
    requires !CompareSR(b, a, len) && !CompareSR(c, b, len)
    ensures !CompareSR(c, a, len)
  {
    HashLessTransitive(a.hash[..len], b.hash[..len], c.hash[..len]);
  }

  /** In a sorted table rows with one prefix are adjacent. */
  lemma {:induction false} BetweenEqual(X: seq<Row>, len: nat, i: nat, j: nat, k: nat)
    requires Wide(X, len) && SortedRows(X, len) && i <= j <= k < |X|
    requires HasCollision(X[i], X[k], len)
    ensures HasCollision(X[i], X[j], len)
  {
    if i < j < k {
      HashLessTotal(X[i].hash[..len], X[j].hash[..len]);
    }
  }

  // --- Groups of colliding rows -----------------------------------------------------------

  /** No row before i collides with a row from i on. */
  ghost predicate Boundary(X: seq<Row>, len: nat, i: nat)
    requires Wide(X, len) && i <= |X|
  {
    forall a, b :: 0 <= a < i <= b < |X| ==> !HasCollision(X[a], X[b], len)
  }

  /** Rows of one table round: one hash length, one index count. */
  ghost predicate Uniform(X: seq<Row>, hashLen: nat, count: nat) {
    forall i :: 0 <= i < |X| ==> |X[i].hash| == hashLen && |X[i].indices| == count
  }

  lemma {:induction false} SuffixUniform(S: seq<Row>, X: seq<Row>, i: nat, hashLen: nat, count: nat)
    requires Uniform(S, hashLen, count) && i <= |S| == |X| && X[i..] == S[i..]
    ensures Uniform(X[i..], hashLen, count)
    ensures forall a :: i <= a < |X| ==> X[a] == S[a]
  {
    forall a | i <= a < |X| ensures X[a] == S[a] { assert X[i..][a - i] == S[i..][a - i]; }
  }

  /** Step 2b: the end of the group that starts at i, read off the unread rows. */
  method GroupEnd(X: seq<Row>, ghost S: seq<Row>, i: nat, len: nat, ghost hashLen: nat, ghost count: nat)
      returns (j: nat)
    requires Uniform(S, hashLen, count) && len <= hashLen && SortedRows(S, len)
    requires i < |S| == |X| && Boundary(S, len, i) && X[i..] == S[i..]
    ensures 1 <= j && i + j <= |S| && Boundary(S, len, i + j)
    ensures forall a :: i <= a < i + j ==> HasCollision(S[i], S[a], len)
  {
    hide SortedRows;
    SuffixUniform(S, X, i, hashLen, count);
    j := 1;
    while i + j < |X| && HasCollision(X[i], X[i + j], len)
      invariant 1 <= j && i + j <= |X|
      invariant forall a :: i <= a < i + j ==> HasCollision(S[i], S[a], len)
    {
      j := j + 1;
    }
    forall a, b | 0 <= a < i + j <= b < |S| ensures !HasCollision(S[a], S[b], len) {
      if i <= a && HasCollision(S[a], S[b], len) {
        assert HasCollision(S[i], S[a], len);
        BetweenEqual(S, len, i, i + j, b);
        assert false;
      }
    }
  }

  /** Step 2c: the merges of all pairs inside one group. */
  method CollideGroup(X: seq<Row>, i: nat, j: nat, len: nat, Xc0: seq<Row>, ghost hashLen: nat, ghost count: nat)
    returns (Xc: seq<Row>)
    requires i + j <= |X| && Group(X[i..i + j], hashLen, count, len)
    ensures multiset(Xc) == multiset(Xc0) + AllMerges(X[i..i + j], len)
  {
    hide MergesWith, AllMerges, Merge, DistinctIndices;
    Xc := Xc0;
    ghost var G := X[i..i + j];
    GroupMatches(G, len, hashLen, count);
    ghost var goal := multiset(Xc0) + AllMerges(G, len);
    assert G[0..] == G;
    var l := 0;
    while l < j - 1
      invariant 0 <= l <= j
      invariant multiset(Xc) + AllMerges(G[l..], len) == goal
    {
      AllMergesStep(G, l, len);
      ghost var tail := AllMerges(G[l + 1..], len);
      var m := l + 1;
      while m < j
        invariant l < m <= j
        invariant multiset(Xc) + MergesWith(G[l], G[m..], len) + tail == goal
      {
        MergesWithStep(G, l, m, len);
        assert Match(G[l], G[m], len) <==> DistinctIndices(G[l], G[m]);
        assert G[l] == X[i + l] && G[m] == X[i + m];
        if DistinctIndices(X[i + l], X[i + m]) {
          Xc := Xc + [Merge(X[i + l], X[i + m], len)];
        }
        m := m + 1;
      }
      NoMoreMerges(G, l, j, len);
      l := l + 1;
    }
    LastRow(G, l, len);
  }

  ghost predicate Group(G: seq<Row>, hashLen: nat, count: nat, len: nat) {
    Uniform(G, hashLen, count) && len <= hashLen && forall a :: 0 <= a < |G| ==> HasCollision(G[0], G[a], len)
  }

  lemma {:induction false} GroupMatches(G: seq<Row>, len: nat, hashLen: nat, count: nat)
    requires Group(G, hashLen, count, len)
    ensures forall l, m :: 0 <= l < |G| && 0 <= m < |G| ==> (Match(G[l], G[m], len) <==> DistinctIndices(G[l], G[m]))
  {
    hide DistinctIndices;
    forall l, m | 0 <= l < |G| && 0 <= m < |G| ensures Match(G[l], G[m], len) <==> DistinctIndices(G[l], G[m]) {
      assert HasCollision(G[0], G[l], len) && HasCollision(G[0], G[m], len);
    }
  }

  lemma {:induction false} AllMergesStep(G: seq<Row>, l: nat, len: nat)
    requires l < |G|
    ensures AllMerges(G[l..], len) == MergesWith(G[l], G[l + 1..], len) + AllMerges(G[l + 1..], len)
  {
    hide MergesWith;
    assert G[l..][1..] == G[l + 1..];
  }

  lemma {:induction false} MergesWithStep(G: seq<Row>, l: nat, m: nat, len: nat)
    requires l < |G| && m < |G|
    ensures MergesWith(G[l], G[m..], len) == One(G[l], G[m], len) + MergesWith(G[l], G[m + 1..], len)
  {
    assert G[m..][1..] == G[m + 1..];
  }

  lemma {:induction false} NoMoreMerges(G: seq<Row>, l: nat, m: nat, len: nat)
    requires l < |G| && m == |G|
    ensures MergesWith(G[l], G[m..], len) == multiset{}
  {}

  lemma {:induction false} LastRow(G: seq<Row>, l: nat, len: nat)
    requires l <= |G| <= l + 1
    ensures AllMerges(G[l..], len) == multiset{}
  {
    if l < |G| {
      AllMergesStep(G, l, len);
      NoMoreMerges(G, l, l + 1, len);
    }
    assert AllMerges([], len) == multiset{};
  }

  /** Steps 2d and 2e: move results into the table below limit, last ones first. */
  method StoreInPlace(X0: seq<Row>, Xc0: seq<Row>, posFree0: nat, limit: nat)
    returns (X: seq<Row>, Xc: seq<Row>, posFree: nat)
    requires posFree0 <= limit <= |X0|
    ensures |X| == |X0| && posFree0 <= posFree <= limit
    ensures X[posFree..] == X0[posFree..]
    ensures multiset(X[..posFree]) + multiset(Xc) == multiset(X0[..posFree0]) + multiset(Xc0)
    ensures Xc == [] || posFree == limit
  {
    X, Xc, posFree := X0, Xc0, posFree0;
    while posFree < limit && |Xc| > 0
      invariant |X| == |X0| && posFree0 <= posFree <= limit
      invariant X[posFree..] == X0[posFree..]
      invariant multiset(X[..posFree]) + multiset(Xc) == multiset(X0[..posFree0]) + multiset(Xc0)
    {
      var last := Xc[|Xc| - 1];
      assert Xc == Xc[..|Xc| - 1] + [last];
      var X' := X[posFree := last];
      assert X'[..posFree + 1] == X[..posFree] + [last];
      assert X'[posFree + 1..] == X[posFree..][1..] == X0[posFree..][1..] == X0[posFree + 1..];
      X := X';
      posFree := posFree + 1;
      Xc := Xc[..|Xc| - 1];
    }
  }

  lemma {:induction false} CrossBoundary(S: seq<Row>, len: nat, i: nat, k: nat)
    requires Wide(S, len) && i <= k <= |S| && Boundary(S, len, i)
    ensures AllMerges(S[..k], len) == AllMerges(S[..i], len) + AllMerges(S[i..k], len)
  {
    hide AllMerges;
    forall a, b | 0 <= a < |S[..i]| && 0 <= b < |S[i..k]| ensures !Match(S[..i][a], S[i..k][b], len) {
      assert !HasCollision(S[a], S[i + b], len);
    }
    assert S[..k] == S[..i] + S[i..k];
    AllMergesConcat(S[..i], S[i..k], len);
  }

  /** What the scan has done when it stands at row i of the sorted table S: the
      rows from i on are unread and intact, and the stored and pending results are
      the merges of everything before i. */
  ghost predicate Scanned(S: seq<Row>, X: seq<Row>, Xc: seq<Row>, i: nat, posFree: nat, len: nat)
    requires Wide(S, len)
  {
    && i <= |S| == |X| && posFree <= i && Boundary(S, len, i)
    && X[i..] == S[i..]
    && (Xc == [] || posFree == i)
    && multiset(X[..posFree]) + multiset(Xc) == AllMerges(S[..i], len)
  }

  /** Steps 2b to 2d for one group. */
  method ScanGroup(X0: seq<Row>, Xc0: seq<Row>, i: nat, posFree0: nat, len: nat,
                   ghost S: seq<Row>, ghost hashLen: nat, ghost count: nat)
    returns (X: seq<Row>, Xc: seq<Row>, posFree: nat, j: nat)
    requires Uniform(S, hashLen, count) && len <= hashLen && SortedRows(S, len)
    requires i < |S| && Scanned(S, X0, Xc0, i, posFree0, len)
    ensures 1 <= j && Scanned(S, X, Xc, i + j, posFree, len)
  {
    hide AllMerges, Boundary, HasCollision, SortedRows;
    j := GroupEnd(X0, S, i, len, hashLen, count);
    CrossBoundary(S, len, i, i + j);
    assert X0[i..i + j] == X0[i..][..j] == S[i..][..j] == S[i..i + j];
    GroupOf(S, i, j, hashLen, count, len);
    Xc := CollideGroup(X0, i, j, len, Xc0, hashLen, count);
    X, Xc, posFree := StoreInPlace(X0, Xc, posFree0, i + j);
    assert X[i + j..] == X[posFree..][i + j - posFree..] == X0[posFree..][i + j - posFree..];
    assert X0[posFree..][i + j - posFree..] == X0[i + j..] == X0[i..][j..] == S[i..][j..] == S[i + j..];
  }

  lemma {:induction false} GroupOf(S: seq<Row>, i: nat, j: nat, hashLen: nat, count: nat, len: nat)
    requires Uniform(S, hashLen, count) && len <= hashLen && 1 <= j && i + j <= |S|
    requires forall a :: i <= a < i + j ==> HasCollision(S[i], S[a], len)
    ensures Group(S[i..i + j], hashLen, count, len)
  {}

  /** Steps 2a to 2g. */
  method Round(X0: seq<Row>, len: nat, ghost hashLen: nat, ghost count: nat) returns (X: seq<Row>)
    requires X0 != [] && Uniform(X0, hashLen, count) && len <= hashLen
    ensures multiset(X) == AllMerges(X0, len)
  {
    hide AllMerges, Boundary, SortedRows, Scanned, Uniform;
    UniformWide(X0, hashLen, count, len);
    X := SortRows(X0, len);
    ghost var S := X;
    UniformPermuted(X0, S, hashLen, count);
    AllMergesPermuted(X0, S, len);
    var i: nat, posFree: nat := 0, 0;
    var Xc: seq<Row> := [];
    ScanStarts(S, len);
    while i < |X| - 1
      invariant 0 <= i <= |S| == |X| && Scanned(S, X, Xc, i, posFree, len)
    {
      var j;
      X, Xc, posFree, j := ScanGroup(X, Xc, i, posFree, len, S, hashLen, count);
      ScanBounds(S, X, Xc, i + j, posFree, len);
      i := i + j;
    }
    ScanEnds(S, X, Xc, i, posFree, len);
    X, Xc, posFree := StoreInPlace(X, Xc, posFree, |X|);
    if |Xc| > 0 {
      assert X[..posFree] == X;
      X := X + Xc;
    } else if posFree < |X| {
      X := X[..posFree];
    } else {
      assert X[..posFree] == X;
    }
  }

  lemma {:induction false} UniformWide(X: seq<Row>, hashLen: nat, count: nat, len: nat)
    requires Uniform(X, hashLen, count) && len <= hashLen
    ensures Wide(X, len)
  {}

  lemma {:induction false} UniformPermuted(X: seq<Row>, Y: seq<Row>, hashLen: nat, count: nat)
    requires Uniform(X, hashLen, count) && multiset(X) == multiset(Y)
    ensures Uniform(Y, hashLen, count)
  {
    forall i | 0 <= i < |Y| ensures |Y[i].hash| == hashLen && |Y[i].indices| == count {
      assert Y[i] in multiset(X);
    }
  }

  lemma {:induction false} ScanStarts(S: seq<Row>, len: nat)
    requires Wide(S, len)
    ensures Scanned(S, S, [], 0, 0, len)
  {
    assert S[..0] == [];
    assert AllMerges([], len) == multiset{};
  }

  lemma {:induction false} ScanBounds(S: seq<Row>, X: seq<Row>, Xc: seq<Row>, i: nat, posFree: nat, len: nat)
    requires Wide(S, len) && Scanned(S, X, Xc, i, posFree, len)
    ensures i <= |S| == |X| && posFree <= i
  {}

  /** A last row on its own merges with nothing. */
  lemma {:induction false} ScanEnds(S: seq<Row>, X: seq<Row>, Xc: seq<Row>, i: nat, posFree: nat, len: nat)
    requires Wide(S, len) && Scanned(S, X, Xc, i, posFree, len) && |S| <= i + 1
    ensures posFree <= |X|
    ensures multiset(X[..posFree]) + multiset(Xc) == AllMerges(S, len)
  {
    hide AllMerges;
    CrossBoundary(S, len, i, |S|);
    assert S[..|S|] == S;
    assert S[i..|S|] == S[i..];
    LastRow(S, i, len);
  }
}
