/** The rows one Wagner round must produce, independent of sorting and storage. */
module EquihashMerges {
  import opened Words
  import opened IndexCodec
  import opened EquihashRows
  import opened EquihashTrees

  /** a and b collide on len bytes and share no index. */
  ghost predicate Match(a: Row, b: Row, len: nat) {
    && len <= |a.hash| == |b.hash| && |a.indices| == |b.indices|
    && HasCollision(a, b, len) && DistinctIndices(a, b)
  }

  /** The merges of x with the rows of ys that match it; the trimmed prefix is the
      collision. */
  ghost function MergesWith(x: Row, ys: seq<Row>, len: nat): multiset<Row>
    decreases |ys|
  {
    if ys == [] then multiset{} else One(x, ys[0], len) + MergesWith(x, ys[1..], len)
  }

  ghost function One(a: Row, b: Row, len: nat): multiset<Row> {
    if Match(a, b, len) then multiset{Merge(a, b, len)} else multiset{}
  }

  /** The merges of all unordered pairs of rows of X that match. */
  ghost function AllMerges(X: seq<Row>, len: nat): multiset<Row>
    decreases |X|
  {
    if X == [] then multiset{} else MergesWith(X[0], X[1..], len) + AllMerges(X[1..], len)
  }

  // --- Pairs are unordered ------------------------------------------------------------

  lemma {:induction false} MatchSymmetric(a: Row, b: Row, len: nat)
    ensures Match(a, b, len) <==> Match(b, a, len)
  {}

  /** Merging does not depend on which row comes first. */
  lemma {:induction false} MergeSymmetric(a: Row, b: Row, trim: nat)
    requires trim <= |a.hash| == |b.hash| && |a.indices| == |b.indices| && DistinctIndices(a, b)
    ensures Merge(a, b, trim) == Merge(b, a, trim)
  {
    hide Flat, MemLess;
    XorComm(a.hash, b.hash);
    MemLessFlat(a.indices, b.indices);
    MemLessFlat(b.indices, a.indices);
    MemLessTotal(a.indices, b.indices);
    if |a.indices| > 0 {
      DifferentLists(a.indices, b.indices);
    } else {
      assert a.indices == b.indices == [];
    }
  }

  lemma {:induction false} OneSymmetric(a: Row, b: Row, len: nat)
    ensures One(a, b, len) == One(b, a, len)
  {
    hide Merge;
    MatchSymmetric(a, b, len);
    if Match(a, b, len) { MergeSymmetric(a, b, len); }
  }

  lemma {:induction false} MergesWithConcat(x: Row, s: seq<Row>, t: seq<Row>, len: nat)
    ensures MergesWith(x, s + t, len) == MergesWith(x, s, len) + MergesWith(x, t, len)
    decreases |s|
  {
    hide One;
    if s == [] {
      assert s + t == t;
    } else {
      MergesWithConcat(x, s[1..], t, len);
      assert (s + t)[1..] == s[1..] + t;
    }
  }

  function Without(s: seq<Row>, i: nat): seq<Row>
    requires i < |s|
  {
    s[..i] + s[i + 1..]
  }

  lemma {:induction false} MergesWithout(x: Row, ys: seq<Row>, i: nat, len: nat)
    requires i < |ys|
    ensures MergesWith(x, ys, len) == One(x, ys[i], len) + MergesWith(x, Without(ys, i), len)
  {
    hide One;
    assert ys == ys[..i] + ([ys[i]] + ys[i + 1..]);
    MergesWithConcat(x, ys[..i], [ys[i]] + ys[i + 1..], len);
    MergesWithConcat(x, [ys[i]], ys[i + 1..], len);
    MergesWithConcat(x, ys[..i], ys[i + 1..], len);
    assert MergesWith(x, [ys[i]], len) == One(x, ys[i], len);
  }

  lemma {:induction false} WithoutMultiset(s: seq<Row>, i: nat)
    requires i < |s|
    ensures multiset(Without(s, i)) == multiset(s) - multiset{s[i]}
  {
    assert s == s[..i] + [s[i]] + s[i + 1..];
  }

  lemma {:induction false} MergesWithPermuted(x: Row, s: seq<Row>, t: seq<Row>, len: nat)
    requires multiset(s) == multiset(t)
    ensures MergesWith(x, s, len) == MergesWith(x, t, len)
    decreases |s|
  {
    hide One;
    if s == [] {
      assert |multiset(t)| == 0;
    } else {
      assert s[0] in multiset(t);
      var i :| 0 <= i < |t| && t[i] == s[0];
      WithoutMultiset(s, 0);
      WithoutMultiset(t, i);
      assert Without(s, 0) == s[1..];
      MergesWithPermuted(x, s[1..], Without(t, i), len);
      MergesWithout(x, t, i, len);
    }
  }

  /** Any row may be taken first. */
  lemma {:induction false} MoveFront(X: seq<Row>, i: nat, len: nat)
    requires i < |X|
    ensures AllMerges(X, len) == MergesWith(X[i], Without(X, i), len) + AllMerges(Without(X, i), len)
    decreases i
  {
    hide One, MergesWith;
    if i == 0 {
      assert Without(X, 0) == X[1..];
    } else {
      var y, x, tail := X[0], X[i], X[1..];
      var rest := Without(tail, i - 1);
      MoveFront(tail, i - 1, len);
      MergesWithout(y, tail, i - 1, len);
      assert Without(X, i) == [y] + rest;
      assert ([y] + rest)[1..] == rest;
      MergesWithout(x, [y] + rest, 0, len);
      assert Without([y] + rest, 0) == rest;
      OneSymmetric(x, y, len);
    }
  }

  /** The merges of a table do not depend on the order of its rows, so sorting is
      free to choose among equal keys. */
  lemma {:induction false} AllMergesPermuted(X: seq<Row>, Y: seq<Row>, len: nat)
    requires multiset(X) == multiset(Y)
    ensures AllMerges(X, len) == AllMerges(Y, len)
    decreases |X|
  {
    hide MergesWith;
    if X == [] {
      assert |multiset(Y)| == 0;
    } else {
      assert X[0] in multiset(Y);
      var i :| 0 <= i < |Y| && Y[i] == X[0];
      WithoutMultiset(X, 0);
      WithoutMultiset(Y, i);
      assert Without(X, 0) == X[1..];
      AllMergesPermuted(X[1..], Without(Y, i), len);
      MergesWithPermuted(X[0], X[1..], Without(Y, i), len);
      MoveFront(Y, i, len);
    }
  }

  // --- No merge comes twice --------------------------------------------------------------

  /** Rows of one width with different index lists. */
  ghost predicate NoTwins(X: seq<Row>, count: nat) {
    && (forall i :: 0 <= i < |X| ==> |X[i].indices| == count)
    && (forall i, j :: 0 <= i < j < |X| ==> X[i].indices != X[j].indices)
  }

  /** A merged row tells which two index lists it was made from. */
  lemma {:induction false} PartsOfMerge(x: Row, y: Row, a: Row, b: Row, len: nat)
    requires Match(x, y, len) && Match(a, b, len) && |x.indices| == |a.indices|
    requires Merge(x, y, len) == Merge(a, b, len)
    ensures (x.indices == a.indices && y.indices == b.indices) || (x.indices == b.indices && y.indices == a.indices)
  {
    hide MemLess, Flat;
    var l, h := Merge(x, y, len).indices, |x.indices|;
    assert (l[..h] == x.indices && l[h..] == y.indices) || (l[..h] == y.indices && l[h..] == x.indices);
    assert (l[..h] == a.indices && l[h..] == b.indices) || (l[..h] == b.indices && l[h..] == a.indices);
  }

  lemma {:induction false} MergesWithOnce(x: Row, ys: seq<Row>, len: nat, count: nat, z: Row)
    requires NoTwins(ys, count) && |x.indices| == count
    ensures MergesWith(x, ys, len)[z] <= 1
    decreases |ys|
  {
    hide Match, Merge;
    if ys != [] {
      MergesWithOnce(x, ys[1..], len, count, z);
      if z in One(x, ys[0], len) && z in MergesWith(x, ys[1..], len) {
        var j := MergeWithWitness(x, ys[1..], len, z);
        PartsOfMerge(x, ys[0], x, ys[1..][j], len);
        assert false;
      }
    }
  }

  lemma {:induction false} AllMergesOnce(X: seq<Row>, len: nat, count: nat, z: Row)
    requires NoTwins(X, count)
    ensures AllMerges(X, len)[z] <= 1
    decreases |X|
  {
    hide Match, Merge, MergesWith;
    if X != [] {
      AllMergesOnce(X[1..], len, count, z);
      MergesWithOnce(X[0], X[1..], len, count, z);
      if z in MergesWith(X[0], X[1..], len) && z in AllMerges(X[1..], len) {
        var j := MergeWithWitness(X[0], X[1..], len, z);
        var a, b := MergeWitness(X[1..], len, z);
        PartsOfMerge(X[0], X[1..][j], X[1..][a], X[1..][b], len);
        assert false;
      }
    }
  }

  // --- Groups ----------------------------------------------------------------------------

  ghost predicate NoCrossMatch(s: seq<Row>, t: seq<Row>, len: nat) {
    forall i, j :: 0 <= i < |s| && 0 <= j < |t| ==> !Match(s[i], t[j], len)
  }

  lemma {:induction false} NoMerges(x: Row, ys: seq<Row>, len: nat)
    requires forall j :: 0 <= j < |ys| ==> !Match(x, ys[j], len)
    ensures MergesWith(x, ys, len) == multiset{}
    decreases |ys|
  {
    hide Match;
    if ys != [] {
      forall j | 0 <= j < |ys[1..]| ensures !Match(x, ys[1..][j], len) { assert ys[1..][j] == ys[j + 1]; }
      NoMerges(x, ys[1..], len);
    }
  }

  /** Groups that do not match across can be merged separately. */
  lemma {:induction false} AllMergesConcat(s: seq<Row>, t: seq<Row>, len: nat)
    requires NoCrossMatch(s, t, len)
    ensures AllMerges(s + t, len) == AllMerges(s, len) + AllMerges(t, len)
    decreases |s|
  {
    hide MergesWith, Match;
    if s == [] {
      assert s + t == t;
    } else {
      assert (s + t)[1..] == s[1..] + t;
      MergesWithConcat(s[0], s[1..], t, len);
      NoMerges(s[0], t, len);
      AllMergesConcat(s[1..], t, len);
    }
  }

  // --- Membership --------------------------------------------------------------------------

  lemma {:induction false} MergeWithWitness(x: Row, ys: seq<Row>, len: nat, row: Row) returns (j: nat)
    requires row in MergesWith(x, ys, len)
    ensures j < |ys| && Match(x, ys[j], len) && row == Merge(x, ys[j], len)
    decreases |ys|
  {
    hide Match, Merge;
    if row in One(x, ys[0], len) {
      j := 0;
    } else {
      j := MergeWithWitness(x, ys[1..], len, row);
      j := j + 1;
    }
  }

  lemma {:induction false} MergeWitness(X: seq<Row>, len: nat, row: Row) returns (i: nat, j: nat)
    requires row in AllMerges(X, len)
    ensures i < j < |X| && Match(X[i], X[j], len) && row == Merge(X[i], X[j], len)
    decreases |X|
  {
    hide MergesWith, Match, Merge;
    if row in MergesWith(X[0], X[1..], len) {
      j := MergeWithWitness(X[0], X[1..], len, row);
      i, j := 0, j + 1;
    } else {
      i, j := MergeWitness(X[1..], len, row);
      i, j := i + 1, j + 1;
    }
  }

  lemma {:induction false} MergeIncluded(X: seq<Row>, i: nat, j: nat, len: nat)
    requires i < j < |X| && Match(X[i], X[j], len)
    ensures Merge(X[i], X[j], len) in AllMerges(X, len)
    decreases i
  {
    hide MergesWith, Match, Merge;
    if i == 0 {
      assert X[1..][j - 1] == X[j];
      MergesWithout(X[0], X[1..], j - 1, len);
    } else {
      MergeIncluded(X[1..], i - 1, j - 1, len);
    }
  }
}
