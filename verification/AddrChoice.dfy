/** Which entry CAddrMan picks: among the members of a new bucket, and among the entries
    of a tried bucket it shuffles. Random numbers are given. */
module AddrChoice {
  import opened AddrTables
  import opened Words

  // --- A new bucket ---------------------------------------------------------------------------

  /** The place of x in the order of std::set. */
  function Rank(s: set<int>, x: int): nat { |set y | y in s && y < x| }

  /** x is the oldest member at the four places picked, the first of them if several are. */
  ghost predicate OldestPicked(s: set<int>, m: map<int, Info>, picks: seq<nat>, x: int) {
    && |picks| == 4 && (forall k :: 0 <= k < 4 ==> picks[k] < |s|)
    && s <= m.Keys && x in s && Rank(s, x) in picks
    && forall y :: y in s && Rank(s, y) in picks ==>
         m[x].nTime < m[y].nTime || (m[x].nTime == m[y].nTime && x <= y)
  }

  /** The same, of the members below id. */
  ghost predicate OldestBelow(s: set<int>, m: map<int, Info>, picks: seq<nat>, id: int, x: int)
    requires s <= m.Keys
  {
    if x == -1 then forall y :: y in s && y < id ==> Rank(s, y) !in picks
    else
      && x in s && x < id && Rank(s, x) in picks
      && forall y :: y in s && y < id && Rank(s, y) in picks ==>
           m[x].nTime < m[y].nTime || (m[x].nTime == m[y].nTime && x <= y)
  }

  /** Every place holds a member, so the scan finds one. */
  lemma {:induction false} RankOnto(s: set<int>, k: nat) returns (x: int)
    requires k < |s|
    ensures x in s && Rank(s, x) == k
    decreases |s|
  {
    var top := Largest(s);
    var rest := s - {top};
    assert (set y | y in s && y < top) == rest;
    if k == |s| - 1 {
      x := top;
    } else {
      x := RankOnto(rest, k);
      assert (set y | y in s && y < x) == set y | y in rest && y < x;
    }
  }

  lemma {:induction false} RankZero(s: set<int>)
    requires forall x :: x in s ==> 0 <= x
    ensures Rank(s, 0) == 0
  {
    assert (set y | y in s && y < 0) == {};
  }

  lemma {:induction false} RankNext(s: set<int>, id: int)
    ensures Rank(s, id + 1) == Rank(s, id) + if id in s then 1 else 0
  {
    assert (set y | y in s && y < id + 1) == (set y | y in s && y < id) + if id in s then {id} else {};
  }

  lemma {:induction false} Largest(s: set<int>) returns (x: int)
    requires s != {}
    ensures x in s && forall y :: y in s ==> y <= x
    decreases |s|
  {
    x := Pick(s);
    var rest := s - {x};
    assert s == rest + {x};
    if rest != {} {
      var z := Largest(rest);
      if z > x { x := z; }
    }
  }

  // --- A tried bucket ---------------------------------------------------------------------------

  predicate Draws(picks: seq<nat>, n: nat, size: nat) {
    n <= |picks| && n <= size && forall i :: 0 <= i < n ==> i <= picks[i] < size
  }

  function Swap(s: seq<int>, i: nat, j: nat): (r: seq<int>)
    requires i < |s| && j < |s|
    ensures |r| == |s|
  {
    s[j := s[i]][i := s[j]]
  }

  /** The first n places filled in turn with the entries picked. */
  function Shuffled(s: seq<int>, picks: seq<nat>, n: nat): (r: seq<int>)
    requires Draws(picks, n, |s|)
    ensures |r| == |s|
  {
    if n == 0 then s else Swap(Shuffled(s, picks, n - 1), n - 1, picks[n - 1])
  }

  lemma {:induction false} ShuffledPermutes(s: seq<int>, picks: seq<nat>, n: nat)
    requires Draws(picks, n, |s|)
    ensures multiset(Shuffled(s, picks, n)) == multiset(s)
  {
    if n > 0 {
      ShuffledPermutes(s, picks, n - 1);
    }
  }

  lemma {:induction false} NoneShuffled(s: seq<int>)
    ensures Shuffled(s, [], 0) == s
  {}

  lemma {:induction false} MoreShuffled(s: seq<int>, picks: seq<nat>, i: nat, nPos: nat)
    requires Draws(picks, i, |s|) && |picks| == i <= nPos < |s|
    ensures Draws(picks + [nPos], i + 1, |s|)
    ensures Shuffled(s, picks + [nPos], i + 1) == Swap(Shuffled(s, picks, i), i, nPos)
  {
    ShuffledFrame(s, picks, [nPos], i);
  }

  lemma {:induction false} ShuffledFrame(s: seq<int>, picks: seq<nat>, more: seq<nat>, n: nat)
    requires Draws(picks, n, |s|) && Draws(picks + more, n, |s|)
    ensures Shuffled(s, picks + more, n) == Shuffled(s, picks, n)
  {
    if n > 0 {
      ShuffledFrame(s, picks, more, n - 1);
    }
  }

  /** Of the first n entries, o is the first of those seen least recently. */
  ghost predicate LeastRecent(s: seq<int>, m: map<int, Info>, n: nat, o: nat) {
    && o < n <= |s| && (forall k :: 0 <= k < n ==> s[k] in m)
    && (forall k :: 0 <= k < n ==> m[s[o]].nLastSuccess <= m[s[k]].nLastSuccess)
    && (forall k :: 0 <= k < o ==> m[s[o]].nLastSuccess < m[s[k]].nLastSuccess)
  }

  /** The position returned is the one the least recent entry was taken from, not the one
      it was moved to. So that entry is evicted exactly when it was picked in place. */
  lemma {:induction false} EvictsLeastRecent(s: seq<int>, picks: seq<nat>, n: nat, o: nat)
    requires NoRepeats(s) && Draws(picks, n, |s|) && o < n
    ensures Shuffled(s, picks, n)[picks[o]] == Shuffled(s, picks, n)[o] <==> picks[o] == o
  {
    ShuffledNoRepeats(s, picks, n);
  }

  /** The draws 4, 5, 6, 7 never leave the chosen entry at the position
      returned: the entry evicted is another one, whichever was chosen. */
  lemma {:induction false} NeverEvictsLeastRecent(s: seq<int>, o: nat)
    requires NoRepeats(s) && |s| >= 8 && o < 4
    ensures var picks := [4, 5, 6, 7];
      Draws(picks, 4, |s|) && Shuffled(s, picks, 4)[picks[o]] != Shuffled(s, picks, 4)[o]
  {
    hide Shuffled;
    EvictsLeastRecent(s, [4, 5, 6, 7], 4, o);
  }

  /** The draws 0, 1, 2, 3 always do. */
  lemma {:induction false} AlwaysEvictsLeastRecent(s: seq<int>, o: nat)
    requires NoRepeats(s) && |s| >= 4 && o < 4
    ensures var picks := [0, 1, 2, 3];
      Draws(picks, 4, |s|) && Shuffled(s, picks, 4)[picks[o]] == Shuffled(s, picks, 4)[o]
  {
    hide Shuffled;
    EvictsLeastRecent(s, [0, 1, 2, 3], 4, o);
  }

  lemma {:induction false} ShuffledNoRepeats(s: seq<int>, picks: seq<nat>, n: nat)
    requires NoRepeats(s) && Draws(picks, n, |s|)
    ensures NoRepeats(Shuffled(s, picks, n))
  {
    if n > 0 {
      ShuffledNoRepeats(s, picks, n - 1);
    }
  }
}
