/** Moves between the new and the tried tables: leaving a bucket, entering one,
    promotion and eviction. */
module AddrMoves {
  import opened AddrTables
  import opened AddrSteps

  // --- The view after a removal ----------------------------------------------------------

  /** One bucket fewer for a; with none left the address is forgotten. */
  function LeaveBucket(v: View, a: NetAddr, b: nat): View
    requires a in v
  {
    if v[a].buckets == {b} then v - {a} else v[a := v[a].(buckets := v[a].buckets - {b})]
  }

  lemma {:induction false} DropView(t: Tables, h: Hashing, b: nat, id: int, pend: int)
    requires InvPending(t, h, pend) && b < |t.vvNew| && id in t.vvNew[b] && id != pend
    ensures id in t.mapInfo && IdsOk(Dropped(t, b, id))
    ensures ViewOf(Dropped(t, b, id)) == LeaveBucket(ViewOf(t), t.mapInfo[id].service.net, b)
  {
    hide NewOk, TriedOk, FlagsOk, CountsOk;
    DropKeeps(t, h, b, id, pend);
    InBucket(t, b, id, pend);
    ViewAt(t, id);
    OneBucket(t.vvNew, b, id);
    if t.mapInfo[id].nRefCount == 1 {
      DropLastView(t, b, id);
    } else {
      DropOneView(t, b, id);
    }
  }

  lemma {:induction false} OneBucket(vv: seq<set<int>>, b: nat, id: int)
    requires b < |vv| && id in vv[b]
    ensures Count(vv, id) == 1 <==> Buckets(vv, id) == {b}
  {
    CountBuckets(vv, id);
    var s := Buckets(vv, id);
    assert b in s;
    if |s| == 1 {
      assert |s - {b}| == 0;
      assert s == {b};
    }
  }

  lemma {:induction false} DropOneView(t: Tables, b: nat, id: int)
    requires IdsOk(t) && RandomOk(t) && id in t.mapInfo && b < |t.vvNew| && t.mapInfo[id].nRefCount != 1
    requires IdsOk(Dropped(t, b, id))
    ensures var a := t.mapInfo[id].service.net;
      a in ViewOf(t) && ViewOf(Dropped(t, b, id)) ==
        ViewOf(t)[a := ViewOf(t)[a].(buckets := ViewOf(t)[a].buckets - {b})]
  {
    hide RandomOk, Buckets;
    var t' := Dropped(t, b, id);
    forall x ensures Buckets(t'.vvNew, x) == if x == id then Buckets(t.vvNew, x) - {b} else Buckets(t.vvNew, x) {
      BucketsUpdate(t.vvNew, b, t.vvNew[b] - {id}, x);
      BucketsSame(t.vvNew, b, x);
    }
    ViewAt(t, id);
    ViewChange(t, t', id);
  }

  lemma {:induction false} BucketsSame(vv: seq<set<int>>, b: nat, x: int)
    requires b < |vv|
    ensures b in Buckets(vv, x) <==> x in vv[b]
  {}

  lemma {:induction false} DropLastView(t: Tables, b: nat, id: int)
    requires IdsOk(t) && RandomOk(t) && id in t.mapInfo && b < |t.vvNew| && t.mapInfo[id].nRefCount == 1
    requires IdsOk(Dropped(t, b, id))
    ensures ViewOf(Dropped(t, b, id)) == ViewOf(t) - {t.mapInfo[id].service.net}
  {
    hide Buckets, RandomOk, Swapped, Edit, Released, Erased, Dropped;
    DroppedIs(t, b, id);
    var i := t.mapInfo[id];
    var t1 := Edit(t, id, i.(nRefCount := 0));
    EditView(t, id, i.(nRefCount := 0));
    PositionOf(t, id);
    SwapView(t1, i.nRandomPos, |t.vRandom| - 1);
    EraseView(Swapped(t1, i.nRandomPos, |t.vRandom| - 1), b, id);
  }

  lemma {:induction false} EditView(t: Tables, id: int, i: Info)
    requires IdsOk(t) && RandomOk(t) && id in t.mapInfo && i == t.mapInfo[id].(nRefCount := i.nRefCount)
    ensures IdsOk(Edit(t, id, i)) && RandomOk(Edit(t, id, i)) && ViewOf(Edit(t, id, i)) == ViewOf(t)
    ensures Edit(t, id, i) == t.(mapInfo := Edit(t, id, i).mapInfo)
    ensures Edit(t, id, i).mapInfo.Keys == t.mapInfo.Keys && Edit(t, id, i).mapInfo[id] == i
  {
    hide Buckets;
    IdsFrame(t, Edit(t, id, i));
    RandomFrame(t, Edit(t, id, i));
    ViewAt(t, id);
    ViewChange(t, Edit(t, id, i), id);
  }

  lemma {:induction false} SwapView(t: Tables, p: nat, q: nat)
    requires IdsOk(t) && RandomOk(t) && p < |t.vRandom| && q < |t.vRandom|
    ensures var t' := Swapped(t, p, q);
      && IdsOk(t') && ViewOf(t') == ViewOf(t) && SwapsOnlyPositions(t, t')
      && t' == t.(mapInfo := t'.mapInfo, vRandom := t'.vRandom)
  {
    SwapRandomOk(t, p, q);
    SwapTables(t, p, q);
    PositionsView(t, Swapped(t, p, q));
  }

  lemma {:induction false} PositionsView(t: Tables, t': Tables)
    requires IdsOk(t) && SwapsOnlyPositions(t, t') && t' == t.(mapInfo := t'.mapInfo, vRandom := t'.vRandom)
    ensures IdsOk(t') && ViewOf(t') == ViewOf(t)
  {
    hide Buckets;
    IdsFrame(t, t');
    forall a | a in t.mapAddr ensures ViewOf(t')[a] == ViewOf(t)[a] {}
  }

  lemma {:induction false} SwapTables(t: Tables, p: nat, q: nat)
    requires RandomOk(t) && p < |t.vRandom| && q < |t.vRandom|
    ensures var t' := Swapped(t, p, q); t' == t.(mapInfo := t'.mapInfo, vRandom := t'.vRandom)
  {}

  lemma {:induction false} EraseView(t: Tables, b: nat, id: int)
    requires IdsOk(t) && id in t.mapInfo && b < |t.vvNew| && t.vRandom != []
    requires IdsOk(Released(Erased(t, id), b, id))
    ensures ViewOf(Released(Erased(t, id), b, id)) == ViewOf(t) - {t.mapInfo[id].service.net}
  {
    hide Buckets, EntryOf;
    var t' := Released(Erased(t, id), b, id);
    forall x | x in t'.mapAddr ensures ViewOf(t')[x] == ViewOf(t)[x] {
      var y := t.mapAddr[x];
      assert t.mapInfo[y].service.net == x && y != id;
      BucketsKept(t.vvNew, b, t.vvNew[b] - {id}, y);
    }
  }

  lemma {:induction false} BucketsKept(vv: seq<set<int>>, b: nat, s: set<int>, y: int)
    requires b < |vv| && (y in s <==> y in vv[b])
    ensures Buckets(vv[b := s], y) == Buckets(vv, y)
  {
    assert forall c :: c in Buckets(vv[b := s], y) <==> c in Buckets(vv, y);
  }

  // --- Entering a new bucket -----------------------------------------------------------------

  function Inserted(t: Tables, b: nat, id: int): Tables
    requires b < |t.vvNew|
  {
    t.(vvNew := t.vvNew[b := t.vvNew[b] + {id}])
  }

  lemma {:induction false} InsertKeeps(t: Tables, h: Hashing, b: nat, id: int)
    requires InvPending(t, h, id) && id in t.mapInfo && !t.mapInfo[id].fInTried
    requires b < |t.vvNew| && id !in t.vvNew[b] && |t.vvNew[b]| < NEW_BUCKET_SIZE
    ensures Inv(Inserted(t, b, id), h)
    ensures var a := t.mapInfo[id].service.net;
      a in ViewOf(t) && ViewOf(Inserted(t, b, id)) ==
        ViewOf(t)[a := ViewOf(t)[a].(buckets := ViewOf(t)[a].buckets + {b})]
  {
    hide TriedOk, CountsOk, RandomOk, FlagsOk, NewOk, Buckets;
    var t' := Inserted(t, b, id);
    IdsFrame(t, t');
    RandomFrame(t, t');
    TriedFrame(t, t', h);
    CountsFrame(t, t');
    FlagsFrame(t, t');
    InsertNew(t, b, id);
    forall x ensures Buckets(t'.vvNew, x) == if x == id then Buckets(t.vvNew, x) + {b} else Buckets(t.vvNew, x) {
      BucketsUpdate(t.vvNew, b, t.vvNew[b] + {id}, x);
      BucketsSame(t.vvNew, b, x);
    }
    ViewAt(t, id);
    ViewChange(t, t', id);
  }

  lemma {:induction false} FlagsFrame(t: Tables, t': Tables)
    requires FlagsOk(t) && t'.mapInfo == t.mapInfo
    ensures FlagsOk(t')
  {}

  lemma {:induction false} InsertNew(t: Tables, b: nat, id: int)
    requires IdsOk(t) && NewOk(t, id) && id in t.mapInfo && !t.mapInfo[id].fInTried
    requires b < |t.vvNew| && id !in t.vvNew[b] && |t.vvNew[b]| < NEW_BUCKET_SIZE
    ensures NewOk(Inserted(t, b, id), -1)
  {
    hide Count;
    var vv := t.vvNew[b := t.vvNew[b] + {id}];
    forall x ensures Count(vv, x) == Count(t.vvNew, x) + (if x == id then 1 else 0) {
      CountUpdate(t.vvNew, b, t.vvNew[b] + {id}, x);
    }
  }

  // --- Leaving all new buckets ------------------------------------------------------------------

  function Unlisted(vv: seq<set<int>>, id: int): (vv': seq<set<int>>)
    ensures |vv'| == |vv|
  {
    seq(|vv|, b requires 0 <= b < |vv| => vv[b] - {id})
  }

  lemma {:induction false} CountUnlisted(vv: seq<set<int>>, id: int, x: int)
    ensures Count(Unlisted(vv, id), x) == if x == id then 0 else Count(vv, x)
    decreases |vv|
  {
    if vv != [] {
      var n := |vv| - 1;
      CountUnlisted(vv[..n], id, x);
      assert Unlisted(vv, id)[..n] == Unlisted(vv[..n], id);
    }
  }

  lemma {:induction false} BucketsUnlisted(vv: seq<set<int>>, id: int, x: int)
    ensures Buckets(Unlisted(vv, id), x) == if x == id then {} else Buckets(vv, x)
  {}

  lemma {:induction false} UnlistedSize(vv: seq<set<int>>, id: int, b: nat)
    requires b < |vv|
    ensures |Unlisted(vv, id)[b]| == |vv[b]| - (if id in vv[b] then 1 else 0)
  {}

  // --- Promotion with room in the tried bucket -----------------------------------------------------

  /** MakeTried when the tried bucket has room. */
  function Promoted(t: Tables, h: Hashing, id: int): Tables
    requires id in t.mapInfo && |t.vvTried| == TRIED_BUCKET_COUNT
  {
    var i := t.mapInfo[id];
    var k := h.triedBucket(i.service);
    t.(mapInfo := t.mapInfo[id := i.(nRefCount := 0, fInTried := true)],
       vvNew := Unlisted(t.vvNew, id), nNew := t.nNew - 1,
       vvTried := t.vvTried[k := t.vvTried[k] + [id]], nTried := t.nTried + 1)
  }

  lemma {:induction false} PromoteKeeps(t: Tables, h: Hashing, id: int)
    requires Inv(t, h) && id in t.mapInfo && !t.mapInfo[id].fInTried
    requires |t.vvTried[h.triedBucket(t.mapInfo[id].service)]| < TRIED_BUCKET_SIZE
    ensures Inv(Promoted(t, h, id), h)
    ensures var a := t.mapInfo[id].service.net;
      a in ViewOf(t) && ViewOf(Promoted(t, h, id)) == ViewOf(t)[a := ViewOf(t)[a].(tried := true, buckets := {})]
  {
    hide TriedOk, CountsOk, RandomOk, FlagsOk, NewOk, Buckets;
    TriedBuckets(t, h);
    var t' := Promoted(t, h, id);
    IdsFrame(t, t');
    RandomFrame(t, t');
    PromoteFlags(t, h, id);
    PromoteNew(t, h, id);
    PromoteTried(t, h, id);
    forall x { BucketsUnlisted(t.vvNew, id, x); }
    ViewAt(t, id);
    ViewChange(t, t', id);
  }

  lemma {:induction false} PromoteFlags(t: Tables, h: Hashing, id: int)
    requires FlagsOk(t) && CountsOk(t) && id in t.mapInfo && !t.mapInfo[id].fInTried
      && |t.vvTried| == TRIED_BUCKET_COUNT
    ensures FlagsOk(Promoted(t, h, id)) && CountsOk(Promoted(t, h, id))
  {
    var m' := Promoted(t, h, id).mapInfo;
    assert TriedIds(m') == TriedIds(t.mapInfo) + {id};
    assert NewIds(m') == NewIds(t.mapInfo) - {id};
  }

  lemma {:induction false} PromoteNew(t: Tables, h: Hashing, id: int)
    requires IdsOk(t) && NewOk(t, -1) && id in t.mapInfo && |t.vvTried| == TRIED_BUCKET_COUNT
    ensures NewOk(Promoted(t, h, id), -1)
  {
    hide Count;
    var t' := Promoted(t, h, id);
    forall x { CountUnlisted(t.vvNew, id, x); }
    forall b | 0 <= b < |t'.vvNew| ensures |t'.vvNew[b]| <= NEW_BUCKET_SIZE { UnlistedSize(t.vvNew, id, b); }
  }

  lemma {:induction false} PromoteTried(t: Tables, h: Hashing, id: int)
    requires TriedOk(t, h) && id in t.mapInfo && !t.mapInfo[id].fInTried
    requires |t.vvTried[h.triedBucket(t.mapInfo[id].service)]| < TRIED_BUCKET_SIZE
    ensures TriedOk(Promoted(t, h, id), h)
  {
    var t', k := Promoted(t, h, id), h.triedBucket(t.mapInfo[id].service);
    forall b, n | 0 <= b < |t'.vvTried| && 0 <= n < |t'.vvTried[b]| ensures TriedMember(t', h, t'.vvTried[b][n], b) {
      if n < |t.vvTried[b]| { assert TriedMember(t, h, t.vvTried[b][n], b); }
    }
    forall n | 0 <= n < |t.vvTried[k]| ensures t.vvTried[k][n] != id { assert TriedMember(t, h, t.vvTried[k][n], k); }
  }

  // --- Promotion by eviction ----------------------------------------------------------------------------

  /** MakeTried when the tried bucket is full: the bucket has been shuffled to vt,
      the entry at pos goes back to the new bucket target. */
  function Exchanged(t: Tables, h: Hashing, id: int, vt: seq<int>, pos: nat, target: nat): Tables
    requires id in t.mapInfo && |t.vvTried| == TRIED_BUCKET_COUNT && pos < |vt| && vt[pos] in t.mapInfo
      && target < |t.vvNew|
  {
    var i, old' := t.mapInfo[id], vt[pos];
    var m := t.mapInfo[old' := t.mapInfo[old'].(fInTried := false, nRefCount := 1)];
    var vv := Unlisted(t.vvNew, id);
    t.(mapInfo := m[id := i.(nRefCount := 0, fInTried := true)],
       vvNew := vv[target := vv[target] + {old'}],
       vvTried := t.vvTried[h.triedBucket(i.service) := vt[pos := id]])
  }

  ghost predicate CanExchange(t: Tables, h: Hashing, id: int, vt: seq<int>, pos: nat, target: nat) {
    && Inv(t, h) && id in t.mapInfo && !t.mapInfo[id].fInTried
    && multiset(vt) == multiset(t.vvTried[h.triedBucket(t.mapInfo[id].service)])
    && pos < |vt| && target < |t.vvNew| && |Unlisted(t.vvNew, id)[target]| < NEW_BUCKET_SIZE
  }

  lemma {:induction false} Evictee(t: Tables, h: Hashing, id: int, vt: seq<int>, pos: nat, target: nat)
    requires CanExchange(t, h, id, vt, pos, target)
    ensures vt[pos] in t.mapInfo && vt[pos] != id && t.mapInfo[vt[pos]].fInTried
    ensures h.triedBucket(t.mapInfo[vt[pos]].service) == h.triedBucket(t.mapInfo[id].service)
    ensures NoRepeats(vt) && |vt| <= TRIED_BUCKET_SIZE
    ensures forall x :: x in vt <==> x in t.vvTried[h.triedBucket(t.mapInfo[id].service)]
  {
    hide RandomOk, NewOk, FlagsOk, CountsOk, IdsOk;
    var k := h.triedBucket(t.mapInfo[id].service);
    var s := t.vvTried[k];
    forall x ensures x in vt <==> x in s { assert x in multiset(vt) <==> x in multiset(s); }
    assert vt[pos] in s;
    var n :| 0 <= n < |s| && s[n] == vt[pos];
    assert TriedMember(t, h, s[n], k);
    PermutedNoRepeats(s, vt);
    assert |multiset(vt)| == |multiset(s)|;
  }

  lemma {:induction false} PermutedNoRepeats(s: seq<int>, s': seq<int>)
    requires NoRepeats(s) && multiset(s) == multiset(s')
    ensures NoRepeats(s')
  {
    forall i, j | 0 <= i < j < |s'| ensures s'[i] != s'[j] {
      if s'[i] == s'[j] {
        Twice(s', i, j);
        Once(s, s'[i]);
        assert false;
      }
    }
  }

  lemma {:induction false} Twice(s: seq<int>, i: nat, j: nat)
    requires i < j < |s| && s[i] == s[j]
    ensures multiset(s)[s[i]] >= 2
  {
    assert s == s[..i] + [s[i]] + s[i + 1..j] + [s[j]] + s[j + 1..];
  }

  lemma {:induction false} Once(s: seq<int>, x: int)
    requires NoRepeats(s)
    ensures multiset(s)[x] <= 1
  {
    if s != [] {
      var n := |s| - 1;
      Once(s[..n], x);
      assert s == s[..n] + [s[n]];
      if x == s[n] { assert x !in s[..n]; }
    }
  }

  lemma {:induction false} ExchangeKeeps(t: Tables, h: Hashing, id: int, vt: seq<int>, pos: nat, target: nat)
    requires CanExchange(t, h, id, vt, pos, target)
    ensures vt[pos] in t.mapInfo && |t.vvTried| == TRIED_BUCKET_COUNT
    ensures Inv(Exchanged(t, h, id, vt, pos, target), h)
    ensures var a, c := t.mapInfo[id].service.net, t.mapInfo[vt[pos]].service.net;
      var v := ViewOf(t);
      a in v && c in v && a != c &&
      ViewOf(Exchanged(t, h, id, vt, pos, target)) ==
        v[a := v[a].(tried := true, buckets := {})][c := v[c].(tried := false, buckets := {target})]
  {
    hide TriedOk, CountsOk, RandomOk, FlagsOk, NewOk;
    Evictee(t, h, id, vt, pos, target);
    TriedBuckets(t, h);
    var t' := Exchanged(t, h, id, vt, pos, target);
    IdsFrame(t, t');
    RandomFrame(t, t');
    ExchangeFlags(t, h, id, vt, pos, target);
    ExchangeNew(t, h, id, vt, pos, target);
    ExchangeTried(t, h, id, vt, pos, target);
    ExchangeView(t, h, id, vt, pos, target);
  }

  lemma {:induction false} TriedBuckets(t: Tables, h: Hashing)
    requires TriedOk(t, h)
    ensures |t.vvTried| == TRIED_BUCKET_COUNT
  {}

  lemma {:induction false} NewSizes(t: Tables)
    requires NewOk(t, -1)
    ensures |t.vvNew| == NEW_BUCKET_COUNT
  {}

  lemma {:induction false} ExchangeFlags(t: Tables, h: Hashing, id: int, vt: seq<int>, pos: nat, target: nat)
    requires CanExchange(t, h, id, vt, pos, target)
    ensures vt[pos] in t.mapInfo && |t.vvTried| == TRIED_BUCKET_COUNT
    ensures var t' := Exchanged(t, h, id, vt, pos, target); FlagsOk(t') && CountsOk(t')
  {
    hide RandomOk, NewOk, IdsOk, TriedOk, Unlisted;
    TriedBuckets(t, h);
    Evictee(t, h, id, vt, pos, target);
    var m', x := Exchanged(t, h, id, vt, pos, target).mapInfo, vt[pos];
    assert TriedIds(m') == TriedIds(t.mapInfo) - {x} + {id};
    assert NewIds(m') == NewIds(t.mapInfo) - {id} + {x};
  }

  lemma {:induction false} ExchangeNew(t: Tables, h: Hashing, id: int, vt: seq<int>, pos: nat, target: nat)
    requires CanExchange(t, h, id, vt, pos, target)
    ensures vt[pos] in t.mapInfo && |t.vvTried| == TRIED_BUCKET_COUNT
    ensures NewOk(Exchanged(t, h, id, vt, pos, target), -1)
  {
    hide RandomOk, FlagsOk, CountsOk, TriedOk, Count, Unlisted;
    TriedBuckets(t, h);
    Evictee(t, h, id, vt, pos, target);
    var x, vv := vt[pos], Unlisted(t.vvNew, id);
    NotListed(t, x);
    forall y
      ensures Count(vv[target := vv[target] + {x}], y) == if y == id then 0 else if y == x then 1 else Count(t.vvNew, y)
    {
      ExchangeCount(t.vvNew, id, x, target, y);
    }
    forall b | 0 <= b < |vv| ensures |vv[b]| <= NEW_BUCKET_SIZE && vv[b] == t.vvNew[b] - {id} {
      UnlistedAt(t.vvNew, id, b);
      SubsetSize(vv[b], t.vvNew[b]);
    }
  }

  lemma {:induction false} ExchangeCount(vv: seq<set<int>>, id: int, x: int, target: nat, y: int)
    requires target < |vv| && x != id && Count(vv, x) == 0 && x !in vv[target]
    ensures var uu := Unlisted(vv, id);
      Count(uu[target := uu[target] + {x}], y) == if y == id then 0 else if y == x then 1 else Count(vv, y)
  {
    hide Count, Unlisted;
    var uu := Unlisted(vv, id);
    CountUnlisted(vv, id, y);
    CountUpdate(uu, target, uu[target] + {x}, y);
    UnlistedAt(vv, id, target);
  }

  lemma {:induction false} UnlistedAt(vv: seq<set<int>>, id: int, b: nat)
    requires b < |vv|
    ensures Unlisted(vv, id)[b] == vv[b] - {id}
  {}

  lemma {:induction false} NotListed(t: Tables, x: int)
    requires NewOk(t, -1) && x in t.mapInfo && t.mapInfo[x].fInTried
    ensures Count(t.vvNew, x) == 0 && forall b :: 0 <= b < |t.vvNew| ==> x !in t.vvNew[b]
  {
    CountZero(t.vvNew, x);
  }

  lemma {:induction false} ExchangeTried(t: Tables, h: Hashing, id: int, vt: seq<int>, pos: nat, target: nat)
    requires CanExchange(t, h, id, vt, pos, target)
    ensures vt[pos] in t.mapInfo && |t.vvTried| == TRIED_BUCKET_COUNT
    ensures TriedOk(Exchanged(t, h, id, vt, pos, target), h)
  {
    hide RandomOk, FlagsOk, CountsOk, NewOk, Unlisted, IdsOk;
    TriedBuckets(t, h);
    Evictee(t, h, id, vt, pos, target);
    var t', k := Exchanged(t, h, id, vt, pos, target), h.triedBucket(t.mapInfo[id].service);
    ShuffledMembers(t, h, vt, k);
    forall b, n | 0 <= b < |t'.vvTried| && 0 <= n < |t'.vvTried[b]| ensures TriedMember(t', h, t'.vvTried[b][n], b) {
      if b == k {
        assert n != pos ==> TriedMember(t, h, vt[n], k);
      } else {
        assert TriedMember(t, h, t.vvTried[b][n], b);
      }
    }
    assert NoRepeats(vt[pos := id]);
    forall x | x in t'.mapInfo && t'.mapInfo[x].fInTried ensures x in t'.vvTried[h.triedBucket(t'.mapInfo[x].service)] {
      if x == id {
        assert vt[pos := id][pos] == id;
      } else if h.triedBucket(t.mapInfo[x].service) == k {
        assert x in vt;
        var n :| 0 <= n < |vt| && vt[n] == x;
        assert vt[pos := id][n] == x;
      }
    }
  }

  lemma {:induction false} ShuffledMembers(t: Tables, h: Hashing, vt: seq<int>, k: nat)
    requires TriedOk(t, h) && k < |t.vvTried| && multiset(vt) == multiset(t.vvTried[k])
    ensures forall n :: 0 <= n < |vt| ==> TriedMember(t, h, vt[n], k)
  {
    hide TriedMember;
    forall n | 0 <= n < |vt| ensures TriedMember(t, h, vt[n], k) {
      assert vt[n] in multiset(vt) && vt[n] in multiset(t.vvTried[k]);
      var j :| 0 <= j < |t.vvTried[k]| && t.vvTried[k][j] == vt[n];
      assert TriedMember(t, h, t.vvTried[k][j], k);
    }
  }

  lemma {:induction false} ExchangeView(t: Tables, h: Hashing, id: int, vt: seq<int>, pos: nat, target: nat)
    requires CanExchange(t, h, id, vt, pos, target)
    requires vt[pos] in t.mapInfo && |t.vvTried| == TRIED_BUCKET_COUNT && IdsOk(Exchanged(t, h, id, vt, pos, target))
    ensures var a, c := t.mapInfo[id].service.net, t.mapInfo[vt[pos]].service.net;
      var v := ViewOf(t);
      a in v && c in v && a != c &&
      ViewOf(Exchanged(t, h, id, vt, pos, target)) ==
        v[a := v[a].(tried := true, buckets := {})][c := v[c].(tried := false, buckets := {target})]
  {
    hide RandomOk, FlagsOk, CountsOk, NewOk, Unlisted, TriedOk, Buckets;
    Evictee(t, h, id, vt, pos, target);
    var x, t' := vt[pos], Exchanged(t, h, id, vt, pos, target);
    ExchangeBuckets(t, h, id, vt, pos, target);
    ViewAt(t, id);
    ViewAt(t, x);
    var t1 := t.(mapInfo := t'.mapInfo[x := t.mapInfo[x]], vvNew := Unlisted(t.vvNew, id));
    forall y { BucketsUnlisted(t.vvNew, id, y); }
    IdsFrame(t, t1);
    ViewChange(t, t1, id);
    ViewChange(t1, t', x);
  }

  lemma {:induction false} ExchangeBuckets(t: Tables, h: Hashing, id: int, vt: seq<int>, pos: nat, target: nat)
    requires CanExchange(t, h, id, vt, pos, target)
    requires vt[pos] in t.mapInfo && |t.vvTried| == TRIED_BUCKET_COUNT
    ensures var x, t', vv := vt[pos], Exchanged(t, h, id, vt, pos, target), Unlisted(t.vvNew, id);
      forall y :: Buckets(t'.vvNew, y) == if y == x then {target} else Buckets(vv, y)
  {
    hide RandomOk, FlagsOk, CountsOk, NewOk, TriedOk, IdsOk;
    Evictee(t, h, id, vt, pos, target);
    var x, vv := vt[pos], Unlisted(t.vvNew, id);
    NotListed(t, x);
    forall y ensures Buckets(vv[target := vv[target] + {x}], y) == if y == x then {target} else Buckets(vv, y) {
      ListedOnce(vv, target, x, y);
    }
  }

  lemma {:induction false} ListedOnce(vv: seq<set<int>>, target: nat, x: int, y: int)
    requires target < |vv| && forall b :: 0 <= b < |vv| ==> x !in vv[b]
    ensures Buckets(vv[target := vv[target] + {x}], y) == if y == x then {target} else Buckets(vv, y)
  {
    BucketsUpdate(vv, target, vv[target] + {x}, y);
    BucketsSame(vv, target, y);
    if y == x {
      assert Buckets(vv, x) == {};
    }
  }
}
