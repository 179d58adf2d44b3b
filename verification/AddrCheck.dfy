/** What the self-check Check_ of CAddrMan accepts, and how far that is from the
    whole invariant. */
module AddrCheck {
  import opened AddrTables
  import opened Words

  /** The tests made on one entry. A missing address reads as id 0, because the
      lookup inserts it. */
  ghost predicate EntryPasses(t: Tables, n: int)
    requires n in t.mapInfo
  {
    var i := t.mapInfo[n];
    && (if i.fInTried then i.nLastSuccess != 0 && i.nRefCount == 0 else 1 <= i.nRefCount <= NEW_BUCKETS_PER_ADDRESS)
    && (if i.service.net in t.mapAddr then t.mapAddr[i.service.net] == n else n == 0)
    && 0 <= i.nRandomPos < |t.vRandom| && t.vRandom[i.nRandomPos] == n
    && 0 <= i.nLastTry && 0 <= i.nLastSuccess
  }

  /** All ids in all tried buckets, with repetitions. */
  function Bag(vv: seq<seq<int>>): multiset<int> {
    if vv == [] then multiset{} else Bag(vv[..|vv| - 1]) + multiset(vv[|vv| - 1])
  }

  function RefCount(m: map<int, Info>, id: int): int {
    if id in m && !m[id].fInTried then m[id].nRefCount else 0
  }

  ghost predicate CheckPasses(t: Tables) {
    && |t.vRandom| == t.nTried + t.nNew
    && (forall n :: n in t.mapInfo ==> EntryPasses(t, n))
    && CountsOk(t)
    && Bag(t.vvTried) == multiset(TriedIds(t.mapInfo))
    && (forall id :: Count(t.vvNew, id) == RefCount(t.mapInfo, id))
  }

  /** What Check_ does not test. */
  ghost predicate Unchecked(t: Tables, h: Hashing) {
    && (forall id :: id in t.mapInfo ==> 0 <= id < t.nIdCount)
    && (forall id :: id in t.mapInfo ==> t.mapInfo[id].service.net in t.mapAddr)
    && (forall a :: a in t.mapAddr ==> t.mapAddr[a] in t.mapInfo && t.mapInfo[t.mapAddr[a]].service.net == a)
    && |t.vvNew| == NEW_BUCKET_COUNT && |t.vvTried| == TRIED_BUCKET_COUNT
    && (forall b :: 0 <= b < |t.vvNew| ==> |t.vvNew[b]| <= NEW_BUCKET_SIZE)
    && (forall b :: 0 <= b < |t.vvTried| ==> |t.vvTried[b]| <= TRIED_BUCKET_SIZE)
    && (forall b, k :: 0 <= b < |t.vvTried| && 0 <= k < |t.vvTried[b]| ==> InOwnBucket(t, h, t.vvTried[b][k], b))
  }

  ghost predicate InOwnBucket(t: Tables, h: Hashing, id: int, b: int) {
    id in t.mapInfo ==> h.triedBucket(t.mapInfo[id].service) == b
  }

  // --- Bags ------------------------------------------------------------------------------

  lemma {:induction false} BagHas(vv: seq<seq<int>>, b: nat, k: nat)
    requires b < |vv| && k < |vv[b]|
    ensures vv[b][k] in Bag(vv)
  {
    var n := |vv| - 1;
    if b < n {
      BagHas(vv[..n], b, k);
    }
  }

  lemma {:induction false} BagFinds(vv: seq<seq<int>>, id: int) returns (b: nat)
    requires id in Bag(vv)
    ensures b < |vv| && id in vv[b]
  {
    var n := |vv| - 1;
    if id in vv[n] {
      b := n;
    } else {
      b := BagFinds(vv[..n], id);
    }
  }

  lemma {:induction false} BagBucket(vv: seq<seq<int>>, b: nat, id: int)
    requires b < |vv|
    ensures multiset(vv[b])[id] <= Bag(vv)[id]
  {
    var n := |vv| - 1;
    if b < n {
      BagBucket(vv[..n], b, id);
    }
  }

  lemma {:induction false} NoRepeatsCount(s: seq<int>, id: int)
    requires NoRepeats(s)
    ensures multiset(s)[id] == if id in s then 1 else 0
  {
    if s != [] {
      var n := |s| - 1;
      assert s == s[..n] + [s[n]];
      assert NoRepeats(s[..n]);
      NoRepeatsCount(s[..n], id);
    }
  }

  /** If every id sits only in its own bucket, and buckets have no repeats, the bag
      is a set. */
  lemma {:induction false} BagOfOwn(vv: seq<seq<int>>, id: int, own: int)
    requires forall b :: 0 <= b < |vv| ==> NoRepeats(vv[b])
    requires forall b :: 0 <= b < |vv| && id in vv[b] ==> b == own
    ensures Bag(vv)[id] == if 0 <= own < |vv| && id in vv[own] then 1 else 0
  {
    if vv != [] {
      var n := |vv| - 1;
      BagOfOwn(vv[..n], id, own);
      NoRepeatsCount(vv[n], id);
    }
  }

  // --- Check_ against the invariant -----------------------------------------------------------

  /** The invariant, with the time stamps, is what Check_ tests plus what it leaves
      out; in particular Check_ accepts every valid state. */
  lemma {:induction false} CheckIsInvariant(t: Tables, h: Hashing)
    ensures Inv(t, h) && TimesOk(t) <==> CheckPasses(t) && Unchecked(t, h)
  {
    if Inv(t, h) && TimesOk(t) {
      InvariantPasses(t, h);
    }
    if CheckPasses(t) && Unchecked(t, h) {
      PassesInvariant(t, h);
    }
  }

  lemma {:induction false} InvariantPasses(t: Tables, h: Hashing)
    requires Inv(t, h) && TimesOk(t)
    ensures CheckPasses(t) && Unchecked(t, h)
  {
    SizeBound(t, h);
    forall n | n in t.mapInfo ensures EntryPasses(t, n) {}
    BagPasses(t, h);
    NewPasses(t);
    forall b, k | 0 <= b < |t.vvTried| && 0 <= k < |t.vvTried[b]| ensures InOwnBucket(t, h, t.vvTried[b][k], b) {
      assert TriedMember(t, h, t.vvTried[b][k], b);
    }
  }

  lemma {:induction false} BagPasses(t: Tables, h: Hashing)
    requires TriedOk(t, h)
    ensures Bag(t.vvTried) == multiset(TriedIds(t.mapInfo))
  {
    forall id ensures Bag(t.vvTried)[id] == multiset(TriedIds(t.mapInfo))[id] {
      var own := if id in t.mapInfo then h.triedBucket(t.mapInfo[id].service) else 0;
      forall b | 0 <= b < |t.vvTried| && id in t.vvTried[b]
        ensures b == own && id in t.mapInfo && t.mapInfo[id].fInTried {
        var k :| 0 <= k < |t.vvTried[b]| && t.vvTried[b][k] == id;
        assert TriedMember(t, h, t.vvTried[b][k], b);
      }
      BagOfOwn(t.vvTried, id, own);
    }
  }

  lemma {:induction false} NewPasses(t: Tables)
    requires NewOk(t, -1) && IdsOk(t) && FlagsOk(t)
    ensures forall id :: Count(t.vvNew, id) == RefCount(t.mapInfo, id)
  {
    forall id ensures Count(t.vvNew, id) == RefCount(t.mapInfo, id) {
      if id !in t.mapInfo {
        CountZero(t.vvNew, id);
      }
    }
  }

  lemma {:induction false} PassesInvariant(t: Tables, h: Hashing)
    requires CheckPasses(t) && Unchecked(t, h)
    ensures Inv(t, h) && TimesOk(t)
  {
    hide Bag, Count;
    RandomOnto(t);
    PassesTried(t, h);
    PassesNew(t);
    forall n | n in t.mapInfo
      ensures EntryPasses(t, n)
    {}
  }

  /** vRandom has one position per id, so the recorded positions fill it. */
  lemma {:induction false} RandomOnto(t: Tables)
    requires |t.vRandom| == t.nTried + t.nNew && CountsOk(t)
    requires forall n :: n in t.mapInfo ==> EntryPasses(t, n)
    ensures RandomOk(t)
  {
    hide EntryPasses;
    var tried, new_ := TriedIds(t.mapInfo), NewIds(t.mapInfo);
    assert t.mapInfo.Keys == tried + new_;
    forall n | n in t.mapInfo
      ensures 0 <= t.mapInfo[n].nRandomPos < |t.vRandom| && t.vRandom[t.mapInfo[n].nRandomPos] == n
    {
      EntryPosition(t, n);
    }
    var used := Positions(t.mapInfo, t.mapInfo.Keys);
    PositionsSize(t, t.mapInfo.Keys);
    SameSize(used, Upto(|t.vRandom|));
    forall i | 0 <= i < |t.vRandom|
      ensures t.vRandom[i] in t.mapInfo && t.mapInfo[t.vRandom[i]].nRandomPos == i
    {
      assert i in used;
    }
  }

  lemma {:induction false} EntryPosition(t: Tables, n: int)
    requires n in t.mapInfo && EntryPasses(t, n)
    ensures 0 <= t.mapInfo[n].nRandomPos < |t.vRandom| && t.vRandom[t.mapInfo[n].nRandomPos] == n
  {}

  function Positions(m: map<int, Info>, ids: set<int>): set<int> {
    set n | n in ids && n in m :: m[n].nRandomPos
  }

  lemma {:induction false} PositionsSize(t: Tables, ids: set<int>)
    requires ids <= t.mapInfo.Keys
    requires forall n :: n in t.mapInfo ==>
      0 <= t.mapInfo[n].nRandomPos < |t.vRandom| && t.vRandom[t.mapInfo[n].nRandomPos] == n
    ensures |Positions(t.mapInfo, ids)| == |ids|
    decreases |ids|
  {
    var m := t.mapInfo;
    if ids == {} {
      assert Positions(m, ids) == {};
    } else {
      var x := Pick(ids);
      PositionsSize(t, ids - {x});
      assert Positions(m, ids) == Positions(m, ids - {x}) + {m[x].nRandomPos};
      assert m[x].nRandomPos !in Positions(m, ids - {x});
    }
  }

  function Upto(n: nat): (s: set<int>)
    ensures |s| == n && forall p :: p in s <==> 0 <= p < n
  {
    if n == 0 then {} else Upto(n - 1) + {n - 1}
  }

  lemma {:induction false} SameSize(s: set<int>, t: set<int>)
    requires s <= t && |s| == |t|
    ensures s == t
  {
    assert t == s + (t - s);
    assert |t| == |s| + |t - s|;
  }

  lemma {:induction false} PassesTried(t: Tables, h: Hashing)
    requires Unchecked(t, h) && Bag(t.vvTried) == multiset(TriedIds(t.mapInfo))
    ensures TriedOk(t, h)
  {
    hide Bag;
    var bag := multiset(TriedIds(t.mapInfo));
    forall b | 0 <= b < |t.vvTried| ensures NoRepeats(t.vvTried[b]) {
      forall i, j | 0 <= i < j < |t.vvTried[b]| ensures t.vvTried[b][i] != t.vvTried[b][j] {
        if t.vvTried[b][i] == t.vvTried[b][j] {
          RepeatCounts(t.vvTried[b], i, j);
          BagBucket(t.vvTried, b, t.vvTried[b][i]);
        }
      }
    }
    forall b, k | 0 <= b < |t.vvTried| && 0 <= k < |t.vvTried[b]| ensures TriedMember(t, h, t.vvTried[b][k], b) {
      BagHas(t.vvTried, b, k);
      assert t.vvTried[b][k] in bag;
      assert InOwnBucket(t, h, t.vvTried[b][k], b);
    }
    forall id | id in t.mapInfo && t.mapInfo[id].fInTried
      ensures id in t.vvTried[h.triedBucket(t.mapInfo[id].service)]
    {
      assert id in bag;
      var b := BagFinds(t.vvTried, id);
      var k :| 0 <= k < |t.vvTried[b]| && t.vvTried[b][k] == id;
      assert InOwnBucket(t, h, t.vvTried[b][k], b);
    }
  }

  lemma {:induction false} PassesNew(t: Tables)
    requires |t.vvNew| == NEW_BUCKET_COUNT && forall b :: 0 <= b < |t.vvNew| ==> |t.vvNew[b]| <= NEW_BUCKET_SIZE
    requires forall id :: id in t.mapInfo ==> 0 <= id && EntryPasses(t, id)
    requires forall id :: Count(t.vvNew, id) == RefCount(t.mapInfo, id)
    ensures NewOk(t, -1)
  {
    hide Count;
    forall b, id | 0 <= b < |t.vvNew| && id in t.vvNew[b]
      ensures id in t.mapInfo && !t.mapInfo[id].fInTried
    {
      CountZero(t.vvNew, id);
      assert Count(t.vvNew, id) != 0;
    }
    forall id | id in t.mapInfo ensures t.mapInfo[id].nRefCount == Count(t.vvNew, id) {
      assert EntryPasses(t, id);
      assert Count(t.vvNew, id) == RefCount(t.mapInfo, id);
    }
  }
}
