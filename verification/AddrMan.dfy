/** CAddrMan of src/addrman.cpp. Random choices are arbitrary, the clock is a
    parameter, and bucket hashing is an arbitrary function of the secret key. */
module AddrMan {
  import opened AddrTables
  import opened AddrSteps
  import opened AddrMoves
  import opened AddrSpec
  import opened AddrCheck
  import opened AddrStore
  import opened AddrChoice
  import opened Words

  /** Any number below nMax. */
  method GetRandInt(nMax: nat) returns (r: nat)
    ensures nMax > 0 ==> r < nMax
    ensures nMax == 0 ==> r == 0
  {
    if nMax == 0 {
      return 0;
    }
    assert 0 < nMax;
    r :| r < nMax;
  }

  class CAddrMan {
    const hashing: seq<nat> -> Hashing
    const routable: NetAddr -> bool

    var nKey: seq<nat>
    var nIdCount: nat
    var mapInfo: map<int, Info>
    var mapAddr: map<NetAddr, int>
    var vRandom: seq<int>
    var nTried: int
    var vvTried: seq<seq<int>>
    var nNew: int
    var vvNew: seq<set<int>>

    ghost function T(): Tables
      reads this
    {
      Tables(nIdCount, mapInfo, mapAddr, vRandom, nTried, vvTried, nNew, vvNew)
    }

    ghost function H(): Hashing
      reads this
    {
      hashing(nKey)
    }

    ghost predicate Valid()
      reads this
    {
      Inv(T(), H())
    }

    /** The addresses, without ids. */
    ghost function V(): View
      requires Valid()
      reads this
    {
      ViewOf(T())
    }

    constructor (hashing: seq<nat> -> Hashing, routable: NetAddr -> bool, key: seq<nat>)
      ensures Valid() && V() == map[] && nKey == key
      ensures this.hashing == hashing && this.routable == routable
    {
      this.hashing, this.routable, nKey := hashing, routable, key;
      nIdCount, mapInfo, mapAddr, vRandom := 0, map[], map[], [];
      nTried, nNew := 0, 0;
      vvTried := seq(TRIED_BUCKET_COUNT, _ => []);
      vvNew := seq(NEW_BUCKET_COUNT, _ => {});
      new;
      assert TriedIds(mapInfo) == {} && NewIds(mapInfo) == {};
      assert V() == map[];
    }

    method Size() returns (n: nat)
      requires Valid()
      ensures n == nTried + nNew <= 20480
    {
      SizeBound(T(), H());
      n := |vRandom|;
    }

    // --- Helpers ------------------------------------------------------------------------

    method Find(addr: NetAddr) returns (found: bool, nId: int)
      requires IdsOk(T())
      ensures found <==> addr in mapAddr
      ensures found ==> nId in mapInfo && mapAddr[addr] == nId && mapInfo[nId].service.net == addr
    {
      if addr !in mapAddr {
        return false, 0;
      }
      nId := mapAddr[addr];
      found := nId in mapInfo;
    }

    method SwapRandom(nRndPos1: nat, nRndPos2: nat)
      requires RandomOk(T()) && nRndPos1 < |vRandom| && nRndPos2 < |vRandom|
      modifies `mapInfo, `vRandom
      ensures T() == Swapped(old(T()), nRndPos1, nRndPos2)
    {
      if nRndPos1 == nRndPos2 {
        return;
      }
      var nId1, nId2 := vRandom[nRndPos1], vRandom[nRndPos2];
      mapInfo := mapInfo[nId1 := mapInfo[nId1].(nRandomPos := nRndPos2)];
      mapInfo := mapInfo[nId2 := mapInfo[nId2].(nRandomPos := nRndPos1)];
      vRandom := vRandom[nRndPos1 := nId2];
      vRandom := vRandom[nRndPos2 := nId1];
    }

    /** Shuffles up to four entries of a tried bucket to its front and returns the place
        that the least recent of them, number o, was taken from. */
    method SelectTried(nKBucket: nat) returns (nOldestPos: nat, ghost picks: seq<nat>, ghost o: nat)
      requires nKBucket < |vvTried| && vvTried[nKBucket] != []
      requires forall k :: 0 <= k < |vvTried[nKBucket]| ==> vvTried[nKBucket][k] in mapInfo && 0 <= vvTried[nKBucket][k]
      modifies `vvTried
      ensures |vvTried| == old(|vvTried|) && vvTried == old(vvTried)[nKBucket := vvTried[nKBucket]]
      ensures multiset(vvTried[nKBucket]) == multiset(old(vvTried[nKBucket]))
      ensures nOldestPos < |vvTried[nKBucket]|
      ensures var n := if |vvTried[nKBucket]| < 4 then |vvTried[nKBucket]| else 4;
        && Draws(picks, n, old(|vvTried[nKBucket]|))
          && vvTried[nKBucket] == Shuffled(old(vvTried[nKBucket]), picks, n)
        && LeastRecent(vvTried[nKBucket], mapInfo, n, o) && nOldestPos == picks[o]
    {
      hide Shuffled;
      ghost var s := vvTried[nKBucket];
      picks, o := [], 0;
      NoneShuffled(s);
      var vTried := vvTried[nKBucket];
      var nOldest, pos := -1, -1;
      var i := 0;
      while i < 4 && i < |vTried|
        invariant 0 <= i <= 4 && i <= |vTried| == |s| && |picks| == i && vvTried == old(vvTried)
        invariant Draws(picks, i, |s|) && vTried == Shuffled(s, picks, i)
        invariant forall k :: 0 <= k < |vTried| ==> vTried[k] in mapInfo && 0 <= vTried[k]
        invariant if i == 0 then nOldest == -1 else
          LeastRecent(vTried, mapInfo, i, o) && nOldest == vTried[o] && pos == picks[o]
      {
        var r := GetRandInt(|vTried| - i);
        var nPos := r + i;
        var nTemp := vTried[nPos];
        MoreShuffled(s, picks, i, nPos);
        vTried := vTried[nPos := vTried[i]][i := nTemp];
        picks := picks + [nPos];
        if nOldest == -1 || mapInfo[nTemp].nLastSuccess < mapInfo[nOldest].nLastSuccess {
          nOldest := nTemp;
          pos := nPos;
          o := i;
        }
        i := i + 1;
      }
      ShuffledPermutes(s, picks, i);
      vvTried := vvTried[nKBucket := vTried];
      nOldestPos := pos;
    }

    /** Lowers the reference count of id, and deletes the entry when none is left. */
    method Unref(nId: int)
      requires RandomOk(T()) && nId in mapInfo
      modifies `mapInfo, `mapAddr, `vRandom, `nNew
      ensures T() == Unreferenced(old(T()), nId)
    {
      hide RandomOk, Swapped;
      ghost var t0 := T();
      var info := mapInfo[nId];
      PositionOf(t0, nId);
      mapInfo := mapInfo[nId := info.(nRefCount := info.nRefCount - 1)];
      RandomFrame(t0, T());
      if info.nRefCount - 1 == 0 {
        SwapRandomOk(T(), info.nRandomPos, |vRandom| - 1);
        SwapRandom(info.nRandomPos, |vRandom| - 1);
        vRandom := vRandom[..|vRandom| - 1];
        mapAddr := mapAddr - {info.service.net};
        mapInfo := mapInfo - {nId};
        nNew := nNew - 1;
      }
    }

    static predicate Terrible(i: Info, nNow: int) { IsTerrible(EntryOf(i, {}), nNow) }

    lemma {:induction false} BucketKnown(nUBucket: nat, pend: int)
      requires InvPending(T(), H(), pend) && nUBucket < |vvNew| && vvNew[nUBucket] != {}
      ensures RandomOk(T()) && IdsOk(T())
      ensures forall x :: x in vvNew[nUBucket] ==> x in mapInfo && 0 <= x < nIdCount
    {
      forall x | x in vvNew[nUBucket] ensures x in mapInfo && 0 <= x < nIdCount {
        assert x in T().vvNew[nUBucket];
        assert x in T().mapInfo;
      }
    }

    /** The scan for an entry bad enough to delete, in the order of std::set. */
    method FirstTerrible(vNew: set<int>, nNow: int) returns (found: bool, first: int)
      requires forall x :: x in vNew ==> x in mapInfo && 0 <= x < nIdCount
      ensures found ==> first in vNew && Terrible(mapInfo[first], nNow)
      ensures found ==> forall x :: x in vNew && x < first ==> !Terrible(mapInfo[x], nNow)
      ensures !found ==> forall x :: x in vNew ==> !Terrible(mapInfo[x], nNow)
    {
      for id := 0 to nIdCount
        invariant forall x :: x in vNew && x < id ==> !Terrible(mapInfo[x], nNow)
      {
        if id in vNew && Terrible(mapInfo[id], nNow) {
          return true, id;
        }
      }
      found, first := false, -1;
    }

    /** The choice among up to four random positions of the set. */
    method OldestOfFour(vNew: set<int>) returns (nOldest: int, ghost picks: seq<nat>)
      requires vNew != {} && forall x :: x in vNew ==> x in mapInfo && 0 <= x < nIdCount
      ensures nOldest in vNew && OldestPicked(vNew, mapInfo, picks, nOldest)
    {
      hide Rank;
      var n0 := GetRandInt(|vNew|);
      var n1 := GetRandInt(|vNew|);
      var n2 := GetRandInt(|vNew|);
      var n3 := GetRandInt(|vNew|);
      var nI := 0;
      nOldest := -1;
      picks := [n0, n1, n2, n3];
      RankZero(vNew);
      for id := 0 to nIdCount
        invariant nI == Rank(vNew, id) && OldestBelow(vNew, mapInfo, picks, id, nOldest)
      {
        RankNext(vNew, id);
        if id in vNew {
          if nI == n0 || nI == n1 || nI == n2 || nI == n3 {
            if nOldest == -1 || mapInfo[id].nTime < mapInfo[nOldest].nTime {
              nOldest := id;
            }
          }
          nI := nI + 1;
        }
      }
      ghost var found := RankOnto(vNew, n0);
      assert found in vNew && Rank(vNew, found) in picks;
    }

    /** Removes one entry from a new bucket: the first terrible one in id order, else
        the one seen least recently among four picked at random. */
    method ShrinkNew(nUBucket: nat, nNow: int, ghost pend: int) returns (r: int, victim: int, ghost picks: seq<nat>)
      requires InvPending(T(), H(), pend) && nUBucket < |vvNew| && vvNew[nUBucket] != {}
      modifies `mapInfo, `mapAddr, `vRandom, `nNew, `vvNew
      ensures RandomOk(old(T())) && victim in old(vvNew[nUBucket]) && victim in old(mapInfo)
      ensures T() == Dropped(old(T()), nUBucket, victim)
      ensures forall x :: x in old(vvNew[nUBucket]) ==> x in old(mapInfo)
      ensures r == 0 ==> Terrible(old(mapInfo)[victim], nNow)
      ensures forall x :: x in old(vvNew[nUBucket]) && (r == 0 ==> x < victim) ==> !Terrible(old(mapInfo)[x], nNow)
      ensures r != 0 ==> OldestPicked(old(vvNew[nUBucket]), old(mapInfo), picks, victim)
    {
      hide InvPending, Terrible, Dropped, OldestPicked;
      picks := [];
      BucketKnown(nUBucket, pend);
      var vNew := vvNew[nUBucket];
      var found, first := FirstTerrible(vNew, nNow);
      if found {
        r, victim := 0, first;
      } else {
        var oldest, places := OldestOfFour(vNew);
        r, victim, picks := 1, oldest, places;
      }
      DroppedIs(T(), nUBucket, victim);
      Unref(victim);
      vvNew := vvNew[nUBucket := vvNew[nUBucket] - {victim}];
    }

    // --- Operations ------------------------------------------------------------------------

    /** Attempt_ */
    method Attempt(addr: Service, nTime: int)
      requires Valid()
      modifies `mapInfo
      ensures Valid() && V() == Attempted(old(V()), addr, nTime)
    {
      hide NewOk, TriedOk, FlagsOk, CountsOk, RandomOk;
      var found, nId := Find(addr.net);
      if !found || mapInfo[nId].service != addr {
        return;
      }
      ghost var t0 := T();
      var info := mapInfo[nId].(nLastTry := nTime, nAttempts := mapInfo[nId].nAttempts + 1);
      EditKeeps(t0, H(), nId, info, -1);
      mapInfo := mapInfo[nId := info];
      assert T() == Edit(t0, nId, info);
    }

    /** Connected_ */
    method Connected_(addr: Service, nTime: int)
      requires Valid()
      modifies `mapInfo
      ensures Valid() && V() == Connected(old(V()), addr, nTime)
    {
      hide NewOk, TriedOk, FlagsOk, CountsOk, RandomOk;
      var found, nId := Find(addr.net);
      if !found || mapInfo[nId].service != addr {
        return;
      }
      var nUpdateInterval := 20 * 60;
      if nTime - mapInfo[nId].nTime > nUpdateInterval {
        ghost var t0 := T();
        var info := mapInfo[nId].(nTime := ToUint32(nTime));
        EditKeeps(t0, H(), nId, info, -1);
        mapInfo := mapInfo[nId := info];
        assert T() == Edit(t0, nId, info);
      }
    }

    /** Good_ */
    method Good(addr: Service, nTime: int)
      requires Valid()
      modifies `mapInfo, `nTried, `vvTried, `nNew, `vvNew
      ensures Valid() && GoodSpec(old(V()), V(), H(), addr, nTime)
    {
      hide NewOk, TriedOk, FlagsOk, CountsOk, RandomOk, MovedToTried;
      var found, nId := Find(addr.net);
      if !found || mapInfo[nId].service != addr {
        return;
      }
      ghost var t0 := T();
      var info := mapInfo[nId].(nLastSuccess := nTime, nLastTry := nTime, nTime := ToUint32(nTime), nAttempts := 0);
      EditKeeps(t0, H(), nId, info, -1);
      mapInfo := mapInfo[nId := info];
      assert T() == Edit(t0, nId, info);
      if info.fInTried {
        return;
      }
      var nUBucket := FindBucket(nId);
      MakeTried(nId, nUBucket);
    }

    /** The scan for a new bucket holding nId, from a random start. The bail-out for
        an id in no bucket cannot be taken. */
    method FindBucket(nId: int) returns (nUBucket: nat)
      requires Valid() && nId in mapInfo && !mapInfo[nId].fInTried
      ensures nUBucket < |vvNew| && nId in vvNew[nUBucket]
    {
      hide TriedOk, CountsOk, RandomOk, Count;
      CountZero(vvNew, nId);
      assert T().mapInfo[nId].nRefCount == Count(vvNew, nId);
      nUBucket := 0;
      var nRnd := GetRandInt(|vvNew|);
      var n := 0;
      while n < |vvNew|
        invariant 0 <= n <= |vvNew| == 256
        invariant forall k :: 0 <= k < n ==> nId !in vvNew[Rotated(k, nRnd)]
      {
        var nB := (n + nRnd) % |vvNew|;
        assert nB == Rotated(n, nRnd);
        if nId in vvNew[nB] {
          return nB;
        }
        n := n + 1;
      }
      forall b | 0 <= b < 256 ensures nId !in vvNew[b] {
        var k := (b + 256 - nRnd) % 256;
        assert Rotated(k, nRnd) == b;
      }
      assert false;
    }

    static function Rotated(n: nat, nRnd: nat): NewBucket { (n + nRnd) % 256 }

    /** MakeTried */
    method MakeTried(nId: int, nOrigin: nat)
      requires Valid() && nId in mapInfo && !mapInfo[nId].fInTried
      requires nOrigin < |vvNew| && nId in vvNew[nOrigin]
      modifies `mapInfo, `nTried, `vvTried, `nNew, `vvNew
      ensures Valid() && old(mapInfo[nId].service.net) in old(V())
      ensures MovedToTried(old(V()), V(), H(), old(mapInfo[nId].service.net))
    {
      hide NewOk, TriedOk, FlagsOk, CountsOk, RandomOk, IdsOk, Unlisted, MovedToTried, CanExchange, TargetOk, Exchanged;
      ghost var t0 := T();
      TriedBuckets(t0, H());
      UnlistNew(nId);
      var nKBucket := hashing(nKey).triedBucket(mapInfo[nId].service);
      if |vvTried[nKBucket]| < TRIED_BUCKET_SIZE {
        vvTried := vvTried[nKBucket := vvTried[nKBucket] + [nId]];
        nTried := nTried + 1;
        mapInfo := mapInfo[nId := mapInfo[nId].(fInTried := true)];
        assert T() == Promoted(t0, H(), nId);
        PromoteMoved(t0, H(), nId);
      } else {
        ghost var vt, pos, target := Evict(nId, nOrigin, nKBucket, t0);
        ExchangeMoved(t0, H(), nId, vt, pos, target);
      }
    }

    /** Removal of nId from all new buckets; its reference count ends at zero. */
    method UnlistNew(nId: int)
      requires Valid() && nId in mapInfo
      modifies `mapInfo, `vvNew, `nNew
      ensures T() == Unlisting(old(T()), nId)
    {
      hide TriedOk, FlagsOk, CountsOk, RandomOk, Count;
      ghost var t0 := T();
      var b := 0;
      ghost var vv := vvNew;
      assert t0.mapInfo[nId].nRefCount == Count(vv, nId);
      while b < |vvNew|
        invariant 0 <= b <= |vvNew| == |vv|
        invariant forall c :: 0 <= c < |vv| ==> vvNew[c] == if c < b then vv[c] - {nId} else vv[c]
        invariant nNew == old(nNew)
        invariant nId in mapInfo && mapInfo == t0.mapInfo[nId := t0.mapInfo[nId].(nRefCount := Count(vvNew, nId))]
      {
        if nId in vvNew[b] {
          CountUpdate(vvNew, b, vvNew[b] - {nId}, nId);
          vvNew := vvNew[b := vvNew[b] - {nId}];
          mapInfo := mapInfo[nId := mapInfo[nId].(nRefCount := mapInfo[nId].nRefCount - 1)];
        }
        b := b + 1;
      }
      nNew := nNew - 1;
      assert vvNew == Unlisted(vv, nId);
      CountUnlisted(vv, nId, nId);
      assert mapInfo[nId].nRefCount == 0;
    }

    static ghost function Unlisting(t: Tables, id: int): Tables
      requires id in t.mapInfo
    {
      t.(mapInfo := t.mapInfo[id := t.mapInfo[id].(nRefCount := 0)],
         vvNew := Unlisted(t.vvNew, id), nNew := t.nNew - 1)
    }

    /** The eviction branch: one shuffled entry of the full tried bucket goes back to
        a new bucket, and nId takes its place. */
    method Evict(nId: int, nOrigin: nat, nKBucket: nat, ghost t0: Tables)
        returns (ghost vt: seq<int>, ghost nPos: nat, ghost target: nat)
      requires Inv(t0, H()) && nId in t0.mapInfo && !t0.mapInfo[nId].fInTried && T() == Unlisting(t0, nId)
      requires nOrigin < |t0.vvNew| && nId in t0.vvNew[nOrigin]
      requires nKBucket == H().triedBucket(t0.mapInfo[nId].service) && nKBucket < |vvTried|
      requires |vvTried[nKBucket]| >= TRIED_BUCKET_SIZE
      modifies `mapInfo, `vvTried, `nNew, `vvNew
      ensures CanExchange(t0, H(), nId, vt, nPos, target) && vt[nPos] in t0.mapInfo
      ensures TargetOk(t0, H(), nId, t0.mapInfo[vt[nPos]], target)
      ensures T() == Exchanged(t0, H(), nId, vt, nPos, target)
    {
      hide NewOk, TriedOk, FlagsOk, CountsOk, RandomOk, IdsOk, Unlisted, LeastRecent, Shuffled, Draws,
        CanExchange, TriedMember;
      BucketMembers(t0, H(), nKBucket);
      NewSizes(t0);
      var pos, picks, o := SelectTried(nKBucket);
      vt, nPos := vvTried[nKBucket], pos;
      ghost var some: nat := ChooseTarget(t0, H(), nId, vt, pos, nOrigin);
      target := some;
      Evictee(t0, H(), nId, vt, pos, target);
      var x := vvTried[nKBucket][pos];
      var nUBucket := hashing(nKey).newBucket(mapInfo[x].service.net, mapInfo[x].source);
      mapInfo := mapInfo[x := mapInfo[x].(fInTried := false, nRefCount := 1)];
      if |vvNew[nUBucket]| < NEW_BUCKET_SIZE {
        vvNew := vvNew[nUBucket := vvNew[nUBucket] + {x}];
      } else {
        vvNew := vvNew[nOrigin := vvNew[nOrigin] + {x}];
      }
      nNew := nNew + 1;
      vvTried := vvTried[nKBucket := vvTried[nKBucket][pos := nId]];
      mapInfo := mapInfo[nId := mapInfo[nId].(fInTried := true)];
    }

    static lemma {:induction false} BucketMembers(t: Tables, h: Hashing, k: nat)
      requires IdsOk(t) && TriedOk(t, h) && k < |t.vvTried|
      ensures forall n :: 0 <= n < |t.vvTried[k]| ==> t.vvTried[k][n] in t.mapInfo && 0 <= t.vvTried[k][n]
    {
      forall n | 0 <= n < |t.vvTried[k]| ensures t.vvTried[k][n] in t.mapInfo && 0 <= t.vvTried[k][n] {
        assert TriedMember(t, h, t.vvTried[k][n], k);
      }
    }

    /** The bucket nId came from certainly has room once nId has left it. */
    static lemma {:induction false} ChooseTarget(t: Tables, h: Hashing, id: int, vt: seq<int>, pos: nat, nOrigin: nat)
        returns (target: nat)
      requires Inv(t, h) && id in t.mapInfo && !t.mapInfo[id].fInTried
      requires multiset(vt) == multiset(t.vvTried[h.triedBucket(t.mapInfo[id].service)]) && pos < |vt|
      requires nOrigin < |t.vvNew| && id in t.vvNew[nOrigin]
      ensures vt[pos] in t.mapInfo && CanExchange(t, h, id, vt, pos, target)
      ensures TargetOk(t, h, id, t.mapInfo[vt[pos]], target)
      ensures var u := h.newBucket(t.mapInfo[vt[pos]].service.net, t.mapInfo[vt[pos]].source);
        target == if |Unlisted(t.vvNew, id)[u]| < NEW_BUCKET_SIZE then u else nOrigin
    {
      hide TriedOk, FlagsOk, CountsOk, RandomOk, IdsOk, Unlisted;
      UnlistedSize(t.vvNew, id, nOrigin);
      assert CanExchange(t, h, id, vt, pos, nOrigin);
      Evictee(t, h, id, vt, pos, nOrigin);
      var u := h.newBucket(t.mapInfo[vt[pos]].service.net, t.mapInfo[vt[pos]].source);
      target := if |Unlisted(t.vvNew, id)[u]| < NEW_BUCKET_SIZE then u else nOrigin;
    }

    /** Add_; nRand stands for the number the stochastic test draws. */
    method Add(addr: Address, source: NetAddr, nTimePenalty: int, nNow: int, nRand: nat) returns (fNew: bool)
      requires Valid()
      modifies `nIdCount, `mapInfo, `mapAddr, `vRandom, `nNew, `vvNew
      ensures Valid() && AddSpec(old(V()), V(), fNew, nRand, H(), routable(addr.service.net), addr, source,
                                 nTimePenalty, nNow)
    {
      hide Inv, EnterBucket, Refreshed, Settled, NewEntry;
      if !routable(addr.service.net) {
        return false;
      }
      var found, nId := FindKnown(addr.service.net);
      if found {
        fNew := false;
        AddKnown(nId, addr, source, nTimePenalty, nNow, nRand);
      } else {
        fNew := true;
        AddUnknown(addr, source, nTimePenalty, nNow);
      }
    }

    /** Add_ for an address already in the tables. */
    method AddKnown(nId: int, addr: Address, source: NetAddr, nTimePenalty: int, nNow: int, nRand: nat)
      requires Valid() && nId in mapInfo && mapInfo[nId].service.net == addr.service.net && addr.service.net in V()
      modifies `mapInfo, `mapAddr, `vRandom, `nNew, `vvNew
      ensures Valid()
      ensures var a, b := addr.service.net, H().newBucket(addr.service.net, source);
        var e := Refreshed(old(V())[a], addr, nTimePenalty, nNow);
        var v1 := old(V())[a := e];
        if Settled(e, addr) || nRand % Pow2(|e.buckets|) != 0 || b in e.buckets then V() == v1
        else EnterBucket(v1, V(), a, b, nNow)
    {
      hide NewOk, TriedOk, FlagsOk, CountsOk, RandomOk, IdsOk, EnterBucket, Refreshed, Settled, Buckets;
      var goOn := Refresh(nId, addr, nTimePenalty, nNow, nRand);
      if !goOn {
        return;
      }
      NewSizes(T());
      ViewAt(T(), nId);
      var nUBucket: nat := hashing(nKey).newBucket(mapInfo[nId].service.net, source);
      BucketsSame(vvNew, nUBucket, nId);
      if nId !in vvNew[nUBucket] {
        BumpKeeps(T(), H(), nId);
        mapInfo := mapInfo[nId := mapInfo[nId].(nRefCount := mapInfo[nId].nRefCount + 1)];
        EnterNew(nId, nUBucket, nNow);
      }
    }

    /** Add_ for a new address. */
    method AddUnknown(addr: Address, source: NetAddr, nTimePenalty: int, nNow: int)
      requires Valid() && addr.service.net !in V()
      modifies `nIdCount, `mapInfo, `mapAddr, `vRandom, `nNew, `vvNew
      ensures Valid()
      ensures EnterBucket(old(V())[addr.service.net := NewEntry(addr, source, nTimePenalty)], V(),
                          addr.service.net, H().newBucket(addr.service.net, source), nNow)
    {
      hide NewOk, TriedOk, FlagsOk, CountsOk, RandomOk, IdsOk, EnterBucket, NewEntry, Buckets;
      var nId := CreateNew(addr, source, nTimePenalty);
      var nUBucket: nat := hashing(nKey).newBucket(mapInfo[nId].service.net, source);
      if nId !in vvNew[nUBucket] {
        mapInfo := mapInfo[nId := mapInfo[nId].(nRefCount := mapInfo[nId].nRefCount + 1)];
        EnterNew(nId, nUBucket, nNow);
      }
    }

    method FindKnown(addr: NetAddr) returns (found: bool, nId: int)
      requires Valid()
      ensures found <==> addr in V()
      ensures found ==> nId in mapInfo && mapInfo[nId].service.net == addr
    {
      hide NewOk, TriedOk, FlagsOk, CountsOk, RandomOk;
      found, nId := Find(addr);
    }

    /** The part of Add_ for an address already known: update its statistics, then
        decide whether to try one more bucket. */
    method Refresh(nId: int, addr: Address, nTimePenalty: int, nNow: int, nRand: nat) returns (goOn: bool)
      requires Valid() && nId in mapInfo && mapInfo[nId].service.net == addr.service.net
      modifies `mapInfo
      ensures Valid() && addr.service.net in old(V()) && nId in mapInfo
      ensures V() == old(V())[addr.service.net := Refreshed(old(V())[addr.service.net], addr, nTimePenalty, nNow)]
      ensures var e := V()[addr.service.net]; goOn <==> !Settled(e, addr) && nRand % Pow2(|e.buckets|) == 0
      ensures goOn ==> !mapInfo[nId].fInTried && mapInfo[nId].nRefCount < NEW_BUCKETS_PER_ADDRESS
      ensures mapInfo[nId].service.net == addr.service.net
    {
      hide NewOk, TriedOk, FlagsOk, CountsOk, RandomOk, Buckets, IdsOk, Statistics, Refreshed;
      ghost var t0 := T();
      ViewAt(t0, nId);
      RefCountIsBuckets(t0, nId);
      var info := RefreshedInfo(mapInfo[nId], addr, nTimePenalty, nNow, Buckets(vvNew, nId));
      EditKeeps(t0, H(), nId, info, -1);
      mapInfo := mapInfo[nId := info];
      assert T() == Edit(t0, nId, info);
      SameCounts(t0.mapInfo[nId], info);
      goOn := WorthAnotherBucket(info, addr, nRand, Buckets(vvNew, nId));
    }

    static lemma {:induction false} SameCounts(i: Info, j: Info)
      requires Statistics(i, j)
      ensures j.service == i.service && j.nRefCount == i.nRefCount && j.fInTried == i.fInTried
    {}

    method RefreshedInfo(info0: Info, addr: Address, nTimePenalty: int, nNow: int, ghost buckets: set<nat>)
        returns (info: Info)
      ensures Statistics(info0, info)
      ensures EntryOf(info, buckets) == Refreshed(EntryOf(info0, buckets), addr, nTimePenalty, nNow)
    {
      hide ToUint32, Services;
      info := info0;
      var fCurrentlyOnline := nNow - addr.nTime < 24 * 60 * 60;
      var nUpdateInterval := if fCurrentlyOnline then 60 * 60 else 24 * 60 * 60;
      if addr.nTime != 0 && (info.nTime == 0 || info.nTime < addr.nTime - nUpdateInterval - nTimePenalty) {
        info := info.(nTime := ToUint32(if addr.nTime - nTimePenalty > 0 then addr.nTime - nTimePenalty else 0));
      }
      info := info.(nServices := Services(info.nServices, addr.nServices));
    }

    /** No for settled entries; otherwise half as likely with every bucket. */
    method WorthAnotherBucket(info: Info, addr: Address, nRand: nat, ghost buckets: set<nat>) returns (goOn: bool)
      requires 0 <= info.nRefCount == |buckets| <= NEW_BUCKETS_PER_ADDRESS
      ensures goOn <==> !Settled(EntryOf(info, buckets), addr) && nRand % Pow2(|buckets|) == 0
      ensures goOn ==> !info.fInTried && info.nRefCount < NEW_BUCKETS_PER_ADDRESS
    {
      if addr.nTime == 0 || (info.nTime != 0 && addr.nTime <= info.nTime) {
        return false;
      }
      if info.fInTried {
        return false;
      }
      if info.nRefCount == NEW_BUCKETS_PER_ADDRESS {
        return false;
      }
      var nFactor: nat := 1;
      for n := 0 to info.nRefCount
        invariant nFactor == Pow2(n)
      {
        nFactor := nFactor * 2;
      }
      if nFactor > 1 && nRand % nFactor != 0 {
        return false;
      }
      goOn := true;
    }

    static lemma {:induction false} RefCountIsBuckets(t: Tables, id: int)
      requires NewOk(t, -1) && IdsOk(t) && FlagsOk(t) && id in t.mapInfo
      ensures 0 <= t.mapInfo[id].nRefCount == |Buckets(t.vvNew, id)| <= NEW_BUCKETS_PER_ADDRESS
    {
      CountBuckets(t.vvNew, id);
    }

    /** Create */
    method Create(addr: Address, source: NetAddr) returns (nId: int)
      modifies `nIdCount, `mapInfo, `mapAddr, `vRandom
      ensures nId == old(nIdCount)
      ensures T() == Created(old(T()), NewInfo(addr, source)).(nNew := old(nNew))
    {
      nId := nIdCount;
      nIdCount := nIdCount + 1;
      mapInfo := mapInfo[nId := NewInfo(addr, source)];
      mapAddr := mapAddr[addr.service.net := nId];
      mapInfo := mapInfo[nId := mapInfo[nId].(nRandomPos := |vRandom|)];
      vRandom := vRandom + [nId];
    }

    /** The constructor of CAddrInfo. */
    static function NewInfo(addr: Address, source: NetAddr): Info {
      Info(addr.service, addr.nServices, addr.nTime, 0, source, 0, 0, 0, false, -1)
    }

    /** Create, with the two updates Add_ makes to a new entry. */
    method CreateNew(addr: Address, source: NetAddr, nTimePenalty: int) returns (nId: int)
      requires Valid() && addr.service.net !in V()
      modifies `nIdCount, `mapInfo, `mapAddr, `vRandom, `nNew
      ensures nId in mapInfo && mapInfo[nId].service.net == addr.service.net && !mapInfo[nId].fInTried
      ensures |vvNew| == NEW_BUCKET_COUNT && forall b :: 0 <= b < |vvNew| ==> nId !in vvNew[b]
      ensures var t := Edit(T(), nId, mapInfo[nId].(nRefCount := mapInfo[nId].nRefCount + 1));
        InvPending(t, H(), nId) &&
        ViewOf(t) == old(V())[addr.service.net := NewEntry(addr, source, nTimePenalty)]
    {
      hide NewOk, TriedOk, FlagsOk, CountsOk, RandomOk, Edit;
      ghost var t0 := T();
      NewSizes(t0);
      nId := Create(addr, source);
      var nTime := mapInfo[nId].nTime - nTimePenalty;
      mapInfo := mapInfo[nId := mapInfo[nId].(nTime := ToUint32(if nTime > 0 then nTime else 0))];
      nNew := nNew + 1;
      ghost var i := NewInfo(addr, source).(nTime := ToUint32(if nTime > 0 then nTime else 0), nRefCount := 1);
      CreateKeeps(t0, H(), i);
      EditCreated(t0, NewInfo(addr, source), T(), i);
    }

    static lemma {:induction false} EditCreated(t0: Tables, j: Info, t: Tables, i: Info)
      requires t.mapInfo ==
        Created(t0, j).mapInfo[t0.nIdCount := i.(nRandomPos := |t0.vRandom|, nRefCount := i.nRefCount - 1)]
      requires t == Created(t0, j).(mapInfo := t.mapInfo) && i.service == j.service
      ensures Edit(t, t0.nIdCount, t.mapInfo[t0.nIdCount].(nRefCount := i.nRefCount)) == Created(t0, i)
    {
      assert Edit(t, t0.nIdCount, t.mapInfo[t0.nIdCount].(nRefCount := i.nRefCount)).mapInfo == Created(t0, i).mapInfo;
    }

    /** The end of Add_: make room in the bucket if it is full, and enter it. */
    method EnterNew(nId: int, nUBucket: nat, nNow: int)
      requires InvPending(T(), H(), nId) && nId in mapInfo && !mapInfo[nId].fInTried
      requires nUBucket < |vvNew| && nId !in vvNew[nUBucket]
      modifies `mapInfo, `mapAddr, `vRandom, `nNew, `vvNew
      ensures Valid() && EnterBucket(old(ViewOf(T())), V(), old(mapInfo[nId].service.net), nUBucket, nNow)
    {
      hide NewOk, TriedOk, FlagsOk, CountsOk, RandomOk, IdsOk, Dropped, Buckets, Shrunk, Listed, Terrible;
      ghost var t0 := T();
      ListedSize(t0, nId, nUBucket);
      if |vvNew[nUBucket]| == NEW_BUCKET_SIZE {
        var r, victim, picks := ShrinkNew(nUBucket, nNow, nId);
        ShrunkTables(t0, H(), nUBucket, victim, nId, nNow);
      }
      NotFull(t0, nId, nUBucket);
      InsertKeeps(T(), H(), nUBucket, nId);
      vvNew := vvNew[nUBucket := vvNew[nUBucket] + {nId}];
    }

    static lemma {:induction false} NotFull(t: Tables, pend: int, b: nat)
      requires NewOk(t, pend) && b < |t.vvNew|
      ensures |t.vvNew[b]| <= NEW_BUCKET_SIZE
    {}

    static lemma {:induction false} ShrunkTables(t: Tables, h: Hashing, b: nat, victim: int, pend: int, nNow: int)
      requires InvPending(t, h, pend) && b < |t.vvNew| && victim in t.vvNew[b] && victim in t.mapInfo
      requires pend in t.mapInfo && pend !in t.vvNew[b]
      requires Terrible(t.mapInfo[victim], nNow)
        || forall x :: x in t.vvNew[b] ==> x in t.mapInfo && !Terrible(t.mapInfo[x], nNow)
      ensures InvPending(Dropped(t, b, victim), h, pend)
      ensures Shrunk(ViewOf(t), ViewOf(Dropped(t, b, victim)), b, nNow)
      ensures var t' := Dropped(t, b, victim);
        && pend in t'.mapInfo && t'.mapInfo[pend].service == t.mapInfo[pend].service
          && t'.mapInfo[pend].fInTried == t.mapInfo[pend].fInTried
        && |t'.vvNew| == |t.vvNew| && t'.vvNew[b] == t.vvNew[b] - {victim}
    {
      hide NewOk, TriedOk, FlagsOk, CountsOk, IdsOk, Shrunk, IsTerrible;
      DropKeeps(t, h, b, victim, pend);
      ShrinkMatches(t, h, b, victim, pend, nNow);
    }

    static function AddressOf(e: Entry): Address { Address(e.service, e.nServices, e.nTime) }

    /** The first n entries of the random order are what has been returned. */
    static ghost predicate Returned(t: Tables, vAddr: seq<Address>, n: nat) {
      && n == |vAddr| <= |t.vRandom|
      && forall k :: 0 <= k < n ==>
          t.vRandom[k] in t.mapInfo && vAddr[k] == AddressOf(EntryOf(t.mapInfo[t.vRandom[k]], {}))
    }

    /** GetAddr_: a shuffled sample of the addresses. */
    method GetAddr(vAddr0: seq<Address>) returns (vAddr: seq<Address>)
      requires Valid()
      modifies `mapInfo, `vRandom
      ensures Valid() && V() == old(V()) && vAddr0 <= vAddr
      ensures |vAddr| - |vAddr0| == if 23 * |old(V())| / 100 > 2500 then 2500 else 23 * |old(V())| / 100
      ensures forall k :: |vAddr0| <= k < |vAddr| ==>
        vAddr[k].service.net in V() && vAddr[k] == AddressOf(V()[vAddr[k].service.net])
      ensures forall k :: |vAddr0| <= k < |vAddr| ==> var e := V()[vAddr[k].service.net];
        vAddr[k].service == e.service && vAddr[k].nServices == e.nServices && vAddr[k].nTime == e.nTime
      ensures forall j, k :: |vAddr0| <= j < k < |vAddr| ==> vAddr[j].service.net != vAddr[k].service.net
    {
      hide NewOk, TriedOk, FlagsOk, CountsOk, RandomOk, IdsOk, Swapped, Returned;
      ViewSize(T(), H());
      var nNodes := 23 * |vRandom| / 100;
      if nNodes > 2500 {
        nNodes := 2500;
      }
      var sample: seq<Address> := [];
      ReturnedNone(T());
      for n := 0 to nNodes
        invariant Valid() && V() == old(V()) && |vRandom| == old(|vRandom|)
        invariant |sample| == n && Returned(T(), sample, n)
      {
        var one := TakeRandom(n, sample);
        sample := sample + [one];
      }
      SampleDistinct(sample, nNodes);
      vAddr := vAddr0 + sample;
      assert forall k :: |vAddr0| <= k < |vAddr| ==> vAddr[k] == sample[k - |vAddr0|];
    }

    /** One step of the shuffle: an entry from position n on moves to position n. */
    method TakeRandom(n: nat, ghost sample: seq<Address>) returns (one: Address)
      requires Valid() && n < |vRandom| && |sample| == n && Returned(T(), sample, n)
      modifies `mapInfo, `vRandom
      ensures Valid() && V() == old(V()) && |vRandom| == old(|vRandom|)
      ensures Returned(T(), sample + [one], n + 1)
    {
      hide NewOk, TriedOk, FlagsOk, CountsOk, RandomOk, IdsOk, Swapped, Returned;
      var r := GetRandInt(|vRandom| - n);
      ghost var t0 := T();
      SwapKeeps(t0, H(), n, r + n, -1);
      SwapKeepsPrefix(t0, n, r + n);
      PositionsOf(t0);
      SwapRandom(n, r + n);
      PositionsOf(T());
      one := AddressOf(EntryOf(mapInfo[vRandom[n]], {}));
      ReturnedMore(t0, T(), sample, sample + [one], n);
    }

    static lemma {:induction false} ReturnedNone(t: Tables)
      ensures Returned(t, [], 0)
    {}

    static lemma {:induction false} PositionsOf(t: Tables)
      requires RandomOk(t)
      ensures forall i :: 0 <= i < |t.vRandom| ==> t.vRandom[i] in t.mapInfo
    {}

    static lemma {:induction false} ViewSize(t: Tables, h: Hashing)
      requires Inv(t, h)
      ensures |t.vRandom| == |ViewOf(t)|
    {
      hide NewOk, TriedOk, FlagsOk, CountsOk, RandomOk;
      RandomCoversIds(t);
      ImageSize(t.mapInfo.Keys, t.mapInfo);
      assert NetsOf(t.mapInfo.Keys, t.mapInfo) == ViewOf(t).Keys;
      assert |ViewOf(t)| == |ViewOf(t).Keys|;
    }

    static lemma {:induction false} SwapKeepsPrefix(t: Tables, n: nat, q: nat)
      requires RandomOk(t) && n <= q < |t.vRandom|
      ensures SwapsOnlyPositions(t, Swapped(t, n, q))
      ensures Swapped(t, n, q).vRandom[..n] == t.vRandom[..n]
    {
      SwapRandomOk(t, n, q);
    }

    /** One more returned entry after the swap that put it in place. */
    static lemma {:induction false} ReturnedMore(t0: Tables, t: Tables, before: seq<Address>, vAddr: seq<Address>,
        n: nat)
      requires Returned(t0, before, n) && |vAddr| == n + 1 && vAddr[..n] == before
      requires n < |t0.vRandom| == |t.vRandom| && SwapsOnlyPositions(t0, t) && t.vRandom[..n] == t0.vRandom[..n]
      requires t.vRandom[n] in t.mapInfo && vAddr[n] == AddressOf(EntryOf(t.mapInfo[t.vRandom[n]], {}))
      ensures Returned(t, vAddr, n + 1)
    {
      forall k | 0 <= k < n
        ensures t.vRandom[k] in t.mapInfo && vAddr[k] == AddressOf(EntryOf(t.mapInfo[t.vRandom[k]], {}))
      {
        assert t.vRandom[..n][k] == t0.vRandom[..n][k];
        assert vAddr[..n][k] == before[k];
        assert t0.vRandom[k] in t0.mapInfo.Keys;
      }
    }

    lemma {:induction false} SampleDistinct(vAddr: seq<Address>, n: nat)
      requires Valid() && Returned(T(), vAddr, n)
      ensures forall k :: 0 <= k < n ==> vAddr[k].service.net in V() && vAddr[k] == AddressOf(V()[vAddr[k].service.net])
      ensures forall j, k :: 0 <= j < k < n ==> vAddr[j].service.net != vAddr[k].service.net
    {
      hide NewOk, TriedOk, FlagsOk, CountsOk, Buckets;
      ghost var t := T();
      forall k | 0 <= k < n ensures vAddr[k].service.net in V() && vAddr[k] == AddressOf(V()[vAddr[k].service.net]) {
        ViewAt(t, vRandom[k]);
      }
      forall j, k | 0 <= j < k < n ensures vAddr[j].service.net != vAddr[k].service.net {
        var x, y := t.vRandom[j], t.vRandom[k];
        assert t.mapInfo[x].nRandomPos == j && t.mapInfo[y].nRandomPos == k;
        assert t.mapAddr[t.mapInfo[x].service.net] == x && t.mapAddr[t.mapInfo[y].service.net] == y;
      }
    }

    // --- Check_ ---------------------------------------------------------------------------

    /** Check_: zero exactly when the state passes. Its only effect is that looking up a
        missing address enters it as id 0: the one of id 0 itself, and on failure possibly
        that of the entry that failed. */
    method Check() returns (r: int)
      modifies `mapAddr
      ensures r == 0 <==> CheckPasses(old(T()))
      ensures AllKnown(old(T())) ==> mapAddr == old(mapAddr)
      ensures r == 0 ==> mapAddr == ZeroLookedUp(old(T()))
      ensures OneMore(old(T()), old(mapAddr), mapAddr) || OneMore(old(T()), ZeroLookedUp(old(T())), mapAddr)
    {
      hide EntryPasses, Count, Bag, ZeroLookedUp, OneMore;
      ghost var t0 := T();
      if |vRandom| != nTried + nNew {
        NoMore(t0, mapAddr);
        return -7;
      }
      var setTried, mapNew;
      r, setTried, mapNew := CheckEntries();
      if r != 0 {
        return;
      }
      NoMore(t0, mapAddr);
      assert setTried == TriedIds(mapInfo);
      if |setTried| != nTried {
        return -9;
      }
      assert mapNew.Keys == NewIds(mapInfo);
      assert forall id :: Left(mapNew, id) == RefCount(mapInfo, id);
      if |mapNew| != nNew {
        return -10;
      }
      var triedLeft, newLeft;
      r, triedLeft := CheckTried(setTried);
      if r != 0 {
        return;
      }
      r, newLeft := CheckNew(mapNew);
      if r != 0 {
        return;
      }
      if triedLeft != {} {
        return -13;
      }
      if newLeft != map[] {
        return -15;
      }
    }

    static ghost predicate AllKnown(t: Tables) { forall n :: n in t.mapInfo ==> t.mapInfo[n].service.net in t.mapAddr }

    /** The tests on one entry, with the map of addresses as earlier lookups left it. */
    method CheckEntry(n: int) returns (r: int)
      requires n in mapInfo
      modifies `mapAddr
      ensures r == 0 <==> EntryPasses(old(T()), n)
      ensures mapInfo[n].service.net in old(mapAddr) ==> mapAddr == old(mapAddr)
      ensures mapAddr == old(mapAddr) || mapAddr == LookedUp(old(mapAddr), mapInfo[n].service.net)
      ensures r == 0 ==> mapAddr == LookedUp(old(mapAddr), mapInfo[n].service.net)
    {
      var info := mapInfo[n];
      if info.fInTried {
        if info.nLastSuccess == 0 {
          return -1;
        }
        if info.nRefCount != 0 {
          return -2;
        }
      } else {
        if info.nRefCount < 0 || info.nRefCount > NEW_BUCKETS_PER_ADDRESS {
          return -3;
        }
        if info.nRefCount == 0 {
          return -4;
        }
      }
      if info.service.net !in mapAddr {
        mapAddr := mapAddr[info.service.net := 0];
      }
      if mapAddr[info.service.net] != n {
        return -5;
      }
      if info.nRandomPos < 0 || info.nRandomPos >= |vRandom| || vRandom[info.nRandomPos] != n {
        return -14;
      }
      if info.nLastTry < 0 {
        return -6;
      }
      if info.nLastSuccess < 0 {
        return -8;
      }
      r := 0;
    }

    static ghost function LookedUp(m: map<NetAddr, int>, a: NetAddr): map<NetAddr, int> {
      if a in m then m else m[a := 0]
    }

    /** The map with the address of id 0 entered. */
    static ghost function ZeroLookedUp(t: Tables): map<NetAddr, int> {
      if 0 in t.mapInfo then LookedUp(t.mapAddr, t.mapInfo[0].service.net) else t.mapAddr
    }

    /** At most the address of one more entry entered. */
    static ghost predicate OneMore(t: Tables, m: map<NetAddr, int>, m': map<NetAddr, int>) {
      m' == m || exists n :: n in t.mapInfo && m' == LookedUp(m, t.mapInfo[n].service.net)
    }

    static lemma {:induction false} NoMore(t: Tables, m: map<NetAddr, int>)
      ensures OneMore(t, m, m)
    {}

    /** Lookups that passed entered at most the address of id 0, and all of them did enter it. */
    static lemma {:induction false} LookupsMade(t: Tables, done: set<int>, m: map<NetAddr, int>)
      requires AfterLookups(t, done, m)
      ensures m == t.mapAddr || m == ZeroLookedUp(t)
      ensures done == t.mapInfo.Keys ==> m == ZeroLookedUp(t)
    {
      if 0 in t.mapInfo {
        assert 0 in done ==> t.mapInfo[0].service.net in m;
      }
    }

    /** The map of addresses once the entries in done have been looked up and passed. */
    static ghost predicate AfterLookups(t: Tables, done: set<int>, m: map<NetAddr, int>) {
      && (m == t.mapAddr || (0 in done && 0 in t.mapInfo && m == LookedUp(t.mapAddr, t.mapInfo[0].service.net)))
      && forall n :: n in done && n in t.mapInfo ==> t.mapInfo[n].service.net in m
    }

    static lemma {:induction false} LookupsHarmless(t: Tables, done: set<int>, m: map<NetAddr, int>, n: int)
      requires AfterLookups(t, done, m) && n in t.mapInfo && n !in done
      ensures EntryPasses(t.(mapAddr := m), n) <==> EntryPasses(t, n)
      ensures EntryPasses(t, n) ==> AfterLookups(t, done + {n}, LookedUp(m, t.mapInfo[n].service.net))
    {}

    /** The tests on single entries, and the ids left to find in the buckets. */
    method CheckEntries() returns (r: int, setTried: set<int>, mapNew: map<int, int>)
      modifies `mapAddr
      ensures r == 0 <==> forall n :: n in mapInfo ==> EntryPasses(old(T()), n)
      ensures AllKnown(old(T())) ==> mapAddr == old(mapAddr)
      ensures r == 0 ==> mapAddr == ZeroLookedUp(old(T()))
      ensures OneMore(old(T()), old(mapAddr), mapAddr) || OneMore(old(T()), ZeroLookedUp(old(T())), mapAddr)
      ensures r == 0 ==> Collected(mapInfo, mapInfo.Keys, setTried, mapNew)
    {
      hide EntryPasses, AfterLookups, Collected, LookedUp, TriedIds, NewIds, ZeroLookedUp;
      ghost var t0 := T();
      r, setTried, mapNew := 0, {}, map[];
      var todo := mapInfo.Keys;
      ghost var done: set<int> := {};
      NoLookups(t0);
      while todo != {}
        invariant todo == mapInfo.Keys - done && done <= mapInfo.Keys && r == 0
        invariant AfterLookups(t0, done, mapAddr)
        invariant AllKnown(t0) ==> mapAddr == t0.mapAddr
        invariant forall n :: n in done ==> EntryPasses(t0, n)
        invariant Collected(mapInfo, done, setTried, mapNew)
        decreases |todo|
      {
        ghost var some := Pick(todo);
        var n :| n in todo;
        LookupsHarmless(t0, done, mapAddr, n);
        LookupsMade(t0, done, mapAddr);
        assert T() == t0.(mapAddr := mapAddr);
        r := CheckEntry(n);
        if r != 0 {
          return;
        }
        CollectedMore(t0, n, done, setTried, mapNew);
        if mapInfo[n].fInTried {
          setTried := setTried + {n};
        } else {
          mapNew := mapNew[n := mapInfo[n].nRefCount];
        }
        todo, done := todo - {n}, done + {n};
      }
      assert done == mapInfo.Keys;
      LookupsMade(t0, done, mapAddr);
    }

    static lemma {:induction false} NoLookups(t: Tables)
      ensures AfterLookups(t, {}, t.mapAddr)
      ensures Collected(t.mapInfo, {}, {}, map[])
    {}

    /** The tried ids and the reference counts of the new ids among the ids in done. */
    static ghost predicate Collected(m: map<int, Info>, done: set<int>, setTried: set<int>, mapNew: map<int, int>) {
      && setTried == TriedIds(m) * done && mapNew.Keys == NewIds(m) * done
      && forall id :: id in mapNew ==> mapNew[id] == m[id].nRefCount > 0
    }

    static lemma {:induction false} CollectedMore(t: Tables, n: int, done: set<int>, setTried: set<int>,
        mapNew: map<int, int>)
      requires n in t.mapInfo && EntryPasses(t, n) && Collected(t.mapInfo, done, setTried, mapNew)
      ensures t.mapInfo[n].fInTried ==> Collected(t.mapInfo, done + {n}, setTried + {n}, mapNew)
      ensures !t.mapInfo[n].fInTried ==>
        Collected(t.mapInfo, done + {n}, setTried, mapNew[n := t.mapInfo[n].nRefCount])
    {}

    /** Strikes off the ids listed in tried buckets. */
    method CheckTried(ids: set<int>) returns (r: int, setTried: set<int>)
      ensures r == 0 && setTried == {} <==> Bag(vvTried) == multiset(ids)
    {
      setTried := ids;
      ghost var bag: multiset<int> := multiset{};
      for n := 0 to |vvTried|
        invariant bag == Bag(vvTried[..n]) && bag + multiset(setTried) == multiset(ids)
      {
        assert vvTried[..n + 1][..n] == vvTried[..n];
        var vTried := vvTried[n];
        for k := 0 to |vTried|
          invariant bag == Bag(vvTried[..n]) + multiset(vTried[..k])
          invariant bag + multiset(setTried) == multiset(ids)
        {
          assert vTried[..k + 1] == vTried[..k] + [vTried[k]];
          if vTried[k] !in setTried {
            BagPart(vvTried, n, k);
            assert Bag(vvTried) != multiset(ids) by {
              assert multiset(setTried)[vTried[k]] == 0;
            }
            return -11, setTried;
          }
          setTried := setTried - {vTried[k]};
          bag := bag + multiset{vTried[k]};
        }
        assert vTried[..|vTried|] == vTried;
      }
      assert vvTried[..|vvTried|] == vvTried;
      r := 0;
      assert setTried == {} <==> multiset(setTried) == multiset{};
    }

    static lemma {:induction false} BagPart(vv: seq<seq<int>>, n: nat, k: nat)
      requires n < |vv| && k < |vv[n]|
      ensures (Bag(vv[..n]) + multiset(vv[n][..k]))[vv[n][k]] < Bag(vv)[vv[n][k]]
    {
      var m := |vv| - 1;
      if n == m {
        assert vv[n] == vv[n][..k] + [vv[n][k]] + vv[n][k + 1..];
      } else {
        BagPart(vv[..m], n, k);
        assert vv[..m][..n] == vv[..n];
      }
    }

    /** Counts down the references found in new buckets. */
    method CheckNew(refs: map<int, int>) returns (r: int, mapNew: map<int, int>)
      requires forall id :: id in refs ==> refs[id] > 0
      ensures r == 0 && mapNew == map[] <==> forall id :: Count(vvNew, id) == Left(refs, id)
    {
      mapNew := refs;
      for n := 0 to |vvNew|
        invariant forall id :: id in mapNew ==> mapNew[id] > 0
        invariant forall id :: Count(vvNew[..n], id) + Left(mapNew, id) == Left(refs, id)
      {
        assert vvNew[..n + 1][..n] == vvNew[..n];
        var todo := vvNew[n];
        while todo != {}
          invariant todo <= vvNew[n]
          invariant forall id :: id in mapNew ==> mapNew[id] > 0
          invariant forall id :: Count(vvNew[..n], id) + Struck(vvNew[n], todo, id) + Left(mapNew, id) == Left(refs, id)
          decreases |todo|
        {
          ghost var some := Pick(todo);
          var it :| it in todo;
          if it !in mapNew {
            CountPart(vvNew, n, it);
            assert Struck(vvNew[n], todo, it) == 0;
            assert Count(vvNew, it) != Left(refs, it);
            return -12, mapNew;
          }
          todo := todo - {it};
          mapNew := if mapNew[it] == 1 then mapNew - {it} else mapNew[it := mapNew[it] - 1];
        }
        forall id ensures Count(vvNew[..n + 1], id) + Left(mapNew, id) == Left(refs, id) {
          assert Struck(vvNew[n], todo, id) == if id in vvNew[n] then 1 else 0;
        }
      }
      assert vvNew[..|vvNew|] == vvNew;
      r := 0;
      if mapNew != map[] {
        ghost var id := Pick(mapNew.Keys);
        assert Left(mapNew, id) > 0;
        assert Count(vvNew, id) != Left(refs, id);
      }
    }

    static function Left(m: map<int, int>, id: int): int { if id in m then m[id] else 0 }

    static ghost function Struck(bucket: set<int>, todo: set<int>, id: int): nat {
      if id in bucket && id !in todo then 1 else 0
    }

    static lemma {:induction false} CountPart(vv: seq<set<int>>, n: nat, id: int)
      requires n < |vv| && id in vv[n]
      ensures Count(vv[..n], id) < Count(vv, id)
    {
      var m := |vv| - 1;
      if n < m {
        CountPart(vv[..m], n, id);
        assert vv[..m][..n] == vv[..n];
      }
    }

    // --- Serialization ------------------------------------------------------------------------

    /** Writing. */
    method Serialize() returns (s: seq<Token>)
      requires Valid()
      ensures s == Written(T(), nKey)
    {
      hide IdsOk, RandomOk, NewOk, TriedOk, FlagsOk, CountsOk, Sorted;
      StoredSizes();
      s := [Number(0), Secret(nKey), Number(nNew), Number(nTried)];
      var nUBuckets := NEW_BUCKET_COUNT;
      s := s + [Number(nUBuckets)];
      var news, mapUnkIds := WriteNew();
      var tried := WriteTried();
      var buckets := WriteBuckets(mapUnkIds);
      s := s + (news + (tried + buckets));
    }

    ghost predicate Untried(vNew: set<int>)
      reads this
    {
      forall x :: x in vNew ==> 0 <= x < nIdCount && x in NewIds(mapInfo)
    }

    lemma {:induction false} StoredSizes()
      requires Valid()
      ensures |Sorted(NewIds(mapInfo), nIdCount)| == nNew && |Sorted(TriedIds(mapInfo), nIdCount)| == nTried
      ensures forall id :: id in mapInfo ==>
        0 <= id < nIdCount && (mapInfo[id].nRefCount != 0 <==> id in NewIds(mapInfo))
      ensures forall b :: 0 <= b < |vvNew| ==> Untried(vvNew[b])
    {
      hide RandomOk, TriedOk, Sorted;
      forall id | id in mapInfo ensures 0 <= id < nIdCount && (mapInfo[id].nRefCount != 0 <==> id in NewIds(mapInfo)) {
        assert id in T().mapInfo;
      }
      forall b | 0 <= b < |vvNew| ensures Untried(vvNew[b]) {
        forall x | x in vvNew[b] ensures 0 <= x < nIdCount && x in NewIds(mapInfo) {
          assert x in T().vvNew[b] && x in T().mapInfo;
        }
      }
      SortedSize(NewIds(mapInfo), nIdCount);
      SortedSize(TriedIds(mapInfo), nIdCount);
    }

    /** Once the last member is out, the rest of the scan finds none. */
    static lemma {:induction false} SortedStop(s: set<int>, k: nat, n: nat)
      requires k <= n
      ensures |Sorted(s, k)| <= |Sorted(s, n)|
      ensures |Sorted(s, k)| == |Sorted(s, n)| ==>
        Sorted(s, k) == Sorted(s, n) && forall x :: x in s && x >= k ==> x >= n
    {
      if k < n {
        SortedStop(s, k, n - 1);
      }
    }

    method WriteNew() returns (s: seq<Token>, mapUnkIds: map<int, int>)
      requires |Sorted(NewIds(mapInfo), nIdCount)| == nNew
      requires forall id :: id in mapInfo ==>
        0 <= id < nIdCount && (mapInfo[id].nRefCount != 0 <==> id in NewIds(mapInfo))
      ensures s == Records(mapInfo, NewOrder(T()))
      ensures forall x: nat :: x in NewIds(mapInfo) ==> x in mapUnkIds && mapUnkIds[x] == |Sorted(NewIds(mapInfo), x)|
    {
      ghost var ids := NewIds(mapInfo);
      s, mapUnkIds := [], map[];
      var nIds := 0;
      ghost var k: nat := nIdCount;
      for id := 0 to nIdCount
        invariant nIds == |s| == |Sorted(ids, id)| && k == nIdCount
        invariant forall j :: 0 <= j < |s| ==>
          Sorted(ids, id)[j] in mapInfo && s[j] == Record(Store(mapInfo[Sorted(ids, id)[j]]))
        invariant forall x: nat :: x in ids && x < id ==> x in mapUnkIds && mapUnkIds[x] == |Sorted(ids, x)|
      {
        if id in mapInfo {
          if nIds == nNew {
            k := id;
            break;
          }
          mapUnkIds := mapUnkIds[id := nIds];
          if mapInfo[id].nRefCount != 0 {
            s := s + [Record(Store(mapInfo[id]))];
            nIds := nIds + 1;
          }
        }
      }
      SortedStop(ids, k, nIdCount);
    }

    method WriteTried() returns (s: seq<Token>)
      requires |Sorted(TriedIds(mapInfo), nIdCount)| == nTried
      requires forall id :: id in mapInfo ==> 0 <= id < nIdCount
      ensures s == Records(mapInfo, TriedOrder(T()))
    {
      ghost var ids := TriedIds(mapInfo);
      s := [];
      var nIds := 0;
      ghost var k: nat := nIdCount;
      for id := 0 to nIdCount
        invariant nIds == |s| == |Sorted(ids, id)| && k == nIdCount
        invariant forall j :: 0 <= j < |s| ==>
          Sorted(ids, id)[j] in mapInfo && s[j] == Record(Store(mapInfo[Sorted(ids, id)[j]]))
      {
        if id in mapInfo {
          if nIds == nTried {
            k := id;
            break;
          }
          if mapInfo[id].fInTried {
            s := s + [Record(Store(mapInfo[id]))];
            nIds := nIds + 1;
          }
        }
      }
      SortedStop(ids, k, nIdCount);
    }

    method WriteBuckets(mapUnkIds: map<int, int>) returns (s: seq<Token>)
      requires forall b :: 0 <= b < |vvNew| ==> Untried(vvNew[b])
      requires forall x: nat :: x in NewIds(mapInfo) ==> x in mapUnkIds && mapUnkIds[x] == |Sorted(NewIds(mapInfo), x)|
      ensures s == BucketsTokens(NewIds(mapInfo), vvNew, 0, nIdCount)
    {
      ghost var all := BucketsTokens(NewIds(mapInfo), vvNew, 0, nIdCount);
      s := [];
      for b := 0 to |vvNew|
        invariant s + BucketsTokens(NewIds(mapInfo), vvNew, b, nIdCount) == all
      {
        var bucket := WriteBucket(vvNew[b], mapUnkIds);
        ghost var rest := BucketsTokens(NewIds(mapInfo), vvNew, b + 1, nIdCount);
        assert s + (bucket + rest) == (s + bucket) + rest;
        s := s + bucket;
      }
      assert s + [] == s;
    }

    method WriteBucket(vNew: set<int>, mapUnkIds: map<int, int>) returns (s: seq<Token>)
      requires Untried(vNew)
      requires forall x: nat :: x in NewIds(mapInfo) ==> x in mapUnkIds && mapUnkIds[x] == |Sorted(NewIds(mapInfo), x)|
      ensures s == BucketTokens(NewIds(mapInfo), vNew, nIdCount)
    {
      s := [Number(|vNew|)];
      for x := 0 to nIdCount
        invariant |s| == 1 + |Sorted(vNew, x)| && s[0] == Number(|vNew|)
        invariant forall j :: 0 <= j < |Sorted(vNew, x)| ==>
          0 <= Sorted(vNew, x)[j] && s[1 + j] == Number(|Sorted(NewIds(mapInfo), Sorted(vNew, x)[j])|)
      {
        if x in vNew {
          var nIndex := mapUnkIds[x];
          s := s + [Number(nIndex)];
        }
      }
      SortedMembers(vNew, nIdCount);
    }

    /** Reading. When it fails an exception leaves the object half filled. */
    method Unserialize(s: seq<Token>) returns (ok: bool)
      modifies this
      ensures ok ==> HeaderOk(s) && nKey == s[1].key
      ensures HeaderOk(s) ==> var r := Reader(s, hashing(s[1].key));
        ok == r.Read? && (ok ==> T() == r.t)
    {
      hide AddNew, AddMember, AddTried, ReadNew, ReadTried, ReadBuckets;
      if !HeaderOk(s) {
        return false;
      }
      nKey, nNew, nTried := s[1].key, s[2].n, s[3].n;
      var nUBuckets := s[4].n;
      nIdCount, mapInfo, mapAddr, vRandom := 0, map[], map[], [];
      vvTried := seq(TRIED_BUCKET_COUNT, _ => []);
      vvNew := seq(NEW_BUCKET_COUNT, _ => {});
      assert T() == Cleared(s[2].n, s[3].n);
      var rest;
      ok, rest := UnserializeNew(s[5..], nUBuckets);
      if !ok {
        return;
      }
      nIdCount := nNew;
      ok, rest := UnserializeTried(rest);
      if !ok {
        return;
      }
      ok, rest := UnserializeBuckets(rest, nUBuckets);
    }

    method UnserializeNew(s: seq<Token>, nUBuckets: int) returns (ok: bool, rest: seq<Token>)
      requires 0 <= nNew
      modifies `mapInfo, `mapAddr, `vRandom, `vvNew
      ensures ReadNew(old(T()), H(), nUBuckets != NEW_BUCKET_COUNT, 0, nNew, s) == if ok then Read(T(), rest)
        else Failed
    {
      hide AddNew;
      rest := s;
      ghost var r := ReadNew(T(), H(), nUBuckets != NEW_BUCKET_COUNT, 0, nNew, s);
      for n := 0 to nNew
        invariant r == ReadNew(T(), H(), nUBuckets != NEW_BUCKET_COUNT, n, nNew, rest)
      {
        if rest == [] || !rest[0].Record? {
          return false, rest;
        }
        EnterStored(Load(rest[0].i), n, nUBuckets != NEW_BUCKET_COUNT);
        rest := rest[1..];
      }
      ok := true;
    }

    /** One new entry, under id n. */
    method EnterStored(info0: Info, n: nat, rebuild: bool)
      modifies `mapInfo, `mapAddr, `vRandom, `vvNew
      ensures T() == AddNew(old(T()), H(), rebuild, n, info0)
    {
      var info := info0;
      mapAddr := mapAddr[info.service.net := n];
      info := info.(nRandomPos := |vRandom|);
      vRandom := vRandom + [n];
      if rebuild {
        var b := hashing(nKey).newBucket(info.service.net, info.source);
        if b < |vvNew| {
          vvNew := vvNew[b := vvNew[b] + {n}];
          info := info.(nRefCount := info.nRefCount + 1);
        }
      }
      mapInfo := mapInfo[n := info];
    }

    method UnserializeTried(s: seq<Token>) returns (ok: bool, rest: seq<Token>)
      requires |vvTried| == TRIED_BUCKET_COUNT
      modifies `mapInfo, `mapAddr, `vRandom, `vvTried, `nIdCount, `nTried
      ensures ReadTried(old(T()), H(), 0, 0, s) == if ok then Read(T(), rest) else Failed
    {
      rest := s;
      ghost var r := ReadTried(T(), H(), 0, 0, s);
      var nLost := 0;
      var n := 0;
      while n < nTried
        invariant |vvTried| == TRIED_BUCKET_COUNT && r == ReadTried(T(), H(), n, nLost, rest)
        decreases nTried - n
      {
        if rest == [] || !rest[0].Record? {
          return false, rest;
        }
        var info := Load(rest[0].i);
        rest := rest[1..];
        var b := hashing(nKey).triedBucket(info.service);
        if |vvTried[b]| < TRIED_BUCKET_SIZE {
          info := info.(nRandomPos := |vRandom|, fInTried := true);
          vRandom := vRandom + [nIdCount];
          mapInfo := mapInfo[nIdCount := info];
          mapAddr := mapAddr[info.service.net := nIdCount];
          vvTried := vvTried[b := vvTried[b] + [nIdCount]];
          nIdCount := nIdCount + 1;
        } else {
          nLost := nLost + 1;
        }
        n := n + 1;
      }
      nTried := nTried - nLost;
      ok := true;
    }

    method UnserializeBuckets(s: seq<Token>, nUBuckets: int) returns (ok: bool, rest: seq<Token>)
      modifies `mapInfo, `vvNew
      ensures ReadBuckets(old(T()), 0, nUBuckets, s) == if ok then Read(T(), rest) else Failed
    {
      rest := s;
      ghost var r := ReadBuckets(T(), 0, nUBuckets, s);
      var b := 0;
      while b < nUBuckets
        invariant 0 <= b && r == ReadBuckets(T(), b, nUBuckets, rest)
        decreases nUBuckets - b
      {
        if b >= |vvNew| || rest == [] || !rest[0].Number? {
          return false, rest;
        }
        var nSize := rest[0].n;
        ok, rest := UnserializeBucket(rest[1..], b, nSize, nUBuckets == NEW_BUCKET_COUNT);
        if !ok {
          return false, rest;
        }
        b := b + 1;
      }
      ok := true;
    }

    method UnserializeBucket(s: seq<Token>, b: nat, nSize: int, keep: bool) returns (ok: bool, rest: seq<Token>)
      requires b < |vvNew|
      modifies `mapInfo, `vvNew
      ensures ReadBucket(old(T()), keep, b, 0, nSize, s) == if ok then Read(T(), rest) else Failed
    {
      rest := s;
      ghost var r := ReadBucket(T(), keep, b, 0, nSize, s);
      var n := 0;
      while n < nSize
        invariant b < |vvNew| && r == ReadBucket(T(), keep, b, n, nSize, rest)
        decreases nSize - n
      {
        if rest == [] || !rest[0].Number? {
          return false, rest;
        }
        ghost var t := T();
        var nIndex := rest[0].n;
        rest := rest[1..];
        if nIndex !in mapInfo {
          mapInfo := mapInfo[nIndex := DEFAULT_INFO];
        }
        if keep && mapInfo[nIndex].nRefCount < NEW_BUCKETS_PER_ADDRESS {
          mapInfo := mapInfo[nIndex := mapInfo[nIndex].(nRefCount := mapInfo[nIndex].nRefCount + 1)];
          vvNew := vvNew[b := vvNew[b] + {nIndex}];
        }
        assert T().mapInfo == AddMember(t, keep, b, nIndex).mapInfo;
        n := n + 1;
      }
      ok := true;
    }
  }
}
