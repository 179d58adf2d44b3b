/** Whom Add_ takes out of a full new bucket, and what it writes into an entry, in terms of
    time stamps, attempts and service bits. */
module AddrVictims {
  import opened AddrTables
  import opened AddrMoves
  import opened AddrSpec
  import opened Words

  // --- Who may be taken out ---------------------------------------------------------------------

  /** Tried at most a minute ago. */
  predicate TriedLately(e: Entry, nNow: int) { e.nLastTry != 0 && nNow - e.nLastTry <= 60 }

  /** No time stamp, one over 30 days old, or one over 10 minutes ahead. */
  predicate BadStamp(e: Entry, nNow: int) {
    e.nTime == 0 || nNow - e.nTime > 2592000 || e.nTime - nNow > 600
  }

  /** Three attempts and never a success, or ten attempts and none for over a week. */
  predicate Hopeless(e: Entry, nNow: int) {
    (e.nAttempts >= 3 && e.nLastSuccess == 0) || (e.nAttempts >= 10 && nNow - e.nLastSuccess > 604800)
  }

  predicate Disposable(e: Entry, nNow: int) {
    !TriedLately(e, nNow) && (BadStamp(e, nNow) || Hopeless(e, nNow))
  }

  lemma {:induction false} TerribleIsDisposable(e: Entry, nNow: int)
    ensures IsTerrible(e, nNow) <==> Disposable(e, nNow)
  {}

  /** The thresholds to the second and to the attempt. */
  lemma {:induction false} Thresholds(e0: Entry, nNow: nat)
    requires nNow > 2592001
    ensures var e := e0.(nLastTry := 0, nTime := nNow, nLastSuccess := nNow, nAttempts := 0);
      && !IsTerrible(e, nNow) && IsTerrible(e.(nTime := 0), nNow)
      && !IsTerrible(e.(nTime := nNow - 2592000), nNow) && IsTerrible(e.(nTime := nNow - 2592001), nNow)
      && !IsTerrible(e.(nTime := nNow + 600), nNow) && IsTerrible(e.(nTime := nNow + 601), nNow)
      && !IsTerrible(e.(nTime := 0, nLastTry := nNow - 60), nNow)
      && IsTerrible(e.(nTime := 0, nLastTry := nNow - 61), nNow)
      && !IsTerrible(e.(nLastSuccess := 0, nAttempts := 2), nNow)
      && IsTerrible(e.(nLastSuccess := 0, nAttempts := 3), nNow)
      && !IsTerrible(e.(nLastSuccess := nNow - 604800, nAttempts := 10), nNow)
      && !IsTerrible(e.(nLastSuccess := nNow - 604801, nAttempts := 9), nNow)
      && IsTerrible(e.(nLastSuccess := nNow - 604801, nAttempts := 10), nNow)
  {}

  /** The view just before the address enters its bucket. */
  function Prepared(v: View, addr: Address, source: NetAddr, nTimePenalty: int, nNow: int): View {
    var a := addr.service.net;
    v[a := if a in v then Refreshed(v[a], addr, nTimePenalty, nNow) else NewEntry(addr, source, nTimePenalty)]
  }

  /** Address c leaves full bucket b, forgotten if it is in no other, to make room for a. */
  ghost predicate MakesRoom(v: View, v': View, a: NetAddr, b: nat, nNow: int, c: NetAddr) {
    && a in v && c in Listed(v, b) && c in v && c != a
    && v' == LeaveBucket(v, c, b)[a := v[a].(buckets := v[a].buckets + {b})]
    && ((exists d :: d in Listed(v, b) && d in v && Disposable(v[d], nNow)) ==> Disposable(v[c], nNow))
  }

  lemma {:induction false} EnterVictim(v: View, v': View, a: NetAddr, b: nat, nNow: int) returns (c: NetAddr)
    requires EnterBucket(v, v', a, b, nNow) && |Listed(v, b)| == NEW_BUCKET_SIZE && a in v && b !in v[a].buckets
    ensures MakesRoom(v, v', a, b, nNow, c)
  {
    hide IsTerrible, Disposable;
    var w :| Shrunk(v, w, b, nNow) && a in w && v' == Enter(w, a, b);
    c :| ShrunkBy(v, w, b, nNow, c);
    ListedKnown(v, b, c);
    TerribleIsDisposable(v[c], nNow);
    forall d | d in Listed(v, b) && d in v && Disposable(v[d], nNow) ensures Disposable(v[c], nNow) {
      TerribleIsDisposable(v[d], nNow);
    }
  }

  /** When Add_ enters an address in a full bucket, exactly one other address leaves the
      bucket. If some address of the bucket is disposable, the one that leaves is. */
  lemma {:induction false} AddVictim(v: View, v': View, ret: bool, nRand: nat, h: Hashing, addr: Address,
                                     source: NetAddr, nTimePenalty: int, nNow: int) returns (c: NetAddr)
    requires AddSpec(v, v', ret, nRand, h, true, addr, source, nTimePenalty, nNow)
    requires var v1, b := Prepared(v, addr, source, nTimePenalty, nNow), h.newBucket(addr.service.net, source);
      v' != v1 && |Listed(v1, b)| == NEW_BUCKET_SIZE
    ensures MakesRoom(Prepared(v, addr, source, nTimePenalty, nNow), v', addr.service.net,
                      h.newBucket(addr.service.net, source), nNow, c)
  {
    hide EnterBucket, Refreshed, Settled, MakesRoom, Listed;
    var v1, b := Prepared(v, addr, source, nTimePenalty, nNow), h.newBucket(addr.service.net, source);
    c := EnterVictim(v1, v', addr.service.net, b, nNow);
  }

  // --- What is written ---------------------------------------------------------------------------

  /** All bits of x are set in z. */
  predicate Contains(z: bv64, x: bv64) { z & x == x }

  /** r has all bits of x and of y, and no others: whatever has those has all of r. */
  ghost predicate Joins(r: bv64, x: bv64, y: bv64) {
    && Contains(r, x) && Contains(r, y)
    && forall z: bv64 :: Contains(z, x) && Contains(z, y) ==> Contains(z, r)
  }

  /** The services known afterwards are those known before and those announced. */
  lemma {:induction false} AddServices(v: View, v': View, ret: bool, nRand: nat, h: Hashing, addr: Address,
                                       source: NetAddr, nTimePenalty: int, nNow: int)
    requires AddSpec(v, v', ret, nRand, h, true, addr, source, nTimePenalty, nNow)
    ensures var a := addr.service.net;
      a in v' && Joins(v'[a].nServices, if a in v then v[a].nServices else 0, addr.nServices)
  {
    hide Joins, Listed, IsTerrible, Settled, Services, ToUint32;
    var a, b := addr.service.net, h.newBucket(addr.service.net, source);
    var v1 := Prepared(v, addr, source, nTimePenalty, nNow);
    if v' != v1 {
      EnterKeepsServices(v1, v', a, b, nNow);
    }
    if a in v { ServicesJoin(v[a].nServices, addr.nServices); } else { NoneJoin(addr.nServices); }
  }

  lemma {:induction false} EnterKeepsServices(v: View, v': View, a: NetAddr, b: nat, nNow: int)
    requires a in v && EnterBucket(v, v', a, b, nNow)
    ensures a in v' && v'[a].nServices == v[a].nServices
  {
    hide Listed, IsTerrible;
    if |Listed(v, b)| == NEW_BUCKET_SIZE {
      var w :| Shrunk(v, w, b, nNow) && a in w && v' == Enter(w, a, b);
      var c :| ShrunkBy(v, w, b, nNow, c);
      assert c in v by { ListedKnown(v, b, c); }
    }
  }

  lemma {:induction false} ServicesJoin(x: bv64, y: bv64)
    ensures Joins(Services(x, y), x, y)
  {
    hide Contains, Services;
    ServicesContain(x, y);
    forall z: bv64 | Contains(z, x) && Contains(z, y) ensures Contains(z, Services(x, y)) {
      ServicesLeast(x, y, z);
    }
  }

  lemma {:induction false} ServicesContain(x: bv64, y: bv64)
    ensures Contains(Services(x, y), x) && Contains(Services(x, y), y)
  {}

  lemma {:induction false} ServicesLeast(x: bv64, y: bv64, z: bv64)
    requires Contains(z, x) && Contains(z, y)
    ensures Contains(z, Services(x, y))
  {}

  lemma {:induction false} NoneJoin(y: bv64)
    ensures Joins(y, 0, y)
  {}

  /** Time stamps of 64 bits are cut to 32: numbers in range stay, and the rest is modulo 2^32. */
  lemma {:induction false} Uint32Is(x: int)
    ensures 0 <= x < WORD32 ==> ToUint32(x) == x
    ensures ToUint32(x) < WORD32 && ToUint32(x + WORD32) == ToUint32(x)
  {}

  /** An entry is in at most four new buckets. */
  lemma {:induction false} FourBuckets(v: View, h: Hashing, a: NetAddr)
    requires ViewOk(v, h) && a in v
    ensures |v[a].buckets| <= 4 && (v[a].tried <==> v[a].buckets == {})
  {}
}
