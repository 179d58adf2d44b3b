/** What the operations of CAddrMan do to the addresses, stated on the view. */
module AddrSpec {
  import opened AddrTables
  import opened AddrSteps
  import opened AddrMoves
  import opened Words

  function ToUint32(x: int): nat { x % 0x1_0000_0000 }

  /** nServices |= more */
  function Services(nServices: bv64, more: bv64): bv64 { nServices | more }

  // --- Bucket sizes seen from the view -----------------------------------------------

  /** Addresses listed in new bucket b. */
  ghost function Listed(v: View, b: nat): set<NetAddr> { set a | a in v && b in v[a].buckets }

  /** Tried addresses whose own tried bucket is k. */
  ghost function TriedIn(v: View, h: Hashing, k: nat): set<NetAddr> {
    set a | a in v && v[a].tried && h.triedBucket(v[a].service) == k
  }

  function NetsOf(ids: set<int>, m: map<int, Info>): set<NetAddr> {
    set x | x in ids && x in m :: m[x].service.net
  }

  lemma {:induction false} ImageSize(ids: set<int>, m: map<int, Info>)
    requires ids <= m.Keys
    requires forall x, y :: x in ids && y in ids && m[x].service.net == m[y].service.net ==> x == y
    ensures |NetsOf(ids, m)| == |ids|
    decreases |ids|
  {
    if ids == {} {
      assert NetsOf(ids, m) == {};
    } else {
      var x := Pick(ids);
      var rest := ids - {x};
      ImageSize(rest, m);
      assert NetsOf(ids, m) == NetsOf(rest, m) + {m[x].service.net};
    }
  }

  lemma {:induction false} ListedSize(t: Tables, pend: int, b: nat)
    requires IdsOk(t) && NewOk(t, pend) && b < |t.vvNew|
    ensures |Listed(ViewOf(t), b)| == |t.vvNew[b]|
  {
    var ids := t.vvNew[b];
    forall x | x in ids ensures x in t.mapInfo {}
    ImageSize(ids, t.mapInfo);
    var image := NetsOf(ids, t.mapInfo);
    forall a ensures a in image <==> a in Listed(ViewOf(t), b) {
      if a in Listed(ViewOf(t), b) { assert t.mapAddr[a] in ids; }
    }
    assert image == Listed(ViewOf(t), b);
  }

  lemma {:induction false} TriedInSize(t: Tables, h: Hashing, k: nat)
    requires IdsOk(t) && TriedOk(t, h) && k < |t.vvTried|
    ensures |TriedIn(ViewOf(t), h, k)| == |t.vvTried[k]|
  {
    var ids := SetOf(t.vvTried[k]);
    SetOfSize(t.vvTried[k]);
    forall x | x in ids ensures TriedMember(t, h, x, k) {
      var n :| 0 <= n < |t.vvTried[k]| && t.vvTried[k][n] == x;
      assert TriedMember(t, h, t.vvTried[k][n], k);
    }
    ImageSize(ids, t.mapInfo);
    var image := NetsOf(ids, t.mapInfo);
    forall a ensures a in image <==> a in TriedIn(ViewOf(t), h, k) {
      if a in TriedIn(ViewOf(t), h, k) { assert t.mapAddr[a] in ids; }
    }
    assert image == TriedIn(ViewOf(t), h, k);
  }

  // --- Statistics --------------------------------------------------------------------------

  /** The entry of exactly this service (address and port). */
  predicate Known(v: View, s: Service) { s.net in v && v[s.net].service == s }

  function Attempted(v: View, s: Service, nTime: int): View {
    if Known(v, s) then v[s.net := v[s.net].(nLastTry := nTime, nAttempts := v[s.net].nAttempts + 1)] else v
  }

  function Connected(v: View, s: Service, nTime: int): View {
    if Known(v, s) && nTime - v[s.net].nTime > 20 * 60 then v[s.net := v[s.net].(nTime := ToUint32(nTime))] else v
  }

  function Stamped(e: Entry, nTime: int): Entry {
    e.(nLastSuccess := nTime, nLastTry := nTime, nTime := ToUint32(nTime), nAttempts := 0)
  }

  // --- Good_ -----------------------------------------------------------------------------------

  /** Where an entry evicted from the tried table to make room for a may go. */
  ghost predicate EvictedTo(v: View, h: Hashing, a: NetAddr, c: NetAddr, b: nat)
    requires a in v && c in v
  {
    var u := h.newBucket(c, v[c].source);
    if |Listed(v, u) - {a}| < NEW_BUCKET_SIZE then b == u else b in v[a].buckets
  }

  ghost predicate Evicts(v: View, v': View, h: Hashing, a: NetAddr, c: NetAddr, b: nat)
    requires a in v
  {
    && c in TriedIn(v, h, h.triedBucket(v[a].service)) && c != a && EvictedTo(v, h, a, c, b)
    && v' == v[a := v[a].(tried := true, buckets := {})][c := v[c].(tried := false, buckets := {b})]
  }

  /** a moves from the new to the tried table; if its tried bucket is full exactly
      one entry of that bucket moves back. */
  ghost predicate MovedToTried(v: View, v': View, h: Hashing, a: NetAddr)
    requires a in v
  {
    if |TriedIn(v, h, h.triedBucket(v[a].service))| < TRIED_BUCKET_SIZE then
      v' == v[a := v[a].(tried := true, buckets := {})]
    else
      exists c, b :: Evicts(v, v', h, a, c, b)
  }

  ghost predicate GoodSpec(v: View, v': View, h: Hashing, s: Service, nTime: int) {
    if !Known(v, s) then v' == v
    else
      var v1 := v[s.net := Stamped(v[s.net], nTime)];
      if v[s.net].tried then v' == v1 else MovedToTried(v1, v', h, s.net)
  }

  lemma {:induction false} PromoteMoved(t: Tables, h: Hashing, id: int)
    requires Inv(t, h) && id in t.mapInfo && !t.mapInfo[id].fInTried
    requires |t.vvTried[h.triedBucket(t.mapInfo[id].service)]| < TRIED_BUCKET_SIZE
    ensures Inv(Promoted(t, h, id), h)
    ensures var a := t.mapInfo[id].service.net;
      a in ViewOf(t) && MovedToTried(ViewOf(t), ViewOf(Promoted(t, h, id)), h, a)
  {
    hide RandomOk, NewOk, FlagsOk, CountsOk, Promoted, TriedIn, Buckets;
    PromoteKeeps(t, h, id);
    ViewAt(t, id);
    TriedInSize(t, h, h.triedBucket(t.mapInfo[id].service));
  }

  /** The bucket chosen for an evicted entry. */
  ghost predicate TargetOk(t: Tables, h: Hashing, id: int, evicted: Info, target: nat)
    requires |t.vvNew| == NEW_BUCKET_COUNT
  {
    var u := h.newBucket(evicted.service.net, evicted.source);
    target < |t.vvNew| &&
    if |Unlisted(t.vvNew, id)[u]| < NEW_BUCKET_SIZE then target == u else id in t.vvNew[target]
  }

  lemma {:induction false} ExchangeMoved(t: Tables, h: Hashing, id: int, vt: seq<int>, pos: nat, target: nat)
    requires CanExchange(t, h, id, vt, pos, target)
    requires |t.vvTried[h.triedBucket(t.mapInfo[id].service)]| >= TRIED_BUCKET_SIZE
    requires vt[pos] in t.mapInfo && TargetOk(t, h, id, t.mapInfo[vt[pos]], target)
    ensures |t.vvTried| == TRIED_BUCKET_COUNT
    ensures Inv(Exchanged(t, h, id, vt, pos, target), h)
    ensures var a := t.mapInfo[id].service.net;
      a in ViewOf(t) && MovedToTried(ViewOf(t), ViewOf(Exchanged(t, h, id, vt, pos, target)), h, a)
  {
    hide RandomOk, FlagsOk, CountsOk, Exchanged, Buckets, NewOk, Listed, TriedIn, TriedOk;
    Evictee(t, h, id, vt, pos, target);
    TriedBuckets(t, h);
    ExchangeKeeps(t, h, id, vt, pos, target);
    ViewAt(t, id);
    ViewAt(t, vt[pos]);
    var v, a, c := ViewOf(t), t.mapInfo[id].service.net, t.mapInfo[vt[pos]].service.net;
    var k := h.triedBucket(t.mapInfo[id].service);
    NewSizes(t);
    TriedInSize(t, h, k);
    InTried(v, h, c, k);
    ListedWithout(t, id, h.newBucket(c, v[c].source));
    BucketsSame(t.vvNew, target, id);
    assert EvictedTo(v, h, a, c, target);
    assert Evicts(v, ViewOf(Exchanged(t, h, id, vt, pos, target)), h, a, c, target);
  }

  lemma {:induction false} InTried(v: View, h: Hashing, c: NetAddr, k: nat)
    requires c in v && v[c].tried && h.triedBucket(v[c].service) == k
    ensures c in TriedIn(v, h, k)
  {}

  lemma {:induction false} ListedWithout(t: Tables, id: int, u: nat)
    requires IdsOk(t) && NewOk(t, -1) && u < |t.vvNew| && id in t.mapInfo
    ensures |Listed(ViewOf(t), u) - {t.mapInfo[id].service.net}| == |Unlisted(t.vvNew, id)[u]|
  {
    ListedSize(t, -1, u);
    UnlistedSize(t.vvNew, id, u);
    ViewAt(t, id);
    var a, s := t.mapInfo[id].service.net, Listed(ViewOf(t), u);
    assert a in s <==> id in t.vvNew[u];
    if a !in s { assert s - {a} == s; }
  }

  // --- Add_ --------------------------------------------------------------------------------------

  predicate IsTerrible(e: Entry, nNow: int) {
    if e.nLastTry != 0 && e.nLastTry >= nNow - 60 then false
    else if e.nTime > nNow + 10 * 60 then true
    else if e.nTime == 0 || nNow - e.nTime > 30 * 86400 then true
    else if e.nLastSuccess == 0 && e.nAttempts >= 3 then true
    else nNow - e.nLastSuccess > 7 * 86400 && e.nAttempts >= 10
  }

  /** Exactly one entry leaves the full bucket b, a terrible one if there is any. */
  ghost predicate Shrunk(v: View, v': View, b: nat, nNow: int) {
    exists c :: ShrunkBy(v, v', b, nNow, c)
  }

  ghost predicate ShrunkBy(v: View, v': View, b: nat, nNow: int, c: NetAddr) {
    && c in Listed(v, b) && v' == LeaveBucket(v, c, b)
    && ((exists d :: d in Listed(v, b) && IsTerrible(v[d], nNow)) ==> IsTerrible(v[c], nNow))
  }

  function Enter(v: View, a: NetAddr, b: nat): View
    requires a in v
  {
    v[a := v[a].(buckets := v[a].buckets + {b})]
  }

  /** a enters new bucket b. */
  ghost predicate EnterBucket(v: View, v': View, a: NetAddr, b: nat, nNow: int) {
    if |Listed(v, b)| == NEW_BUCKET_SIZE then
      exists v1 :: Shrunk(v, v1, b, nNow) && a in v1 && v' == Enter(v1, a, b)
    else
      a in v && v' == Enter(v, a, b)
  }

  /** Update of a known entry from a fresh announcement. */
  function Refreshed(e: Entry, addr: Address, nTimePenalty: int, nNow: int): Entry {
    var interval := if nNow - addr.nTime < 24 * 60 * 60 then 60 * 60 else 24 * 60 * 60;
    var e1 := if addr.nTime != 0 && (e.nTime == 0 || e.nTime < addr.nTime - interval - nTimePenalty)
      then e.(nTime := ToUint32(if addr.nTime - nTimePenalty > 0 then addr.nTime - nTimePenalty else 0)) else e;
    e1.(nServices := Services(e1.nServices, addr.nServices))
  }

  /** Conditions under which a known entry is left in its buckets for certain. */
  predicate Settled(e: Entry, addr: Address) {
    || addr.nTime == 0 || (e.nTime != 0 && addr.nTime <= e.nTime)
    || e.tried || |e.buckets| == NEW_BUCKETS_PER_ADDRESS
  }

  function NewEntry(addr: Address, source: NetAddr, nTimePenalty: int): Entry {
    Entry(addr.service, addr.nServices,
          ToUint32(if addr.nTime - nTimePenalty > 0 then addr.nTime - nTimePenalty else 0),
          0, source, 0, 0, false, {})
  }

  /** nRand is the random number of the stochastic test, reduced below its bound; it passes
      with 0, so with every bucket that holds the address a further one is half as likely. */
  ghost predicate AddSpec(v: View, v': View, ret: bool, nRand: nat, h: Hashing, routable: bool, addr: Address,
                          source: NetAddr, nTimePenalty: int, nNow: int) {
    var a, b := addr.service.net, h.newBucket(addr.service.net, source);
    if !routable then !ret && v' == v
    else if a in v then
      var e := Refreshed(v[a], addr, nTimePenalty, nNow);
      var v1 := v[a := e];
      && !ret
      && if Settled(e, addr) || nRand % Pow2(|e.buckets|) != 0 || b in e.buckets then v' == v1
         else EnterBucket(v1, v', a, b, nNow)
    else
      ret && EnterBucket(v[a := NewEntry(addr, source, nTimePenalty)], v', a, b, nNow)
  }

  // --- Consequences ----------------------------------------------------------------------------------

  predicate EntryOk(a: NetAddr, e: Entry) {
    e.service.net == a && if e.tried then e.buckets == {} else 1 <= |e.buckets| <= NEW_BUCKETS_PER_ADDRESS
  }

  /** What holds of every reachable view. */
  ghost predicate ViewOk(v: View, h: Hashing) {
    && (forall a :: a in v ==> EntryOk(a, v[a]))
    && (forall b: nat :: |Listed(v, b)| <= NEW_BUCKET_SIZE)
    && (forall k: nat :: |TriedIn(v, h, k)| <= TRIED_BUCKET_SIZE)
  }

  lemma {:induction false} InvGivesViewOk(t: Tables, h: Hashing)
    requires Inv(t, h)
    ensures ViewOk(ViewOf(t), h)
  {
    hide RandomOk, CountsOk;
    var v := ViewOf(t);
    forall a | a in v
      ensures EntryOk(a, v[a])
    {
      CountBuckets(t.vvNew, t.mapAddr[a]);
      if v[a].tried { NotListed(t, t.mapAddr[a]); }
    }
    forall b: nat ensures |Listed(v, b)| <= NEW_BUCKET_SIZE {
      if b < |t.vvNew| { ListedSize(t, -1, b); } else { assert Listed(v, b) == {}; }
    }
    forall k: nat ensures |TriedIn(v, h, k)| <= TRIED_BUCKET_SIZE {
      if k < |t.vvTried| { TriedInSize(t, h, k); } else { assert TriedIn(v, h, k) == {}; }
    }
  }

  ghost predicate Times(v: View) {
    forall a :: a in v ==>
      (v[a].tried ==> v[a].nLastSuccess != 0) && 0 <= v[a].nLastTry && 0 <= v[a].nLastSuccess
  }

  /** Good_ keeps the time stamps Check_ asks for exactly when it finds no entry or
      is given a positive time. */
  lemma {:induction false} GoodTimes(v: View, v': View, h: Hashing, s: Service, nTime: int)
    requires Times(v) && GoodSpec(v, v', h, s, nTime)
    ensures Times(v') <==> (Known(v, s) ==> nTime > 0)
  {
    hide Listed, EvictedTo;
    if Known(v, s) {
      var v1 := v[s.net := Stamped(v[s.net], nTime)];
      if !v[s.net].tried && !(|TriedIn(v1, h, h.triedBucket(v1[s.net].service))| < TRIED_BUCKET_SIZE) {
        var c, b :| Evicts(v1, v', h, s.net, c, b);
        assert c in v1;
      }
      assert v'[s.net].tried && v'[s.net].nLastSuccess == nTime;
    }
  }

  /** Attempt_ keeps them exactly when it finds no entry or is given no negative time. */
  lemma {:induction false} AttemptTimes(v: View, s: Service, nTime: int)
    requires Times(v)
    ensures Times(Attempted(v, s, nTime)) <==> (Known(v, s) ==> nTime >= 0)
  {
    if Known(v, s) {
      assert Attempted(v, s, nTime)[s.net].nLastTry == nTime;
    }
  }

  lemma {:induction false} ConnectedTimes(v: View, s: Service, nTime: int)
    requires Times(v)
    ensures Times(Connected(v, s, nTime))
  {}

  lemma {:induction false} AddTimes(v: View, v': View, ret: bool, nRand: nat, h: Hashing, routable: bool, addr: Address,
                                    source: NetAddr, nTimePenalty: int, nNow: int)
    requires Times(v) && AddSpec(v, v', ret, nRand, h, routable, addr, source, nTimePenalty, nNow)
    ensures Times(v')
  {
    hide Listed, IsTerrible;
    var a, b := addr.service.net, h.newBucket(addr.service.net, source);
    if routable {
      var v1 := if a in v then v[a := Refreshed(v[a], addr, nTimePenalty, nNow)]
        else v[a := NewEntry(addr, source, nTimePenalty)];
      assert Times(v1);
      if v' != v1 { EnterTimes(v1, v', a, b, nNow); }
    }
  }

  lemma {:induction false} EnterTimes(v: View, v': View, a: NetAddr, b: nat, nNow: int)
    requires Times(v) && EnterBucket(v, v', a, b, nNow)
    ensures Times(v')
  {
    hide Listed, IsTerrible;
    if |Listed(v, b)| == NEW_BUCKET_SIZE {
      var v1 :| Shrunk(v, v1, b, nNow) && a in v1 && v' == Enter(v1, a, b);
      var c :| ShrunkBy(v, v1, b, nNow, c);
      assert c in v by { ListedKnown(v, b, c); }
      assert Times(v1);
    }
  }

  lemma {:induction false} ListedKnown(v: View, b: nat, c: NetAddr)
    requires c in Listed(v, b)
    ensures c in v
  {}

  /** An address is never lost by Good_, and the tried entries grow by the one named or,
      when its bucket is full, exchange another for it. */
  lemma {:induction false} GoodConserves(v: View, v': View, h: Hashing, s: Service, nTime: int)
    requires GoodSpec(v, v', h, s, nTime)
    ensures v'.Keys == v.Keys
    ensures forall a :: a in v && a != s.net && !v[a].tried ==> v'[a] == v[a]
    ensures Known(v, s) ==> v'[s.net].tried
    ensures |TriedOf(v')| == |TriedOf(v)| + (if Promotes(v, h, s) then 1 else 0)
    ensures |TriedOf(v) - TriedOf(v')| == if Exchanges(v, h, s) then 1 else 0
  {
    hide Listed, EvictedTo, TriedIn;
    if Known(v, s) {
      var v1 := v[s.net := Stamped(v[s.net], nTime)];
      SameTriedIn(v, v1, h, h.triedBucket(s));
      assert TriedOf(v1) == TriedOf(v);
      if Promotes(v, h, s) {
        TriedMore(v1, v', s.net);
      } else if Exchanges(v, h, s) {
        var c, b :| Evicts(v1, v', h, s.net, c, b);
        InTriedOf(v1, h, h.triedBucket(s), c);
        TriedSwapped(v1, v', s.net, c);
      }
    }
  }

  lemma {:induction false} TriedMore(v: View, v': View, a: NetAddr)
    requires a in v && !v[a].tried && v' == v[a := v[a].(tried := true, buckets := {})]
    ensures |TriedOf(v')| == |TriedOf(v)| + 1 && TriedOf(v) - TriedOf(v') == {}
  {
    assert TriedOf(v') == TriedOf(v) + {a};
  }

  lemma {:induction false} TriedSwapped(v: View, v': View, a: NetAddr, c: NetAddr)
    requires a in v && !v[a].tried && c in TriedOf(v) && v'.Keys == v.Keys
    requires v'[a].tried && !v'[c].tried && forall d :: d in v && d != a && d != c ==> v'[d].tried == v[d].tried
    ensures |TriedOf(v')| == |TriedOf(v)| && TriedOf(v) - TriedOf(v') == {c}
  {
    assert TriedOf(v') == TriedOf(v) + {a} - {c};
  }

  /** The tried addresses. */
  function TriedOf(v: View): set<NetAddr> { set a | a in v && v[a].tried }

  /** s names a new entry, and its tried bucket has room or has none. */
  ghost predicate Promotes(v: View, h: Hashing, s: Service) {
    Known(v, s) && !v[s.net].tried && |TriedIn(v, h, h.triedBucket(s))| < TRIED_BUCKET_SIZE
  }

  ghost predicate Exchanges(v: View, h: Hashing, s: Service) {
    Known(v, s) && !v[s.net].tried && |TriedIn(v, h, h.triedBucket(s))| >= TRIED_BUCKET_SIZE
  }

  lemma {:induction false} SameTriedIn(v: View, v1: View, h: Hashing, k: nat)
    requires v1.Keys == v.Keys
    requires forall a :: a in v ==> v1[a].tried == v[a].tried && v1[a].service == v[a].service
    ensures TriedIn(v1, h, k) == TriedIn(v, h, k)
  {}

  lemma {:induction false} InTriedOf(v: View, h: Hashing, k: nat, c: NetAddr)
    requires c in TriedIn(v, h, k)
    ensures c in TriedOf(v)
  {}

  /** Add_ deletes at most one address, never a tried one and never the one added. */
  lemma {:induction false} AddDeletes(v: View, v': View, ret: bool, nRand: nat, h: Hashing, routable: bool,
                                      addr: Address, source: NetAddr, nTimePenalty: int, nNow: int)
    requires ViewOk(v, h) && AddSpec(v, v', ret, nRand, h, routable, addr, source, nTimePenalty, nNow)
    ensures routable ==> addr.service.net in v'
    ensures forall a :: a in v && v[a].tried ==> a in v'
    ensures forall a, c :: a in v && c in v && a !in v' && c !in v' ==> a == c
    ensures forall a :: a in v' && a !in v ==> a == addr.service.net && ret
  {
    hide IsTerrible, Services, ToUint32, Pow2, EnterBucket, TriedIn;
    var a, b := addr.service.net, h.newBucket(addr.service.net, source);
    if routable {
      var v1 := if a in v then v[a := Refreshed(v[a], addr, nTimePenalty, nNow)]
        else v[a := NewEntry(addr, source, nTimePenalty)];
      if v' != v1 { EnterDeletes(v1, v', a, b, nNow); }
    }
  }

  lemma {:induction false} EnterDeletes(v: View, v': View, a: NetAddr, b: nat, nNow: int)
    requires EnterBucket(v, v', a, b, nNow)
    requires forall c :: c in v && v[c].tried ==> v[c].buckets == {}
    ensures a in v' && v'.Keys <= v.Keys
    ensures forall c :: c in v && v[c].tried ==> c in v'
    ensures forall c, d :: c in v && d in v && c !in v' && d !in v' ==> c == d
  {
    if |Listed(v, b)| == NEW_BUCKET_SIZE {
      var v1 :| Shrunk(v, v1, b, nNow) && a in v1 && v' == Enter(v1, a, b);
      var c :| ShrunkBy(v, v1, b, nNow, c);
      assert v'.Keys == v1.Keys;
    }
  }

  // --- Linking the steps of Add_ ------------------------------------------------------------------------

  lemma {:induction false} ShrinkMatches(t: Tables, h: Hashing, b: nat, id: int, pend: int, nNow: int)
    requires InvPending(t, h, pend) && b < |t.vvNew| && id in t.vvNew[b] && id != pend && id in t.mapInfo
    requires IsTerrible(EntryOf(t.mapInfo[id], {}), nNow)
      || forall x :: x in t.vvNew[b] ==> x in t.mapInfo && !IsTerrible(EntryOf(t.mapInfo[x], {}), nNow)
    ensures IdsOk(Dropped(t, b, id)) && Shrunk(ViewOf(t), ViewOf(Dropped(t, b, id)), b, nNow)
  {
    hide RandomOk, TriedOk, FlagsOk, CountsOk, NewOk, Dropped, Buckets, IsTerrible;
    DropView(t, h, b, id, pend);
    var v, c := ViewOf(t), t.mapInfo[id].service.net;
    ViewAt(t, id);
    BucketsSame(t.vvNew, b, id);
    TerribleFrame(EntryOf(t.mapInfo[id], {}), v[c], nNow);
    forall d | d in Listed(v, b) && IsTerrible(v[d], nNow) ensures IsTerrible(v[c], nNow) {
      var x := t.mapAddr[d];
      BucketsSame(t.vvNew, b, x);
      TerribleFrame(EntryOf(t.mapInfo[x], {}), v[d], nNow);
    }
    assert ShrunkBy(v, ViewOf(Dropped(t, b, id)), b, nNow, c);
  }

  lemma {:induction false} TerribleFrame(e: Entry, f: Entry, nNow: int)
    requires f == e.(buckets := f.buckets)
    ensures IsTerrible(e, nNow) <==> IsTerrible(f, nNow)
  {}
}
