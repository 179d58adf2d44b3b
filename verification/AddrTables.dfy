/** The five interlinked indexes of CAddrMan (src/addrman.h), their consistency,
    and what they say about addresses once internal ids are forgotten. */
module AddrTables {

  // --- Entities -----------------------------------------------------------------

  /** CNetAddr and CService, compared by value. */
  datatype NetAddr = NetAddr(ip: nat)
  datatype Service = Service(net: NetAddr, port: nat)

  /** CAddress; nTime is an unsigned 32-bit number. */
  datatype Address = Address(service: Service, nServices: bv64, nTime: nat)

  /** CAddrInfo */
  datatype Info = Info(
    service: Service, nServices: bv64, nTime: nat, nLastTry: int, source: NetAddr,
    nLastSuccess: int, nAttempts: int, nRefCount: int, fInTried: bool, nRandomPos: int)

  const TRIED_BUCKET_COUNT: nat := 64
  const TRIED_BUCKET_SIZE: nat := 64
  const NEW_BUCKET_COUNT: nat := 256
  const NEW_BUCKET_SIZE: nat := 64
  const NEW_BUCKETS_PER_ADDRESS: nat := 4

  type TriedBucket = b: nat | b < 64
  type NewBucket = b: nat | b < 256

  /** GetTriedBucket and GetNewBucket for one secret key: arbitrary functions into
      the bucket ranges. */
  datatype Hashing = Hashing(triedBucket: Service -> TriedBucket, newBucket: (NetAddr, NetAddr) -> NewBucket)

  /** The fields of CAddrMan. */
  datatype Tables = Tables(
    nIdCount: nat, mapInfo: map<int, Info>, mapAddr: map<NetAddr, int>, vRandom: seq<int>,
    nTried: int, vvTried: seq<seq<int>>, nNew: int, vvNew: seq<set<int>>)

  // --- Consistency ----------------------------------------------------------------

  /** mapAddr inverts mapInfo. */
  ghost predicate IdsOk(t: Tables) {
    && (forall id :: id in t.mapInfo ==>
          && 0 <= id < t.nIdCount
          && t.mapInfo[id].service.net in t.mapAddr && t.mapAddr[t.mapInfo[id].service.net] == id)
    && (forall a :: a in t.mapAddr ==> t.mapAddr[a] in t.mapInfo && t.mapInfo[t.mapAddr[a]].service.net == a)
  }

  /** vRandom lists every id once, at the position its entry records. */
  ghost predicate RandomOk(t: Tables) {
    && (forall id :: id in t.mapInfo ==>
          0 <= t.mapInfo[id].nRandomPos < |t.vRandom| && t.vRandom[t.mapInfo[id].nRandomPos] == id)
    && (forall i :: 0 <= i < |t.vRandom| ==>
          t.vRandom[i] in t.mapInfo && t.mapInfo[t.vRandom[i]].nRandomPos == i)
  }

  /** The number of new buckets that hold id. */
  function Count(vv: seq<set<int>>, id: int): nat {
    if vv == [] then 0 else Count(vv[..|vv| - 1], id) + (if id in vv[|vv| - 1] then 1 else 0)
  }

  /** New buckets hold existing untried ids, and reference counts are exact, except
      that the entry pend is one ahead. */
  ghost predicate NewOk(t: Tables, pend: int) {
    && |t.vvNew| == NEW_BUCKET_COUNT
    && (forall b :: 0 <= b < |t.vvNew| ==> |t.vvNew[b]| <= NEW_BUCKET_SIZE)
    && (forall b, id :: 0 <= b < |t.vvNew| && id in t.vvNew[b] ==> id in t.mapInfo && !t.mapInfo[id].fInTried)
    && (forall id :: id in t.mapInfo ==>
          t.mapInfo[id].nRefCount == Count(t.vvNew, id) + (if id == pend then 1 else 0))
  }

  ghost predicate NoRepeats(s: seq<int>) {
    forall i, j :: 0 <= i < j < |s| ==> s[i] != s[j]
  }

  /** Tried buckets partition the tried ids by their own bucket. */
  ghost predicate TriedOk(t: Tables, h: Hashing) {
    && |t.vvTried| == TRIED_BUCKET_COUNT
    && (forall b :: 0 <= b < |t.vvTried| ==> |t.vvTried[b]| <= TRIED_BUCKET_SIZE && NoRepeats(t.vvTried[b]))
    && (forall b, k :: 0 <= b < |t.vvTried| && 0 <= k < |t.vvTried[b]| ==>
          TriedMember(t, h, t.vvTried[b][k], b))
    && (forall id :: id in t.mapInfo && t.mapInfo[id].fInTried ==>
          id in t.vvTried[h.triedBucket(t.mapInfo[id].service)])
  }

  ghost predicate TriedMember(t: Tables, h: Hashing, id: int, b: int) {
    id in t.mapInfo && t.mapInfo[id].fInTried && h.triedBucket(t.mapInfo[id].service) == b
  }

  ghost predicate FlagsOk(t: Tables) {
    forall id :: id in t.mapInfo ==>
      if t.mapInfo[id].fInTried then t.mapInfo[id].nRefCount == 0
      else 1 <= t.mapInfo[id].nRefCount <= NEW_BUCKETS_PER_ADDRESS
  }

  function TriedIds(m: map<int, Info>): set<int> { set id | id in m && m[id].fInTried }
  function NewIds(m: map<int, Info>): set<int> { set id | id in m && !m[id].fInTried }

  ghost predicate CountsOk(t: Tables) {
    t.nTried == |TriedIds(t.mapInfo)| && t.nNew == |NewIds(t.mapInfo)|
  }

  ghost predicate Inv(t: Tables, h: Hashing) {
    IdsOk(t) && RandomOk(t) && NewOk(t, -1) && TriedOk(t, h) && FlagsOk(t) && CountsOk(t)
  }

  /** What Check_ asks of time stamps besides. */
  ghost predicate TimesOk(t: Tables) {
    forall id :: id in t.mapInfo ==>
      && (t.mapInfo[id].fInTried ==> t.mapInfo[id].nLastSuccess != 0)
      && 0 <= t.mapInfo[id].nLastTry && 0 <= t.mapInfo[id].nLastSuccess
  }

  // --- The view by address --------------------------------------------------------------

  /** What is known about one address, without ids. */
  datatype Entry = Entry(
    service: Service, nServices: bv64, nTime: nat, nLastTry: int, source: NetAddr,
    nLastSuccess: int, nAttempts: int, tried: bool, buckets: set<nat>)

  type View = map<NetAddr, Entry>

  function Buckets(vv: seq<set<int>>, id: int): set<nat> {
    set b: nat | b < |vv| && id in vv[b]
  }

  function EntryOf(i: Info, buckets: set<nat>): Entry {
    Entry(i.service, i.nServices, i.nTime, i.nLastTry, i.source, i.nLastSuccess, i.nAttempts, i.fInTried, buckets)
  }

  ghost function ViewOf(t: Tables): View
    requires IdsOk(t)
  {
    map a | a in t.mapAddr :: EntryOf(t.mapInfo[t.mapAddr[a]], Buckets(t.vvNew, t.mapAddr[a]))
  }

  // --- Counting lemmas -----------------------------------------------------------------------

  lemma {:induction false} CountUpdate(vv: seq<set<int>>, b: nat, s: set<int>, id: int)
    requires b < |vv|
    ensures Count(vv[b := s], id) + (if id in vv[b] then 1 else 0) == Count(vv, id) + (if id in s then 1 else 0)
  {
    var n := |vv| - 1;
    if b == n {
      assert vv[b := s][..n] == vv[..n];
    } else {
      CountUpdate(vv[..n], b, s, id);
      assert vv[b := s][..n] == vv[..n][b := s];
    }
  }

  lemma {:induction false} CountBuckets(vv: seq<set<int>>, id: int)
    ensures Count(vv, id) == |Buckets(vv, id)|
  {
    if vv == [] {
      assert Buckets(vv, id) == {};
    } else {
      var n: nat := |vv| - 1;
      CountBuckets(vv[..n], id);
      var here: set<nat> := if id in vv[n] then {n} else {};
      assert Buckets(vv, id) == Buckets(vv[..n], id) + here;
    }
  }

  lemma {:induction false} CountZero(vv: seq<set<int>>, id: int)
    ensures Count(vv, id) == 0 <==> forall b :: 0 <= b < |vv| ==> id !in vv[b]
  {
    CountBuckets(vv, id);
    var s := Buckets(vv, id);
    if Count(vv, id) == 0 {
      forall b | 0 <= b < |vv| ensures id !in vv[b] { assert b !in s; }
    } else {
      var b :| b in s;
    }
  }

  // --- size() is bounded ---------------------------------------------------------------------

  /** All ids in the first n buckets of a list of sets. */
  function Union(vv: seq<set<int>>): set<int> {
    if vv == [] then {} else Union(vv[..|vv| - 1]) + vv[|vv| - 1]
  }

  lemma {:induction false} UnionBound(vv: seq<set<int>>)
    requires forall b :: 0 <= b < |vv| ==> |vv[b]| <= 64
    ensures |Union(vv)| <= 64 * |vv|
    ensures forall b, id :: 0 <= b < |vv| && id in vv[b] ==> id in Union(vv)
  {
    if vv != [] {
      var k := |vv| - 1;
      UnionBound(vv[..k]);
      UnionSize(Union(vv[..k]), vv[k]);
      forall b, id | 0 <= b < |vv| && id in vv[b] ensures id in Union(vv) {
        if b < k { assert vv[..k][b] == vv[b]; }
      }
    }
  }

  lemma {:induction false} UnionSize(s: set<int>, t: set<int>)
    ensures |s + t| <= |s| + |t|
  {
    assert s + t == s + (t - s);
    assert |s + t| == |s| + |t - s|;
    assert t == (t - s) + (t * s);
  }

  lemma {:induction false} SubsetSize(s: set<int>, t: set<int>)
    requires s <= t
    ensures |s| <= |t|
  {
    assert t == s + (t - s);
  }

  function SetOf(s: seq<int>): set<int> { set id | id in s }

  lemma {:induction false} SetOfSize(s: seq<int>)
    ensures |SetOf(s)| <= |s|
    ensures NoRepeats(s) ==> |SetOf(s)| == |s|
  {
    if s == [] {
      assert SetOf(s) == {};
    } else {
      var n := |s| - 1;
      SetOfSize(s[..n]);
      assert SetOf(s) == SetOf(s[..n]) + {s[n]};
      UnionSize(SetOf(s[..n]), {s[n]});
      if NoRepeats(s) {
        assert forall i :: 0 <= i < n ==> s[..n][i] == s[i] != s[n];
        assert s[n] !in SetOf(s[..n]);
      }
    }
  }

  /** The address manager never holds more than 64*64 + 256*64 addresses. */
  lemma {:induction false} SizeBound(t: Tables, h: Hashing)
    requires Inv(t, h)
    ensures |t.vRandom| == t.nTried + t.nNew <= TRIED_BUCKET_COUNT * TRIED_BUCKET_SIZE
      + NEW_BUCKET_COUNT * NEW_BUCKET_SIZE
    ensures t.nTried <= 4096 && t.nNew <= 16384
  {
    var tried, new_ := TriedIds(t.mapInfo), NewIds(t.mapInfo);
    RandomCoversIds(t);
    assert t.mapInfo.Keys == tried + new_;
    var sets := seq(|t.vvTried|, b requires 0 <= b < |t.vvTried| => SetOf(t.vvTried[b]));
    forall b | 0 <= b < |sets| ensures |sets[b]| <= 64 { SetOfSize(t.vvTried[b]); }
    UnionBound(sets);
    forall id | id in tried ensures id in Union(sets) {
      var b := h.triedBucket(t.mapInfo[id].service);
      assert id in sets[b];
    }
    SubsetSize(tried, Union(sets));
    NewIdsBound(t);
  }

  lemma {:induction false} RandomCoversIds(t: Tables)
    requires RandomOk(t)
    ensures |t.vRandom| == |t.mapInfo.Keys|
  {
    forall id | id in t.mapInfo.Keys ensures id in SetOf(t.vRandom) {
      assert t.vRandom[t.mapInfo[id].nRandomPos] == id;
    }
    assert SetOf(t.vRandom) == t.mapInfo.Keys;
    assert NoRepeats(t.vRandom) by {
      forall i, j | 0 <= i < j < |t.vRandom| ensures t.vRandom[i] != t.vRandom[j] {
        assert t.mapInfo[t.vRandom[i]].nRandomPos == i;
      }
    }
    SetOfSize(t.vRandom);
  }

  lemma {:induction false} NewIdsBound(t: Tables)
    requires IdsOk(t) && NewOk(t, -1) && FlagsOk(t)
    ensures |NewIds(t.mapInfo)| <= 16384
  {
    UnionBound(t.vvNew);
    forall id | id in NewIds(t.mapInfo) ensures id in Union(t.vvNew) {
      CountZero(t.vvNew, id);
      var b :| 0 <= b < |t.vvNew| && id in t.vvNew[b];
    }
    SubsetSize(NewIds(t.mapInfo), Union(t.vvNew));
  }
}
