/** The stored form of CAddrMan: what is written, and the tables a reader rebuilds
    from it. A stream is a sequence of items; bytes are not modelled. */
module AddrStore {
  import opened AddrTables
  import opened AddrSpec

  /** The serialized fields of CAddrInfo. */
  datatype Stored = Stored(
    service: Service, nServices: bv64, nTime: nat, source: NetAddr, nLastSuccess: int, nAttempts: int)

  datatype Token = Number(n: int) | Secret(key: seq<nat>) | Record(i: Stored)

  function Store(i: Info): Stored {
    Stored(i.service, i.nServices, i.nTime, i.source, i.nLastSuccess, i.nAttempts)
  }

  /** A default CAddrInfo overwritten with the stored fields. */
  function Load(s: Stored): Info {
    Info(s.service, s.nServices, s.nTime, 0, s.source, s.nLastSuccess, s.nAttempts, 0, false, -1)
  }

  const DEFAULT_INFO: Info := Info(Service(NetAddr(0), 0), 1, 100000000, 0, NetAddr(0), 0, 0, 0, false, -1)

  // --- Order of ids -----------------------------------------------------------------------

  /** The members of s below n, in increasing order, as std::map and std::set list them. */
  function Sorted(s: set<int>, n: nat): seq<int> {
    if n == 0 then [] else Sorted(s, n - 1) + (if n - 1 in s then [n - 1] else [])
  }

  lemma {:induction false} SortedMembers(s: set<int>, n: nat)
    ensures forall k :: 0 <= k < |Sorted(s, n)| ==> Sorted(s, n)[k] in s && 0 <= Sorted(s, n)[k] < n
    ensures NoRepeats(Sorted(s, n))
  {
    if n > 0 {
      SortedMembers(s, n - 1);
    }
  }

  /** A member sits at the position given by the number of smaller members. */
  lemma {:induction false} SortedRank(s: set<int>, n: nat, x: nat)
    requires x in s && x < n
    ensures |Sorted(s, x)| < |Sorted(s, n)| && Sorted(s, n)[|Sorted(s, x)|] == x
  {
    if x < n - 1 {
      SortedRank(s, n - 1, x);
    }
  }

  lemma {:induction false} SortedSize(s: set<int>, n: nat)
    requires forall x :: x in s ==> 0 <= x < n
    ensures |Sorted(s, n)| == |s|
  {
    SortedMembers(s, n);
    forall x | x in s ensures x in SetOf(Sorted(s, n)) { SortedRank(s, n, x); }
    assert SetOf(Sorted(s, n)) == s;
    SetOfSize(Sorted(s, n));
  }

  // --- Writing --------------------------------------------------------------------------------

  function Records(m: map<int, Info>, ids: seq<int>): seq<Token>
    requires forall k :: 0 <= k < |ids| ==> ids[k] in m
  {
    seq(|ids|, k requires 0 <= k < |ids| => Record(Store(m[ids[k]])))
  }

  /** The members of a new bucket as positions among the stored new entries. */
  function Indices(new_: set<int>, ids: seq<int>): seq<Token>
    requires forall k :: 0 <= k < |ids| ==> 0 <= ids[k]
  {
    seq(|ids|, k requires 0 <= k < |ids| => Number(|Sorted(new_, ids[k])|))
  }

  ghost function BucketTokens(new_: set<int>, bucket: set<int>, n: nat): seq<Token> {
    SortedMembers(bucket, n);
    [Number(|bucket|)] + Indices(new_, Sorted(bucket, n))
  }

  /** The buckets from the b-th on. */
  ghost function BucketsTokens(new_: set<int>, vv: seq<set<int>>, b: nat, n: nat): seq<Token>
    requires b <= |vv|
    decreases |vv| - b
  {
    if b == |vv| then [] else BucketTokens(new_, vv[b], n) + BucketsTokens(new_, vv, b + 1, n)
  }

  ghost function NewOrder(t: Tables): (s: seq<int>)
    ensures forall k :: 0 <= k < |s| ==> s[k] in t.mapInfo && !t.mapInfo[s[k]].fInTried
    ensures NoRepeats(s)
  {
    SortedMembers(NewIds(t.mapInfo), t.nIdCount);
    Sorted(NewIds(t.mapInfo), t.nIdCount)
  }

  ghost function TriedOrder(t: Tables): (s: seq<int>)
    ensures forall k :: 0 <= k < |s| ==> s[k] in t.mapInfo && t.mapInfo[s[k]].fInTried
    ensures NoRepeats(s)
  {
    SortedMembers(TriedIds(t.mapInfo), t.nIdCount);
    Sorted(TriedIds(t.mapInfo), t.nIdCount)
  }

  ghost function Header(t: Tables, key: seq<nat>): seq<Token> {
    [Number(0), Secret(key), Number(t.nNew), Number(t.nTried), Number(NEW_BUCKET_COUNT)]
  }

  /** The stored form. */
  ghost function Written(t: Tables, key: seq<nat>): seq<Token> {
    Header(t, key) + (Records(t.mapInfo, NewOrder(t)) +
      (Records(t.mapInfo, TriedOrder(t)) + BucketsTokens(NewIds(t.mapInfo), t.vvNew, 0, t.nIdCount)))
  }

  // --- Reading --------------------------------------------------------------------------------

  /** The stream ended or held something else (an exception), or the tables read so far. */
  datatype Reading = Failed | Read(t: Tables, rest: seq<Token>)

  /** One new entry under the next id; its bucket is recomputed when the stored number
      of buckets is not the current one. */
  function AddNew(t: Tables, h: Hashing, rebuild: bool, n: int, i: Info): Tables {
    var b := h.newBucket(i.service.net, i.source);
    var j := i.(nRandomPos := |t.vRandom|);
    var t1 := t.(mapAddr := t.mapAddr[i.service.net := n], vRandom := t.vRandom + [n]);
    if rebuild && b < |t.vvNew| then
      t1.(mapInfo := t.mapInfo[n := j.(nRefCount := j.nRefCount + 1)], vvNew := t.vvNew[b := t.vvNew[b] + {n}])
    else
      t1.(mapInfo := t.mapInfo[n := j])
  }

  function ReadNew(t: Tables, h: Hashing, rebuild: bool, n: int, nNew: int, s: seq<Token>): (r: Reading)
    ensures r.Read? ==> r.t.vvTried == t.vvTried
    decreases nNew - n
  {
    if n >= nNew then Read(t, s)
    else if s == [] || !s[0].Record? then Failed
    else ReadNew(AddNew(t, h, rebuild, n, Load(s[0].i)), h, rebuild, n + 1, nNew, s[1..])
  }

  /** One tried entry, when its bucket has room. */
  function AddTried(t: Tables, b: nat, i: Info): Tables
    requires b < |t.vvTried|
  {
    t.(mapInfo := t.mapInfo[t.nIdCount := i.(nRandomPos := |t.vRandom|, fInTried := true)],
       mapAddr := t.mapAddr[i.service.net := t.nIdCount], vRandom := t.vRandom + [t.nIdCount],
       vvTried := t.vvTried[b := t.vvTried[b] + [t.nIdCount]], nIdCount := t.nIdCount + 1)
  }

  function ReadTried(t: Tables, h: Hashing, n: int, nLost: int, s: seq<Token>): Reading
    requires |t.vvTried| == TRIED_BUCKET_COUNT
    decreases t.nTried - n
  {
    if n >= t.nTried then Read(t.(nTried := t.nTried - nLost), s)
    else if s == [] || !s[0].Record? then Failed
    else
      var i := Load(s[0].i);
      var b := h.triedBucket(i.service);
      if |t.vvTried[b]| < TRIED_BUCKET_SIZE then ReadTried(AddTried(t, b, i), h, n + 1, nLost, s[1..])
      else ReadTried(t, h, n + 1, nLost + 1, s[1..])
  }

  /** One stored bucket member. */
  function AddMember(t: Tables, keep: bool, b: nat, nIndex: int): Tables
    requires b < |t.vvNew|
  {
    var i := if nIndex in t.mapInfo then t.mapInfo[nIndex] else DEFAULT_INFO;
    if keep && i.nRefCount < NEW_BUCKETS_PER_ADDRESS then
      t.(mapInfo := t.mapInfo[nIndex := i.(nRefCount := i.nRefCount + 1)], vvNew := t.vvNew[b := t.vvNew[b] + {nIndex}])
    else
      t.(mapInfo := t.mapInfo[nIndex := i])
  }

  /** A position without an entry, as only a damaged file holds it, gets a default entry. */
  lemma {:induction false} UnknownMember(t: Tables, b: nat, nIndex: int)
    requires b < |t.vvNew| && nIndex !in t.mapInfo
    ensures var t' := AddMember(t, true, b, nIndex);
      && nIndex in t'.mapInfo && nIndex in t'.vvNew[b] && t'.mapInfo[nIndex].nRefCount == 1
      && t'.mapInfo[nIndex].nServices == 1 && t'.mapInfo[nIndex].nTime == 100_000_000
      && !t'.mapInfo[nIndex].fInTried && t'.mapInfo[nIndex].nAttempts == 0 && t'.mapInfo[nIndex].nRandomPos == -1
  {}

  function ReadBucket(t: Tables, keep: bool, b: nat, n: int, nSize: int, s: seq<Token>): Reading
    requires b < |t.vvNew|
    decreases nSize - n
  {
    if n >= nSize then Read(t, s)
    else if s == [] || !s[0].Number? then Failed
    else ReadBucket(AddMember(t, keep, b, s[0].n), keep, b, n + 1, nSize, s[1..])
  }

  /** The buckets from the b-th on. A stored number of buckets beyond the current one
      runs past the end of vvNew. */
  function ReadBuckets(t: Tables, b: nat, nUBuckets: int, s: seq<Token>): Reading
    decreases nUBuckets - b
  {
    if b >= nUBuckets then Read(t, s)
    else if b >= |t.vvNew| || s == [] || !s[0].Number? then Failed
    else
      var r := ReadBucket(t, nUBuckets == NEW_BUCKET_COUNT, b, 0, s[0].n, s[1..]);
      if r.Failed? then Failed else ReadBuckets(r.t, b + 1, nUBuckets, r.rest)
  }

  /** Tables before any entry is read. */
  function Cleared(nNew: int, nTried: int): Tables {
    Tables(0, map[], map[], [], nTried, seq(TRIED_BUCKET_COUNT, _ => []), nNew, seq(NEW_BUCKET_COUNT, _ => {}))
  }

  predicate HeaderOk(s: seq<Token>) {
    && |s| >= 5 && s[0].Number? && s[1].Secret? && s[2].Number? && s[3].Number? && s[4].Number?
    && s[2].n >= 0
  }

  /** The whole of reading, given the bucket functions of the stored key. */
  function Reader(s: seq<Token>, h: Hashing): Reading
    requires HeaderOk(s)
  {
    var nNew, nTried, nUBuckets := s[2].n, s[3].n, s[4].n;
    var r := ReadNew(Cleared(nNew, nTried), h, nUBuckets != NEW_BUCKET_COUNT, 0, nNew, s[5..]);
    if r.Failed? then Failed
    else
      var q := ReadTried(r.t.(nIdCount := nNew), h, 0, 0, r.rest);
      if q.Failed? then Failed else ReadBuckets(q.t, 0, nUBuckets, q.rest)
  }
}
