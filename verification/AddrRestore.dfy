/** Writing a CAddrMan and reading it back: the tables come back renamed, nothing is
    lost, and the addresses with their stored statistics are the same. */
module AddrRestore {
  import opened AddrTables
  import opened AddrSteps
  import opened AddrSpec
  import opened AddrStore
  import opened Words

  /** What is stored of an entry: everything but the last attempt. */
  function Saved(v: View): View {
    map a | a in v :: v[a].(nLastTry := 0)
  }

  // --- New ids against old ids -------------------------------------------------------------

  /** order[n] is the old id of new id n. */
  ghost predicate Ordered(t: Tables, order: seq<int>) {
    NoRepeats(order) && forall k :: 0 <= k < |order| ==> order[k] in t.mapInfo
  }

  function Restored(i: Info, n: int, refs: int): Info {
    Load(Store(i)).(nRandomPos := n, fInTried := i.fInTried, nRefCount := refs)
  }

  ghost predicate Addresses(t: Tables, order: seq<int>, k: nat, m: map<NetAddr, int>)
    requires Ordered(t, order) && k <= |order|
  {
    && (forall n :: 0 <= n < k ==> t.mapInfo[order[n]].service.net in m && m[t.mapInfo[order[n]].service.net] == n)
    && (forall a :: a in m ==> 0 <= m[a] < k && t.mapInfo[order[m[a]]].service.net == a)
  }

  ghost predicate Entries(t: Tables, order: seq<int>, k: nat, vv: seq<set<int>>, m: map<int, Info>)
    requires Ordered(t, order) && k <= |order|
  {
    && (forall n :: n in m <==> 0 <= n < k)
    && (forall n :: 0 <= n < k ==> m[n] == Restored(t.mapInfo[order[n]], n, Count(vv, order[n])))
  }

  ghost predicate InOrder(s: seq<int>, k: nat) { |s| == k && forall n :: 0 <= n < k ==> s[n] == n }

  /** The first k entries have been read. */
  ghost predicate Loaded(t: Tables, order: seq<int>, k: nat, r: Tables)
    requires Ordered(t, order) && k <= |order|
  {
    && Entries(t, order, k, [], r.mapInfo) && Addresses(t, order, k, r.mapAddr) && InOrder(r.vRandom, k)
  }

  ghost predicate TriedLoaded(t: Tables, h: Hashing, order: seq<int>, k: nat, vv: seq<seq<int>>)
    requires Ordered(t, order) && k <= |order|
  {
    && |vv| == TRIED_BUCKET_COUNT && (forall b :: 0 <= b < |vv| ==> NoRepeats(vv[b]))
    && forall b, n {:trigger n in vv[b]} :: 0 <= b < |vv| ==>
      (n in vv[b] <==> 0 <= n < k && TriedMember(t, h, order[n], b))
  }

  /** Reading one more entry of a pairwise distinct list of addresses. */
  lemma {:induction false} LoadStep(t: Tables, order: seq<int>, k: nat, r: Tables, i: Info, r': Tables)
    requires IdsOk(t) && Ordered(t, order) && k < |order| && Loaded(t, order, k, r)
    requires i == Restored(t.mapInfo[order[k]], k, 0)
    requires r'.mapInfo == r.mapInfo[k := i] && r'.mapAddr == r.mapAddr[i.service.net := k]
    requires r'.vRandom == r.vRandom + [k]
    ensures Loaded(t, order, k + 1, r')
  {
    forall n | 0 <= n < k ensures t.mapInfo[order[n]].service.net != i.service.net {
      assert order[n] != order[k];
    }
  }

  lemma {:induction false} LoadedFrame(t: Tables, order: seq<int>, k: nat, r: Tables, r': Tables)
    requires Ordered(t, order) && k <= |order| && Loaded(t, order, k, r)
    requires r'.mapInfo == r.mapInfo && r'.mapAddr == r.mapAddr && r'.vRandom == r.vRandom
    ensures Loaded(t, order, k, r')
  {}

  // --- New entries ----------------------------------------------------------------------------

  lemma {:induction false} ReadsNew(t: Tables, h: Hashing, order: seq<int>, k: nat, nNew: nat, r: Tables,
                                    s: seq<Token>, rest: seq<Token>) returns (r': Tables)
    requires IdsOk(t) && Ordered(t, order) && k <= nNew <= |order| && Loaded(t, order, k, r)
    requires forall n :: 0 <= n < nNew ==> !t.mapInfo[order[n]].fInTried
    requires s == Records(t.mapInfo, order[k..nNew]) + rest
    ensures ReadNew(r, h, false, k, nNew, s) == Read(r', rest) && Loaded(t, order, nNew, r')
    ensures r' == r.(mapInfo := r'.mapInfo, mapAddr := r'.mapAddr, vRandom := r'.vRandom)
    decreases nNew - k
  {
    hide Loaded, IdsOk;
    if k == nNew {
      assert s == rest;
      r' := r;
    } else {
      var i := Load(s[0].i);
      LoadedSize(t, order, k, r);
      var r1 := AddNew(r, h, false, k, i);
      LoadStep(t, order, k, r, i.(nRandomPos := k), r1);
      assert s[1..] == Records(t.mapInfo, order[k + 1..nNew]) + rest;
      r' := ReadsNew(t, h, order, k + 1, nNew, r1, s[1..], rest);
    }
  }

  lemma {:induction false} LoadedSize(t: Tables, order: seq<int>, k: nat, r: Tables)
    requires Ordered(t, order) && k <= |order| && Loaded(t, order, k, r)
    ensures |r.vRandom| == k
  {}

  // --- Tried entries ----------------------------------------------------------------------------

  /** The bucket of the next tried entry has room, because its entries are distinct
      members of the same old bucket. */
  lemma {:induction false} TriedRoom(t: Tables, h: Hashing, order: seq<int>, k: nat, vv: seq<seq<int>>)
    requires IdsOk(t) && TriedOk(t, h) && Ordered(t, order) && k < |order| && TriedLoaded(t, h, order, k, vv)
    requires t.mapInfo[order[k]].fInTried
    ensures |vv[h.triedBucket(t.mapInfo[order[k]].service)]| < TRIED_BUCKET_SIZE
  {
    hide TriedOk, TriedLoaded, NoRepeats, IdsOk;
    var b := h.triedBucket(t.mapInfo[order[k]].service);
    TriedFull(t, h, b);
    TriedCount(t, h, order, k, vv);
    SetOfSize(vv[b]);
    SetOfSize(t.vvTried[b]);
    forall n | n in SetOf(vv[b]) ensures 0 <= n < k && TriedMember(t, h, order[n], b) {
      TriedAt(t, h, order, k, vv, b, n);
    }
    var olds := Olds(order, SetOf(vv[b]));
    OldsSize(order, SetOf(vv[b]));
    NotTwice(order, k);
    assert order[k] !in olds;
    forall x | x in olds + {order[k]} ensures x in SetOf(t.vvTried[b]) {
      TriedAlready(t, h, x, b);
    }
    SubsetSize(olds + {order[k]}, SetOf(t.vvTried[b]));
  }

  lemma {:induction false} TriedAlready(t: Tables, h: Hashing, x: int, b: nat)
    requires TriedOk(t, h) && b < |t.vvTried| && TriedMember(t, h, x, b)
    ensures x in t.vvTried[b]
  {}

  lemma {:induction false} TriedFull(t: Tables, h: Hashing, b: nat)
    requires TriedOk(t, h) && b < TRIED_BUCKET_COUNT
    ensures b < |t.vvTried| && |t.vvTried[b]| <= TRIED_BUCKET_SIZE
  {}

  lemma {:induction false} TriedAt(t: Tables, h: Hashing, order: seq<int>, k: nat, vv: seq<seq<int>>, b: nat, n: int)
    requires Ordered(t, order) && k <= |order| && TriedLoaded(t, h, order, k, vv) && b < |vv|
    ensures n in vv[b] <==> 0 <= n < k && TriedMember(t, h, order[n], b)
  {}

  lemma {:induction false} TriedStep(t: Tables, h: Hashing, order: seq<int>, k: nat, vv: seq<seq<int>>)
    requires Ordered(t, order) && k < |order| && TriedLoaded(t, h, order, k, vv) && t.mapInfo[order[k]].fInTried
    ensures var b := h.triedBucket(t.mapInfo[order[k]].service);
      TriedLoaded(t, h, order, k + 1, vv[b := vv[b] + [k]])
  {
    var b := h.triedBucket(t.mapInfo[order[k]].service);
    assert k !in vv[b];
    assert TriedMember(t, h, order[k], b);
  }

  lemma {:induction false} ReadsTried(t: Tables, h: Hashing, order: seq<int>, k: nat, nNew: nat, r: Tables,
                                      s: seq<Token>, rest: seq<Token>) returns (r': Tables)
    requires IdsOk(t) && TriedOk(t, h) && Ordered(t, order) && nNew <= k <= |order| && Loaded(t, order, k, r)
    requires TriedLoaded(t, h, order, k, r.vvTried) && r.nIdCount == k && r.nTried == |order| - nNew
    requires forall n :: nNew <= n < |order| ==> t.mapInfo[order[n]].fInTried
    requires s == Records(t.mapInfo, order[k..]) + rest
    ensures ReadTried(r, h, k - nNew, 0, s) == Read(r', rest)
    ensures Loaded(t, order, |order|, r') && TriedLoaded(t, h, order, |order|, r'.vvTried)
    ensures r'.nIdCount == |order| && r'.nTried == r.nTried && r'.nNew == r.nNew && r'.vvNew == r.vvNew
    decreases |order| - k
  {
    hide Loaded, TriedLoaded, IdsOk, TriedOk;
    if k == |order| {
      assert s == rest;
      r' := r;
    } else {
      var i := Load(s[0].i);
      var b := h.triedBucket(i.service);
      LoadedSize(t, order, k, r);
      TriedRoom(t, h, order, k, r.vvTried);
      TriedStep(t, h, order, k, r.vvTried);
      TriedCount(t, h, order, k, r.vvTried);
      var r1 := AddTried(r, b, i);
      LoadStep(t, order, k, r, i.(nRandomPos := k, fInTried := true), r1);
      assert s[1..] == Records(t.mapInfo, order[k + 1..]) + rest;
      r' := ReadsTried(t, h, order, k + 1, nNew, r1, s[1..], rest);
    }
  }

  lemma {:induction false} TriedCount(t: Tables, h: Hashing, order: seq<int>, k: nat, vv: seq<seq<int>>)
    requires Ordered(t, order) && k <= |order| && TriedLoaded(t, h, order, k, vv)
    ensures |vv| == TRIED_BUCKET_COUNT && forall b :: 0 <= b < |vv| ==> NoRepeats(vv[b])
  {}

  // --- New buckets --------------------------------------------------------------------------------

  /** Bucket contents vv, in old ids, have been restored. */
  ghost predicate Filled(t: Tables, order: seq<int>, vv: seq<set<int>>, r: Tables)
    requires Ordered(t, order)
  {
    && Entries(t, order, |order|, vv, r.mapInfo) && |r.vvNew| == |vv| == NEW_BUCKET_COUNT
    && forall b, n {:trigger n in r.vvNew[b]} :: 0 <= b < |vv| ==>
        (n in r.vvNew[b] <==> 0 <= n < |order| && order[n] in vv[b])
  }

  lemma {:induction false} CountSubset(vv: seq<set<int>>, ww: seq<set<int>>, x: int)
    requires |vv| == |ww| && forall b :: 0 <= b < |vv| ==> vv[b] <= ww[b]
    ensures Count(vv, x) <= Count(ww, x)
  {
    if vv != [] {
      CountSubset(vv[..|vv| - 1], ww[..|vv| - 1], x);
    }
  }

  lemma {:induction false} FillStep(t: Tables, order: seq<int>, vv: seq<set<int>>, r: Tables, b: nat, n: nat)
    requires IdsOk(t) && NewOk(t, -1) && FlagsOk(t) && Ordered(t, order) && Filled(t, order, vv, r)
    requires b < |vv| && n < |order| && order[n] !in vv[b] && order[n] in t.vvNew[b]
    requires |t.vvNew| == |vv| && forall c :: 0 <= c < |vv| ==> vv[c] <= t.vvNew[c]
    ensures Filled(t, order, vv[b := vv[b] + {order[n]}], AddMember(r, true, b, n))
  {
    hide NoRepeats;
    var x := order[n];
    var vv' := vv[b := vv[b] + {x}];
    CountSubset(vv', t.vvNew, x);
    CountUpdate(vv, b, vv[b] + {x}, x);
    assert t.mapInfo[x].nRefCount == Count(t.vvNew, x);
    NotTwice(order, n);
    forall m | 0 <= m < |order| && m != n ensures Count(vv', order[m]) == Count(vv, order[m]) {
      CountUpdate(vv, b, vv[b] + {x}, order[m]);
    }
  }

  lemma {:induction false} NotTwice(order: seq<int>, n: nat)
    requires NoRepeats(order) && n < |order|
    ensures forall m :: 0 <= m < |order| && m != n ==> order[m] != order[n]
  {}

  /** Old ids and new ids correspond, and the rank among the new entries is the new id. */
  ghost predicate Ranked(t: Tables, order: seq<int>) {
    forall x: int :: x in t.mapInfo && !t.mapInfo[x].fInTried ==>
      && 0 <= x
      && |Sorted(NewIds(t.mapInfo), x)| < |order| && order[|Sorted(NewIds(t.mapInfo), x)|] == x
  }

  ghost predicate Before(t: Tables, vv: seq<set<int>>, b: nat) {
    && |t.vvNew| == |vv| == NEW_BUCKET_COUNT
    && forall c :: 0 <= c < |vv| ==> if c < b then vv[c] == t.vvNew[c] else if c == b then vv[c] <= t.vvNew[c]
      else vv[c] == {}
  }

  /** Positions j.. of the members ids of bucket b. */
  lemma {:induction false} ReadsBucket(t: Tables, order: seq<int>, vv: seq<set<int>>, r: Tables, b: nat, ids: seq<int>,
                                       j: nat, s: seq<Token>, rest: seq<Token>) returns (r': Tables)
    requires IdsOk(t) && NewOk(t, -1) && FlagsOk(t) && Ordered(t, order) && Ranked(t, order) && Filled(t, order, vv, r)
    requires b < |t.vvNew| && Before(t, vv, b) && NoRepeats(ids) && SetOf(ids) == t.vvNew[b] && j <= |ids|
    requires vv[b] == SetOf(ids[..j]) && forall k :: 0 <= k < |ids| ==> 0 <= ids[k]
    requires s == Indices(NewIds(t.mapInfo), ids[j..]) + rest
    ensures b < |r.vvNew| && ReadBucket(r, true, b, j, |ids|, s) == Read(r', rest)
    ensures Filled(t, order, vv[b := t.vvNew[b]], r') && r' == r.(mapInfo := r'.mapInfo, vvNew := r'.vvNew)
    decreases |ids| - j
  {
    hide Filled, FlagsOk, Ranked, Sorted, NewOk, IdsOk;
    FilledSize(t, order, vv, r);
    if j == |ids| {
      assert ids[..j] == ids && s == rest;
      assert vv[b := t.vvNew[b]] == vv;
      r' := r;
    } else {
      var x := ids[j];
      var n := RankOf(t, order, b, x);
      assert s[0] == Number(n);
      assert x !in ids[..j];
      FillStep(t, order, vv, r, b, n);
      var vv1, r1 := vv[b := vv[b] + {x}], AddMember(r, true, b, n);
      assert SetOf(ids[..j + 1]) == SetOf(ids[..j]) + {x} by { assert ids[..j + 1] == ids[..j] + [x]; }
      assert s[1..] == Indices(NewIds(t.mapInfo), ids[j + 1..]) + rest;
      r' := ReadsBucket(t, order, vv1, r1, b, ids, j + 1, s[1..], rest);
      assert vv1[b := t.vvNew[b]] == vv[b := t.vvNew[b]];
    }
  }

  lemma {:induction false} FilledSize(t: Tables, order: seq<int>, vv: seq<set<int>>, r: Tables)
    requires Ordered(t, order) && Filled(t, order, vv, r)
    ensures |r.vvNew| == |vv| == NEW_BUCKET_COUNT
  {}

  lemma {:induction false} RankOf(t: Tables, order: seq<int>, b: nat, x: int) returns (n: nat)
    requires NewOk(t, -1) && Ranked(t, order) && b < |t.vvNew| && x in t.vvNew[b]
    ensures 0 <= x && n == |Sorted(NewIds(t.mapInfo), x)| < |order| && order[n] == x
  {
    hide Sorted;
    assert x in t.mapInfo && !t.mapInfo[x].fInTried;
    n := |Sorted(NewIds(t.mapInfo), x)|;
  }

  lemma {:induction false} ReadsBuckets(t: Tables, order: seq<int>, vv: seq<set<int>>, r: Tables, b: nat,
                                        s: seq<Token>) returns (r': Tables)
    requires IdsOk(t) && NewOk(t, -1) && FlagsOk(t) && Ordered(t, order) && Ranked(t, order) && Filled(t, order, vv, r)
    requires b <= |t.vvNew| && Before(t, vv, b) && (b < |vv| ==> vv[b] == {})
    requires s == BucketsTokens(NewIds(t.mapInfo), t.vvNew, b, t.nIdCount)
    ensures ReadBuckets(r, b, NEW_BUCKET_COUNT, s) == Read(r', [])
    ensures Filled(t, order, t.vvNew, r') && r' == r.(mapInfo := r'.mapInfo, vvNew := r'.vvNew)
    decreases |t.vvNew| - b
  {
    hide Filled, FlagsOk, Ranked, Sorted, NewOk, IdsOk, ReadBucket;
    FilledSize(t, order, vv, r);
    if b == |t.vvNew| {
      assert vv == t.vvNew;
      r' := r;
    } else {
      var bucket := t.vvNew[b];
      BucketBelow(t, b);
      SortedMembers(bucket, t.nIdCount);
      SortedSize(bucket, t.nIdCount);
      var ids := Sorted(bucket, t.nIdCount);
      SortedSet(bucket, t.nIdCount);
      var rest := BucketsTokens(NewIds(t.mapInfo), t.vvNew, b + 1, t.nIdCount);
      assert ids[0..] == ids;
      assert s[0] == Number(|ids|) && s[1..] == Indices(NewIds(t.mapInfo), ids[0..]) + rest;
      var r1 := ReadsBucket(t, order, vv, r, b, ids, 0, s[1..], rest);
      r' := ReadsBuckets(t, order, vv[b := bucket], r1, b + 1, rest);
    }
  }

  lemma {:induction false} BucketBelow(t: Tables, b: nat)
    requires IdsOk(t) && NewOk(t, -1) && b < |t.vvNew|
    ensures forall x :: x in t.vvNew[b] ==> 0 <= x < t.nIdCount
  {
    forall x | x in t.vvNew[b] ensures 0 <= x < t.nIdCount { assert x in t.mapInfo; }
  }

  lemma {:induction false} SortedSet(s: set<int>, n: nat)
    requires forall x :: x in s ==> 0 <= x < n
    ensures SetOf(Sorted(s, n)) == s
  {
    SortedMembers(s, n);
    forall x | x in s ensures x in Sorted(s, n) { SortedRank(s, n, x); }
  }

  // --- The tables that come back -----------------------------------------------------------

  /** r is t with ids renamed by order and buckets rebuilt. */
  ghost predicate Renamed(t: Tables, h: Hashing, order: seq<int>, r: Tables)
    requires Ordered(t, order)
  {
    && Filled(t, order, t.vvNew, r) && Addresses(t, order, |order|, r.mapAddr) && InOrder(r.vRandom, |order|)
    && TriedLoaded(t, h, order, |order|, r.vvTried)
    && r.nIdCount == |order| && r.nNew == t.nNew && r.nTried == t.nTried
  }

  /** Every id of t has a new id. */
  ghost predicate Covers(t: Tables, order: seq<int>) {
    forall x :: x in t.mapInfo ==> x in order
  }

  lemma {:induction false} RenamedInv(t: Tables, h: Hashing, order: seq<int>, r: Tables)
    requires Inv(t, h) && Ordered(t, order) && Covers(t, order) && Renamed(t, h, order, r)
    ensures Inv(r, h) && ViewOf(r) == Saved(ViewOf(t))
  {
    hide Inv, Filled, TriedLoaded, Addresses, Covers, Count, ViewOf;
    RenamedFlags(t, h, order, r);
    RenamedIds(t, order, r);
    RenamedNew(t, order, r);
    RenamedTried(t, h, order, r);
    RenamedCounts(t, order, r);
    RenamedView(t, h, order, r);
    InvParts(t, r, h);
  }

  lemma {:induction false} InvParts(t: Tables, r: Tables, h: Hashing)
    requires IdsOk(r) && RandomOk(r) && NewOk(r, -1) && TriedOk(r, h) && FlagsOk(r) && CountsOk(r)
    ensures Inv(r, h)
  {
    hide IdsOk, RandomOk, NewOk, TriedOk, FlagsOk, CountsOk;
  }

  lemma {:induction false} RenamedIds(t: Tables, order: seq<int>, r: Tables)
    requires Ordered(t, order) && Filled(t, order, t.vvNew, r) && r.nIdCount == |order|
    requires Addresses(t, order, |order|, r.mapAddr) && InOrder(r.vRandom, |order|)
    ensures IdsOk(r) && RandomOk(r)
  {
    hide Count;
  }

  lemma {:induction false} CountRenamed(order: seq<int>, vv: seq<set<int>>, ww: seq<set<int>>, n: nat)
    requires n < |order| && |ww| == |vv|
    requires forall b :: 0 <= b < |vv| ==> (n in ww[b] <==> order[n] in vv[b])
    ensures Count(ww, n) == Count(vv, order[n]) && Buckets(ww, n) == Buckets(vv, order[n])
  {
    if vv != [] {
      CountRenamed(order, vv[..|vv| - 1], ww[..|vv| - 1], n);
    }
  }

  /** Old ids of a set of new ids. */
  function Olds(order: seq<int>, s: set<int>): set<int> { set n | n in s && 0 <= n < |order| :: order[n] }

  lemma {:induction false} OldsSize(order: seq<int>, s: set<int>)
    requires NoRepeats(order) && forall n :: n in s ==> 0 <= n < |order|
    ensures |Olds(order, s)| == |s|
    decreases |s|
  {
    if s == {} {
      assert Olds(order, s) == {};
    } else {
      var n := Pick(s);
      OldsSize(order, s - {n});
      NotTwice(order, n);
      assert Olds(order, s) == Olds(order, s - {n}) + {order[n]};
    }
  }

  lemma {:induction false} OldsBucket(t: Tables, order: seq<int>, r: Tables, b: nat)
    requires NewOk(t, -1) && Ordered(t, order) && Covers(t, order) && Filled(t, order, t.vvNew, r) && b < |t.vvNew|
    ensures b < |r.vvNew| && |r.vvNew[b]| == |t.vvNew[b]|
  {
    OldsSize(order, r.vvNew[b]);
    forall x | x in t.vvNew[b] ensures x in Olds(order, r.vvNew[b]) {
      assert x in t.mapInfo;
      var n :| 0 <= n < |order| && order[n] == x;
      assert n in r.vvNew[b];
    }
    assert Olds(order, r.vvNew[b]) == t.vvNew[b];
  }

  lemma {:induction false} RenamedNew(t: Tables, order: seq<int>, r: Tables)
    requires NewOk(t, -1) && Ordered(t, order) && Covers(t, order) && Filled(t, order, t.vvNew, r)
    ensures NewOk(r, -1)
  {
    hide Count, Buckets;
    forall b | 0 <= b < |r.vvNew| ensures |r.vvNew[b]| <= NEW_BUCKET_SIZE { OldsBucket(t, order, r, b); }
    forall b, n | 0 <= b < |r.vvNew| && n in r.vvNew[b] ensures n in r.mapInfo && !r.mapInfo[n].fInTried {
      assert 0 <= n < |order| && order[n] in t.vvNew[b];
    }
    forall n | n in r.mapInfo ensures r.mapInfo[n].nRefCount == Count(r.vvNew, n) {
      CountRenamed(order, t.vvNew, r.vvNew, n);
    }
  }

  lemma {:induction false} RenamedTried(t: Tables, h: Hashing, order: seq<int>, r: Tables)
    requires TriedOk(t, h) && Ordered(t, order) && Filled(t, order, t.vvNew, r)
    requires TriedLoaded(t, h, order, |order|, r.vvTried)
    ensures TriedOk(r, h)
  {
    hide Count;
    forall b | 0 <= b < |r.vvTried| ensures |r.vvTried[b]| <= TRIED_BUCKET_SIZE {
      TriedFits(t, h, order, r.vvTried, b);
    }
    forall b, k | 0 <= b < |r.vvTried| && 0 <= k < |r.vvTried[b]| ensures TriedMember(r, h, r.vvTried[b][k], b) {
      assert r.vvTried[b][k] in r.vvTried[b];
    }
    forall n | n in r.mapInfo && r.mapInfo[n].fInTried
      ensures n in r.vvTried[h.triedBucket(r.mapInfo[n].service)]
    {
      assert TriedMember(t, h, order[n], h.triedBucket(r.mapInfo[n].service));
    }
  }

  lemma {:induction false} TriedFits(t: Tables, h: Hashing, order: seq<int>, vv: seq<seq<int>>, b: nat)
    requires TriedOk(t, h) && Ordered(t, order) && TriedLoaded(t, h, order, |order|, vv) && b < |vv|
    ensures |vv[b]| <= TRIED_BUCKET_SIZE
  {
    SetOfSize(vv[b]);
    forall n | n in SetOf(vv[b]) ensures 0 <= n < |order| && TriedMember(t, h, order[n], b) {
      TriedAt(t, h, order, |order|, vv, b, n);
    }
    OldsSize(order, SetOf(vv[b]));
    SetOfSize(t.vvTried[b]);
    forall x | x in Olds(order, SetOf(vv[b])) ensures x in SetOf(t.vvTried[b]) {
      assert x in t.mapInfo && t.mapInfo[x].fInTried;
    }
    SubsetSize(Olds(order, SetOf(vv[b])), SetOf(t.vvTried[b]));
  }

  lemma {:induction false} RenamedFlags(t: Tables, h: Hashing, order: seq<int>, r: Tables)
    requires Inv(t, h) && Ordered(t, order) && Filled(t, order, t.vvNew, r)
    ensures FlagsOk(r) && IdsOk(t) && NewOk(t, -1) && TriedOk(t, h) && CountsOk(t)
  {
    hide Count;
    forall n | n in r.mapInfo ensures r.mapInfo[n].nRefCount == t.mapInfo[order[n]].nRefCount {
      assert order[n] in t.mapInfo && order[n] != -1;
    }
  }

  lemma {:induction false} RenamedCounts(t: Tables, order: seq<int>, r: Tables)
    requires CountsOk(t) && Ordered(t, order) && Covers(t, order) && Filled(t, order, t.vvNew, r)
    requires r.nNew == t.nNew && r.nTried == t.nTried
    ensures CountsOk(r)
  {
    hide Count;
    var a, b := TriedIds(r.mapInfo), NewIds(r.mapInfo);
    OldsSize(order, a);
    OldsSize(order, b);
    forall x | x in t.mapInfo ensures x in Olds(order, a) <==> t.mapInfo[x].fInTried {
      var n :| 0 <= n < |order| && order[n] == x;
      NotTwice(order, n);
      assert n in r.mapInfo;
    }
    forall x | x in t.mapInfo ensures x in Olds(order, b) <==> !t.mapInfo[x].fInTried {
      var n :| 0 <= n < |order| && order[n] == x;
      NotTwice(order, n);
      assert n in r.mapInfo;
    }
    assert Olds(order, a) == TriedIds(t.mapInfo);
    assert Olds(order, b) == NewIds(t.mapInfo);
  }

  lemma {:induction false} RenamedView(t: Tables, h: Hashing, order: seq<int>, r: Tables)
    requires IdsOk(t) && IdsOk(r) && Ordered(t, order) && Covers(t, order) && Renamed(t, h, order, r)
    ensures ViewOf(r) == Saved(ViewOf(t))
  {
    hide Count, Buckets, TriedLoaded, Filled, IdsOk, Addresses;
    var v, v' := Saved(ViewOf(t)), ViewOf(r);
    SameAddresses(t, order, r.mapAddr);
    assert v.Keys == v'.Keys;
    forall a | a in v ensures v'[a] == v[a] {
      RenamedAt(t, order, r, a);
    }
  }

  lemma {:induction false} SameAddresses(t: Tables, order: seq<int>, m: map<NetAddr, int>)
    requires IdsOk(t) && Ordered(t, order) && Covers(t, order) && Addresses(t, order, |order|, m)
    ensures m.Keys == t.mapAddr.Keys
  {
    forall a ensures a in m <==> a in t.mapAddr {
      if a in t.mapAddr {
        var n :| 0 <= n < |order| && order[n] == t.mapAddr[a];
        assert t.mapInfo[order[n]].service.net in m;
      }
      if a in m { assert t.mapInfo[order[m[a]]].service.net in t.mapAddr; }
    }
  }

  lemma {:induction false} RenamedAt(t: Tables, order: seq<int>, r: Tables, a: NetAddr)
    requires IdsOk(t) && Ordered(t, order) && Filled(t, order, t.vvNew, r)
    requires Addresses(t, order, |order|, r.mapAddr) && a in r.mapAddr && a in t.mapAddr
    ensures r.mapAddr[a] in r.mapInfo
    ensures t.mapAddr[a] in t.mapInfo
    ensures EntryOf(r.mapInfo[r.mapAddr[a]], Buckets(r.vvNew, r.mapAddr[a])) ==
         EntryOf(t.mapInfo[t.mapAddr[a]], Buckets(t.vvNew, t.mapAddr[a])).(nLastTry := 0)
  {
    hide Count, Buckets;
    var n := r.mapAddr[a];
    assert order[n] == t.mapAddr[a] by { assert t.mapInfo[order[n]].service.net == a; }
    forall b | 0 <= b < |t.vvNew| ensures n in r.vvNew[b] <==> order[n] in t.vvNew[b] {}
    CountRenamed(order, t.vvNew, r.vvNew, n);
  }

  // --- The round trip ---------------------------------------------------------------------------

  /** The order in which entries are stored. */
  ghost function Order(t: Tables): (order: seq<int>)
    ensures Ordered(t, order)
  {
    var n, m := NewOrder(t), TriedOrder(t);
    assert NoRepeats(n + m);
    n + m
  }

  lemma {:induction false} OrderSizes(t: Tables, h: Hashing)
    requires Inv(t, h)
    ensures |NewOrder(t)| == t.nNew && |TriedOrder(t)| == t.nTried
    ensures Covers(t, Order(t)) && Ranked(t, Order(t))
  {
    hide RandomOk, NewOk, TriedOk, FlagsOk, Sorted;
    var new_, tried := NewIds(t.mapInfo), TriedIds(t.mapInfo);
    SortedSize(new_, t.nIdCount);
    SortedSize(tried, t.nIdCount);
    SortedSet(new_, t.nIdCount);
    SortedSet(tried, t.nIdCount);
    forall x | x in t.mapInfo ensures x in Order(t) {
      if t.mapInfo[x].fInTried {
        assert x in SetOf(TriedOrder(t));
      } else {
        assert x in SetOf(NewOrder(t));
      }
    }
    forall x: int | x in t.mapInfo && !t.mapInfo[x].fInTried
      ensures 0 <= x && |Sorted(new_, x)| < |Order(t)| && Order(t)[|Sorted(new_, x)|] == x
    {
      SortedRank(new_, t.nIdCount, x);
    }
  }

  lemma {:induction false} Parts(t: Tables, h: Hashing)
    requires Inv(t, h)
    ensures IdsOk(t) && NewOk(t, -1) && TriedOk(t, h) && FlagsOk(t) && |t.vvNew| == NEW_BUCKET_COUNT
  {}

  lemma {:induction false} Empty(t: Tables, order: seq<int>, r: Tables)
    requires Ordered(t, order) && r == Cleared(r.nNew, r.nTried)
    ensures Loaded(t, order, 0, r)
  {}

  lemma {:induction false} NoneTried(t: Tables, h: Hashing, order: seq<int>, k: nat, vv: seq<seq<int>>)
    requires Ordered(t, order) && k <= |order| && forall n :: 0 <= n < k ==> !t.mapInfo[order[n]].fInTried
    requires |vv| == TRIED_BUCKET_COUNT && forall b :: 0 <= b < |vv| ==> vv[b] == []
    ensures TriedLoaded(t, h, order, k, vv)
  {}

  lemma {:induction false} NoneFilled(t: Tables, order: seq<int>, vv: seq<set<int>>, r: Tables)
    requires Ordered(t, order) && Loaded(t, order, |order|, r) && r.vvNew == vv
    requires |t.vvNew| == |vv| == NEW_BUCKET_COUNT && forall b :: 0 <= b < |vv| ==> vv[b] == {}
    ensures Filled(t, order, vv, r) && Before(t, vv, 0)
  {
    forall n | 0 <= n < |order| ensures Count(vv, order[n]) == 0 { CountZero(vv, order[n]); }
    assert forall x :: Count([], x) == 0;
  }

  lemma {:induction false} AllRead(t: Tables, h: Hashing, order: seq<int>, r2: Tables, r3: Tables)
    requires Ordered(t, order) && Loaded(t, order, |order|, r2) && Filled(t, order, t.vvNew, r3)
    requires TriedLoaded(t, h, order, |order|, r2.vvTried) && r3 == r2.(mapInfo := r3.mapInfo, vvNew := r3.vvNew)
    requires r2.nIdCount == |order| && r2.nNew == t.nNew && r2.nTried == t.nTried
    ensures Renamed(t, h, order, r3)
  {
    hide Filled, TriedLoaded;
  }

  /** What is written reads back, completely, as tables that again satisfy the
      invariant, with the same addresses, statistics, tables and buckets. No tried
      entry is lost on the way. */
  lemma {:induction false} RoundTrip(t: Tables, h: Hashing, key: seq<nat>)
    requires Inv(t, h)
    ensures HeaderOk(Written(t, key))
    ensures var r := Reader(Written(t, key), h);
      && r.Read? && r.rest == [] && Inv(r.t, h) && ViewOf(r.t) == Saved(ViewOf(t))
      && r.t.nNew == t.nNew && r.t.nTried == t.nTried
  {
    hide Inv, NewOk, TriedOk, FlagsOk, IdsOk, ViewOf, Loaded, Filled, TriedLoaded, Ranked, Covers, RandomOk,
      ReadNew, ReadTried, ReadBuckets;
    OrderSizes(t, h);
    Parts(t, h);
    var order := Order(t);
    var nNew := |NewOrder(t)|;
    assert order[..nNew] == NewOrder(t) && order[nNew..] == TriedOrder(t);
    var s := Written(t, key);
    var last := BucketsTokens(NewIds(t.mapInfo), t.vvNew, 0, t.nIdCount);
    var middle := Records(t.mapInfo, order[nNew..]) + last;
    assert order[0..nNew] == NewOrder(t);
    assert s[5..] == Records(t.mapInfo, order[0..nNew]) + middle;
    var r0 := Cleared(t.nNew, t.nTried);
    Empty(t, order, r0);
    var r1 := ReadsNew(t, h, order, 0, nNew, r0, s[5..], middle);
    NoneTried(t, h, order, nNew, r1.vvTried);
    LoadedFrame(t, order, nNew, r1, r1.(nIdCount := nNew));
    var r2 := ReadsTried(t, h, order, nNew, nNew, r1.(nIdCount := nNew), middle, last);
    NoneFilled(t, order, r0.vvNew, r2);
    var r3 := ReadsBuckets(t, order, r0.vvNew, r2, 0, last);
    AllRead(t, h, order, r2, r3);
    RenamedInv(t, h, order, r3);
  }
}
