/** The elementary changes CAddrMan makes to its tables, and what each keeps. */
module AddrSteps {
  import opened AddrTables

  /** Everything but the exactness of one reference count. */
  ghost predicate InvPending(t: Tables, h: Hashing, pend: int) {
    IdsOk(t) && RandomOk(t) && NewOk(t, pend) && TriedOk(t, h) && FlagsOk(t) && CountsOk(t)
  }

  // --- Frames --------------------------------------------------------------------------

  ghost predicate SameServices(m: map<int, Info>, m': map<int, Info>) {
    m.Keys == m'.Keys && forall id :: id in m ==> m'[id].service == m[id].service
  }

  ghost predicate SamePositions(m: map<int, Info>, m': map<int, Info>) {
    m.Keys == m'.Keys && forall id :: id in m ==> m'[id].nRandomPos == m[id].nRandomPos
  }

  ghost predicate SameFlags(m: map<int, Info>, m': map<int, Info>) {
    m.Keys == m'.Keys && forall id :: id in m ==> m'[id].fInTried == m[id].fInTried
  }

  lemma {:induction false} IdsFrame(t: Tables, t': Tables)
    requires IdsOk(t) && t'.nIdCount == t.nIdCount && t'.mapAddr == t.mapAddr && SameServices(t.mapInfo, t'.mapInfo)
    ensures IdsOk(t')
  {}

  lemma {:induction false} RandomFrame(t: Tables, t': Tables)
    requires RandomOk(t) && t'.vRandom == t.vRandom && SamePositions(t.mapInfo, t'.mapInfo)
    ensures RandomOk(t')
  {}

  lemma {:induction false} TriedFrame(t: Tables, t': Tables, h: Hashing)
    requires TriedOk(t, h) && t'.vvTried == t.vvTried
    requires SameServices(t.mapInfo, t'.mapInfo) && SameFlags(t.mapInfo, t'.mapInfo)
    ensures TriedOk(t', h)
  {
    forall b, k | 0 <= b < |t'.vvTried| && 0 <= k < |t'.vvTried[b]|
      ensures TriedMember(t', h, t'.vvTried[b][k], b)
    {
      assert TriedMember(t, h, t.vvTried[b][k], b);
    }
  }

  lemma {:induction false} CountsFrame(t: Tables, t': Tables)
    requires CountsOk(t) && t'.nNew == t.nNew && t'.nTried == t.nTried && SameFlags(t.mapInfo, t'.mapInfo)
    ensures CountsOk(t')
  {
    FlagSets(t.mapInfo, t'.mapInfo);
  }

  lemma {:induction false} FlagSets(m: map<int, Info>, m': map<int, Info>)
    requires SameFlags(m, m')
    ensures TriedIds(m') == TriedIds(m) && NewIds(m') == NewIds(m)
  {
    forall id ensures id in m <==> id in m' { assert id in m.Keys <==> id in m'.Keys; }
    forall id ensures id in TriedIds(m) <==> id in TriedIds(m') {}
    forall id ensures id in NewIds(m) <==> id in NewIds(m') {}
  }

  lemma {:induction false} BucketsUpdate(vv: seq<set<int>>, b: nat, s: set<int>, id: int)
    requires b < |vv|
    ensures Buckets(vv[b := s], id) == if id in s then Buckets(vv, id) + {b} else Buckets(vv, id) - {b}
  {}

  /** Same ids, same entries but for id: one change in the view. */
  lemma {:induction false} ViewChange(t: Tables, t': Tables, id: int)
    requires IdsOk(t) && IdsOk(t') && t'.mapAddr == t.mapAddr && id in t.mapInfo && t'.mapInfo.Keys == t.mapInfo.Keys
    requires forall x :: x in t.mapInfo && x != id ==>
      EntryOf(t'.mapInfo[x], Buckets(t'.vvNew, x)) == EntryOf(t.mapInfo[x], Buckets(t.vvNew, x))
    requires t'.mapInfo[id].service.net == t.mapInfo[id].service.net
    ensures ViewOf(t') == ViewOf(t)[t.mapInfo[id].service.net := EntryOf(t'.mapInfo[id], Buckets(t'.vvNew, id))]
  {
    hide EntryOf, Buckets;
    var a := t.mapInfo[id].service.net;
    var v := ViewOf(t)[a := EntryOf(t'.mapInfo[id], Buckets(t'.vvNew, id))];
    assert ViewOf(t').Keys == v.Keys;
    forall x | x in v ensures ViewOf(t')[x] == v[x] {
      if x != a { assert t.mapInfo[t.mapAddr[x]].service.net == x; }
    }
  }

  lemma {:induction false} ViewAt(t: Tables, id: int)
    requires IdsOk(t) && id in t.mapInfo
    ensures var a := t.mapInfo[id].service.net;
      a in ViewOf(t) && ViewOf(t)[a] == EntryOf(t.mapInfo[id], Buckets(t.vvNew, id))
  {}

  // --- Edit: statistics of one entry ------------------------------------------------------

  function Edit(t: Tables, id: int, i: Info): Tables { t.(mapInfo := t.mapInfo[id := i]) }

  /** Only time stamps, services and attempt counts differ. */
  ghost predicate Statistics(i: Info, j: Info) {
    && j.service == i.service && j.source == i.source
    && j.nRefCount == i.nRefCount && j.fInTried == i.fInTried && j.nRandomPos == i.nRandomPos
  }

  lemma {:induction false} EditKeeps(t: Tables, h: Hashing, id: int, i: Info, pend: int)
    requires InvPending(t, h, pend) && id in t.mapInfo && Statistics(t.mapInfo[id], i)
    ensures InvPending(Edit(t, id, i), h, pend)
    ensures ViewOf(Edit(t, id, i)) == ViewOf(t)[i.service.net := EntryOf(i, Buckets(t.vvNew, id))]
  {
    hide EntryOf, Buckets, TriedOk, CountsOk, ViewOf, IdsOk, RandomOk;
    var t' := Edit(t, id, i);
    IdsFrame(t, t');
    RandomFrame(t, t');
    TriedFrame(t, t', h);
    CountsFrame(t, t');
    ViewChange(t, t', id);
  }

  /** A reference count goes up before the id enters its bucket. */
  lemma {:induction false} BumpKeeps(t: Tables, h: Hashing, id: int)
    requires InvPending(t, h, -1) && id in t.mapInfo && !t.mapInfo[id].fInTried
    requires t.mapInfo[id].nRefCount < NEW_BUCKETS_PER_ADDRESS
    ensures var i := t.mapInfo[id]; var t' := Edit(t, id, i.(nRefCount := i.nRefCount + 1));
      InvPending(t', h, id) && ViewOf(t') == ViewOf(t)
  {
    hide Buckets, TriedOk, CountsOk, NewOk, RandomOk, ViewOf, IdsOk;
    var i := t.mapInfo[id];
    var t' := Edit(t, id, i.(nRefCount := i.nRefCount + 1));
    IdsFrame(t, t');
    RandomFrame(t, t');
    TriedFrame(t, t', h);
    CountsFrame(t, t');
    BumpNew(t, id);
    SameView(t, t');
  }

  /** Reference counts and positions are not part of the view. */
  lemma {:induction false} SameView(t: Tables, t': Tables)
    requires IdsOk(t) && IdsOk(t') && t'.mapAddr == t.mapAddr && t'.vvNew == t.vvNew
    requires t'.mapInfo.Keys == t.mapInfo.Keys
    requires forall x :: x in t.mapInfo ==> EntryOf(t'.mapInfo[x], {}) == EntryOf(t.mapInfo[x], {})
    ensures ViewOf(t') == ViewOf(t)
  {
    hide Buckets;
    var v, v' := ViewOf(t), ViewOf(t');
    assert v'.Keys == v.Keys;
    forall a | a in v ensures v'[a] == v[a] {
      assert EntryOf(t'.mapInfo[t.mapAddr[a]], {}) == EntryOf(t.mapInfo[t.mapAddr[a]], {});
    }
  }

  lemma {:induction false} BumpNew(t: Tables, id: int)
    requires IdsOk(t) && NewOk(t, -1) && id in t.mapInfo
    ensures var i := t.mapInfo[id]; NewOk(Edit(t, id, i.(nRefCount := i.nRefCount + 1)), id)
  {
    hide Count;
  }

  // --- Create -----------------------------------------------------------------------------------

  function Created(t: Tables, i: Info): Tables {
    t.(nIdCount := t.nIdCount + 1,
       mapInfo := t.mapInfo[t.nIdCount := i.(nRandomPos := |t.vRandom|)],
       mapAddr := t.mapAddr[i.service.net := t.nIdCount],
       vRandom := t.vRandom + [t.nIdCount],
       nNew := t.nNew + 1)
  }

  lemma {:induction false} CreateKeeps(t: Tables, h: Hashing, i: Info)
    requires InvPending(t, h, -1) && i.service.net !in t.mapAddr && !i.fInTried && i.nRefCount == 1
    ensures InvPending(Created(t, i), h, t.nIdCount)
    ensures ViewOf(Created(t, i)) == ViewOf(t)[i.service.net := EntryOf(i, {})]
    ensures forall b :: 0 <= b < |t.vvNew| ==> t.nIdCount !in t.vvNew[b]
  {
    hide EntryOf, Buckets, IdsOk, RandomOk, NewOk, TriedOk, FlagsOk, CountsOk, Created;
    CreateIds(t, i);
    CreateNew(t, i);
    CreateTried(t, h, i);
    CreateCounts(t, i);
    CreateView(t, i);
  }

  lemma {:induction false} CreateIds(t: Tables, i: Info)
    requires IdsOk(t) && RandomOk(t) && FlagsOk(t) && i.service.net !in t.mapAddr && !i.fInTried && i.nRefCount == 1
    ensures IdsOk(Created(t, i)) && RandomOk(Created(t, i)) && FlagsOk(Created(t, i))
  {}

  lemma {:induction false} CreateNew(t: Tables, i: Info)
    requires IdsOk(t) && NewOk(t, -1) && !i.fInTried && i.nRefCount == 1
    ensures NewOk(Created(t, i), t.nIdCount)
    ensures forall b :: 0 <= b < |t.vvNew| ==> t.nIdCount !in t.vvNew[b]
  {
    hide Count;
    CountZero(t.vvNew, t.nIdCount);
  }

  lemma {:induction false} CreateCounts(t: Tables, i: Info)
    requires IdsOk(t) && CountsOk(t) && !i.fInTried
    ensures CountsOk(Created(t, i))
  {
    var id, m' := t.nIdCount, Created(t, i).mapInfo;
    assert id !in t.mapInfo;
    assert forall x :: x in t.mapInfo ==> m'[x] == t.mapInfo[x];
    assert TriedIds(m') == TriedIds(t.mapInfo);
    assert NewIds(m') == NewIds(t.mapInfo) + {id};
  }

  lemma {:induction false} CreateTried(t: Tables, h: Hashing, i: Info)
    requires IdsOk(t) && TriedOk(t, h) && !i.fInTried
    ensures TriedOk(Created(t, i), h)
  {
    var t' := Created(t, i);
    forall b, k | 0 <= b < |t'.vvTried| && 0 <= k < |t'.vvTried[b]|
      ensures TriedMember(t', h, t'.vvTried[b][k], b)
    {
      assert TriedMember(t, h, t.vvTried[b][k], b);
    }
  }

  lemma {:induction false} CreateView(t: Tables, i: Info)
    requires IdsOk(t) && IdsOk(Created(t, i)) && i.service.net !in t.mapAddr
    requires forall b :: 0 <= b < |t.vvNew| ==> t.nIdCount !in t.vvNew[b]
    ensures ViewOf(Created(t, i)) == ViewOf(t)[i.service.net := EntryOf(i, {})]
  {
    var t' := Created(t, i);
    assert Buckets(t.vvNew, t.nIdCount) == {};
    forall x | x in t.mapAddr ensures t'.mapAddr[x] == t.mapAddr[x]
      && t'.mapInfo[t'.mapAddr[x]] == t.mapInfo[t.mapAddr[x]] {
      assert t.mapAddr[x] in t.mapInfo;
    }
    assert ViewOf(t') == ViewOf(t)[i.service.net := EntryOf(i, {})];
  }

  // --- Swap -----------------------------------------------------------------------------------------

  function Swapped(t: Tables, p: nat, q: nat): Tables
    requires p < |t.vRandom| && q < |t.vRandom| && t.vRandom[p] in t.mapInfo && t.vRandom[q] in t.mapInfo
  {
    if p == q then t else
      var x, y := t.vRandom[p], t.vRandom[q];
      var m := t.mapInfo[x := t.mapInfo[x].(nRandomPos := q)];
      t.(mapInfo := m[y := m[y].(nRandomPos := p)], vRandom := t.vRandom[p := y][q := x])
  }

  lemma {:induction false} SwapKeeps(t: Tables, h: Hashing, p: nat, q: nat, pend: int)
    requires InvPending(t, h, pend) && p < |t.vRandom| && q < |t.vRandom|
    ensures InvPending(Swapped(t, p, q), h, pend)
    ensures ViewOf(Swapped(t, p, q)) == ViewOf(t)
    ensures SwapsOnlyPositions(t, Swapped(t, p, q))
  {
    hide TriedOk, CountsOk, NewOk, FlagsOk;
    var t' := Swapped(t, p, q);
    SwapRandomOk(t, p, q);
    IdsFrame(t, t');
    TriedFrame(t, t', h);
    CountsFrame(t, t');
    PositionsFrame(t, t', pend);
    forall a | a in t.mapAddr ensures ViewOf(t')[a] == ViewOf(t)[a] {}
  }

  ghost predicate SwapsOnlyPositions(t: Tables, t': Tables) {
    && t'.mapInfo.Keys == t.mapInfo.Keys && |t'.vRandom| == |t.vRandom|
    && forall id :: id in t.mapInfo ==> t'.mapInfo[id] == t.mapInfo[id].(nRandomPos := t'.mapInfo[id].nRandomPos)
  }

  lemma {:induction false} SwapRandomOk(t: Tables, p: nat, q: nat)
    requires RandomOk(t) && p < |t.vRandom| && q < |t.vRandom|
    ensures RandomOk(Swapped(t, p, q)) && SwapsOnlyPositions(t, Swapped(t, p, q))
  {
    if p != q {
      var x, y := t.vRandom[p], t.vRandom[q];
      assert t.mapInfo[x].nRandomPos == p && t.mapInfo[y].nRandomPos == q;
    }
  }

  lemma {:induction false} PositionsFrame(t: Tables, t': Tables, pend: int)
    requires NewOk(t, pend) && FlagsOk(t) && t'.vvNew == t.vvNew && SwapsOnlyPositions(t, t')
    ensures NewOk(t', pend) && FlagsOk(t')
  {}

  // --- Drop: one reference fewer, and deletion at zero ---------------------------------------

  /** Removes the entry whose position is last. */
  function Erased(t: Tables, id: int): Tables
    requires id in t.mapInfo && t.vRandom != []
  {
    t.(mapInfo := t.mapInfo - {id}, mapAddr := t.mapAddr - {t.mapInfo[id].service.net},
       vRandom := t.vRandom[..|t.vRandom| - 1], nNew := t.nNew - 1)
  }

  function Released(t: Tables, b: nat, id: int): Tables
    requires b < |t.vvNew|
  {
    t.(vvNew := t.vvNew[b := t.vvNew[b] - {id}])
  }

  /** One reference fewer, and the entry deleted when none is left. */
  function Unreferenced(t: Tables, id: int): Tables
    requires RandomOk(t) && id in t.mapInfo
  {
    var i := t.mapInfo[id];
    var t1 := Edit(t, id, i.(nRefCount := i.nRefCount - 1));
    if i.nRefCount == 1 then
      RandomFrame(t, t1);
      Erased(Swapped(t1, i.nRandomPos, |t.vRandom| - 1), id)
    else
      t1
  }

  /** ShrinkNew's removal of id from bucket b. */
  function Dropped(t: Tables, b: nat, id: int): Tables
    requires RandomOk(t) && id in t.mapInfo && b < |t.vvNew|
  {
    var t1 := Unreferenced(t, id);
    t1.(vvNew := t.vvNew[b := t.vvNew[b] - {id}])
  }

  lemma {:induction false} DroppedIs(t: Tables, b: nat, id: int)
    requires RandomOk(t) && id in t.mapInfo && b < |t.vvNew|
    ensures var t1 := Unreferenced(t, id); t1.vvNew == t.vvNew && Dropped(t, b, id) == Released(t1, b, id)
  {}

  lemma {:induction false} DropKeeps(t: Tables, h: Hashing, b: nat, id: int, pend: int)
    requires InvPending(t, h, pend) && b < |t.vvNew| && id in t.vvNew[b] && id != pend
    ensures InvPending(Dropped(t, b, id), h, pend)
  {
    hide IdsOk, RandomOk, NewOk, TriedOk, FlagsOk, CountsOk, Released, Erased, Swapped, Edit, Dropped;
    InBucket(t, b, id, pend);
    DroppedIs(t, b, id);
    if t.mapInfo[id].nRefCount == 1 {
      DropLast(t, h, b, id, pend);
    } else {
      DropOne(t, h, b, id, pend);
    }
  }

  lemma {:induction false} InBucket(t: Tables, b: nat, id: int, pend: int)
    requires NewOk(t, pend) && b < |t.vvNew| && id in t.vvNew[b] && id != pend
    ensures id in t.mapInfo && !t.mapInfo[id].fInTried && t.mapInfo[id].nRefCount == Count(t.vvNew, id) >= 1
  {
    CountZero(t.vvNew, id);
  }

  lemma {:induction false} DropOne(t: Tables, h: Hashing, b: nat, id: int, pend: int)
    requires InvPending(t, h, pend) && b < |t.vvNew| && id in t.vvNew[b] && id != pend
    requires id in t.mapInfo && t.mapInfo[id].nRefCount > 1
    ensures var i := t.mapInfo[id];
      InvPending(Released(Edit(t, id, i.(nRefCount := i.nRefCount - 1)), b, id), h, pend)
  {
    hide Buckets, TriedOk, CountsOk, NewOk;
    var i := t.mapInfo[id];
    var t' := Released(Edit(t, id, i.(nRefCount := i.nRefCount - 1)), b, id);
    IdsFrame(t, t');
    RandomFrame(t, t');
    InBucket(t, b, id, pend);
    TriedFrame(t, t', h);
    CountsFrame(t, t');
    DropOneNew(t, b, id, pend);
  }

  lemma {:induction false} DropOneNew(t: Tables, b: nat, id: int, pend: int)
    requires NewOk(t, pend) && b < |t.vvNew| && id in t.vvNew[b] && id in t.mapInfo && id != pend
    ensures var i := t.mapInfo[id]; NewOk(Released(Edit(t, id, i.(nRefCount := i.nRefCount - 1)), b, id), pend)
  {
    hide Count;
    forall x ensures Count(t.vvNew[b := t.vvNew[b] - {id}], x) == Count(t.vvNew, x) - (if x == id then 1 else 0) {
      CountUpdate(t.vvNew, b, t.vvNew[b] - {id}, x);
    }
  }

  /** The tables just before an entry with no reference left is erased. */
  ghost predicate Doomed(t: Tables, h: Hashing, b: nat, id: int, pend: int) {
    && IdsOk(t) && RandomOk(t) && TriedOk(t, h) && CountsOk(t) && b < |t.vvNew|
    && id in t.mapInfo && !t.mapInfo[id].fInTried && t.vRandom != []
    && t.mapInfo[id].nRandomPos == |t.vRandom| - 1
    && NewOk(t.(mapInfo := t.mapInfo[id := t.mapInfo[id].(nRefCount := 1)]), pend)
    && FlagsOk(t.(mapInfo := t.mapInfo[id := t.mapInfo[id].(nRefCount := 1)]))
    && id in t.vvNew[b] && id != pend
  }

  lemma {:induction false} DropLast(t: Tables, h: Hashing, b: nat, id: int, pend: int)
    requires InvPending(t, h, pend) && b < |t.vvNew| && id in t.vvNew[b] && id != pend
    requires id in t.mapInfo && t.mapInfo[id].nRefCount == 1 && !t.mapInfo[id].fInTried
    ensures InvPending(Dropped(t, b, id), h, pend)
  {
    hide TriedOk, CountsOk, NewOk, FlagsOk, IdsOk, RandomOk, Erased, Released, Dropped;
    DroppedIs(t, b, id);
    var i := t.mapInfo[id];
    var t1 := Edit(t, id, i.(nRefCount := 0));
    IdsFrame(t, t1);
    RandomFrame(t, t1);
    TriedFrame(t, t1, h);
    CountsFrame(t, t1);
    PositionOf(t, id);
    var q := |t.vRandom| - 1;
    SwapRandomOk(t1, i.nRandomPos, q);
    var t2 := Swapped(t1, i.nRandomPos, q);
    SwapFrames(t1, t2, h);
    DoomedNew(t, t2, b, id, pend);
    EraseKeeps(t2, h, b, id, pend);
  }

  lemma {:induction false} PositionOf(t: Tables, id: int)
    requires RandomOk(t) && id in t.mapInfo
    ensures 0 <= t.mapInfo[id].nRandomPos < |t.vRandom| && t.vRandom[t.mapInfo[id].nRandomPos] == id
    ensures t.vRandom[|t.vRandom| - 1] in t.mapInfo
  {}

  lemma {:induction false} SwapFrames(t: Tables, t': Tables, h: Hashing)
    requires IdsOk(t) && TriedOk(t, h) && CountsOk(t) && SwapsOnlyPositions(t, t')
    requires t' == t.(mapInfo := t'.mapInfo, vRandom := t'.vRandom)
    ensures IdsOk(t') && TriedOk(t', h) && CountsOk(t')
  {
    hide TriedOk, CountsOk, IdsOk;
    IdsFrame(t, t');
    TriedFrame(t, t', h);
    CountsFrame(t, t');
  }

  lemma {:induction false} DoomedNew(t: Tables, t2: Tables, b: nat, id: int, pend: int)
    requires NewOk(t, pend) && FlagsOk(t) && id in t.mapInfo && t.mapInfo[id].nRefCount == 1
    requires SwapsOnlyPositions(Edit(t, id, t.mapInfo[id].(nRefCount := 0)), t2) && t2.vvNew == t.vvNew
    ensures var t3 := t2.(mapInfo := t2.mapInfo[id := t2.mapInfo[id].(nRefCount := 1)]);
      NewOk(t3, pend) && FlagsOk(t3)
  {
    hide Count;
  }

  lemma {:induction false} EraseKeeps(t: Tables, h: Hashing, b: nat, id: int, pend: int)
    requires Doomed(t, h, b, id, pend)
    ensures InvPending(Released(Erased(t, id), b, id), h, pend)
  {
    hide Doomed;
    EraseIds(t, h, b, id, pend);
    EraseNew(t, h, b, id, pend);
    EraseTried(t, h, b, id, pend);
    EraseCounts(t, h, b, id, pend);
  }

  lemma {:induction false} EraseIds(t: Tables, h: Hashing, b: nat, id: int, pend: int)
    requires Doomed(t, h, b, id, pend)
    ensures id in t.mapInfo && t.vRandom != [] && b < |t.vvNew|
    ensures var t' := Released(Erased(t, id), b, id); IdsOk(t') && RandomOk(t') && FlagsOk(t')
  {
    hide TriedOk, NewOk, CountsOk;
    var m := t.mapInfo[id := t.mapInfo[id].(nRefCount := 1)];
    forall x | x in t.mapInfo - {id} ensures m[x] == t.mapInfo[x] && x in m {}
  }

  lemma {:induction false} EraseNew(t: Tables, h: Hashing, b: nat, id: int, pend: int)
    requires Doomed(t, h, b, id, pend)
    ensures id in t.mapInfo && t.vRandom != [] && b < |t.vvNew|
    ensures NewOk(Released(Erased(t, id), b, id), pend)
  {
    hide Count, TriedOk, IdsOk, RandomOk, FlagsOk, CountsOk;
    var vv := t.vvNew[b := t.vvNew[b] - {id}];
    forall x ensures Count(vv, x) == Count(t.vvNew, x) - (if x == id then 1 else 0) {
      CountUpdate(t.vvNew, b, t.vvNew[b] - {id}, x);
    }
    var t1 := t.(mapInfo := t.mapInfo[id := t.mapInfo[id].(nRefCount := 1)]);
    var t' := Released(Erased(t, id), b, id);
    assert t1.mapInfo[id].nRefCount == 1;
    CountZero(vv, id);
    assert vv[b] <= t.vvNew[b];
    SubsetSize(vv[b], t.vvNew[b]);
    forall x | x in t'.mapInfo ensures t'.mapInfo[x].nRefCount == Count(vv, x) + (if x == pend then 1 else 0) {
      assert t1.mapInfo[x] == t.mapInfo[x] == t'.mapInfo[x];
    }
    forall c, x | 0 <= c < |vv| && x in vv[c] ensures x in t'.mapInfo && !t'.mapInfo[x].fInTried {
      assert x in t1.vvNew[c];
      assert t1.mapInfo[x].fInTried == t.mapInfo[x].fInTried;
    }
  }

  lemma {:induction false} EraseTried(t: Tables, h: Hashing, b: nat, id: int, pend: int)
    requires Doomed(t, h, b, id, pend)
    ensures id in t.mapInfo && t.vRandom != [] && b < |t.vvNew|
    ensures TriedOk(Released(Erased(t, id), b, id), h)
  {
    hide NewOk, IdsOk, RandomOk, FlagsOk, CountsOk;
    var t' := Released(Erased(t, id), b, id);
    forall c, k | 0 <= c < |t'.vvTried| && 0 <= k < |t'.vvTried[c]| ensures TriedMember(t', h, t'.vvTried[c][k], c) {
      assert TriedMember(t, h, t.vvTried[c][k], c);
    }
  }

  lemma {:induction false} EraseCounts(t: Tables, h: Hashing, b: nat, id: int, pend: int)
    requires Doomed(t, h, b, id, pend)
    ensures id in t.mapInfo && t.vRandom != [] && b < |t.vvNew|
    ensures CountsOk(Released(Erased(t, id), b, id))
  {
    hide NewOk, IdsOk, RandomOk, FlagsOk, TriedOk;
    var m' := t.mapInfo - {id};
    assert TriedIds(m') == TriedIds(t.mapInfo);
    assert NewIds(m') == NewIds(t.mapInfo) - {id};
  }
}
