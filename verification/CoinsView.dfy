/** Stacks of coin caches over the coin database (src/coins.cpp, src/txdb.cpp), as one map
    from transaction ids to coins. */
module CoinsView {
  import opened Coins
  import opened Words

  type Txid = nat
  type CoinMap = map<Txid, Coins>

  datatype TxIn = TxIn(hash: Txid, n: nat)
  datatype Tx = Tx(fCoinBase: bool, vin: seq<TxIn>)

  /** What a node can still spend: coins that are not pruned. */
  ghost function Live(m: CoinMap): CoinMap {
    map t | t in m && !IsPruned(m[t]) :: m[t]
  }

  predicate HasInput(m: CoinMap, i: TxIn) { i.hash in m && Available(m[i.hash].vout, i.n) }

  predicate HasInputs(m: CoinMap, tx: Tx) {
    tx.fCoinBase || forall i :: 0 <= i < |tx.vin| ==> HasInput(m, tx.vin[i])
  }

  /** The value of the first k inputs. */
  function ValueIn(m: CoinMap, vin: seq<TxIn>, k: nat): int
    requires k <= |vin| && forall i :: 0 <= i < k ==> HasInput(m, vin[i])
  {
    if k == 0 then 0 else
      assert HasInput(m, vin[k - 1]);
      ValueIn(m, vin, k - 1) + m[vin[k - 1].hash].vout[vin[k - 1].n].nValue
  }

  lemma {:induction false} ValueInLive(m: CoinMap, vin: seq<TxIn>, k: nat)
    requires k <= |vin| && forall i :: 0 <= i < k ==> HasInput(m, vin[i])
    ensures forall i :: 0 <= i < k ==> HasInput(Live(m), vin[i])
    ensures ValueIn(Live(m), vin, k) == ValueIn(m, vin, k)
  {
    forall i | 0 <= i < k ensures HasInput(Live(m), vin[i]) { HasInputLive(m, vin[i]); }
    if k > 0 {
      ValueInLive(m, vin, k - 1);
    }
  }

  /** Maps with the same live coins accept the same transactions at the same value: a flush,
      which may only drop pruned coins, changes neither. */
  lemma {:induction false} SameLiveSameValue(m: CoinMap, m': CoinMap, tx: Tx)
    requires Live(m) == Live(m')
    ensures HasInputs(m, tx) <==> HasInputs(m', tx)
    ensures !tx.fCoinBase && HasInputs(m, tx) ==> ValueIn(m, tx.vin, |tx.vin|) == ValueIn(m', tx.vin, |tx.vin|)
  {
    hide Live, ValueIn, HasInput;
    forall i | 0 <= i < |tx.vin| ensures HasInput(m, tx.vin[i]) <==> HasInput(m', tx.vin[i]) {
      HasInputLive(m, tx.vin[i]);
      HasInputLive(m', tx.vin[i]);
    }
    if !tx.fCoinBase && HasInputs(m, tx) {
      ValueInLive(m, tx.vin, |tx.vin|);
      ValueInLive(m', tx.vin, |tx.vin|);
    }
  }

  /** Whether an input can be spent depends on the live coins only. */
  lemma {:induction false} HasInputLive(m: CoinMap, i: TxIn)
    ensures HasInput(Live(m), i) <==> HasInput(m, i)
    ensures HasInput(m, i) ==> Live(m)[i.hash] == m[i.hash]
  {}

  // --- Writing a batch -----------------------------------------------------------------------

  /** The part of m with keys in done. */
  ghost function Part(m: CoinMap, done: set<Txid>): CoinMap { map t | t in m && t in done :: m[t] }

  lemma {:induction false} PartStep(m: CoinMap, done: set<Txid>, t: Txid)
    requires t in m && t !in done
    ensures Part(m, done + {t}) == Part(m, done)[t := m[t]]
    ensures Live(Part(m, done + {t})) == if IsPruned(m[t]) then Live(Part(m, done)) else Live(Part(m, done))[t := m[t]]
  {
    hide IsPruned;
  }

  lemma {:induction false} PartEnds(m: CoinMap)
    ensures Part(m, {}) == map[] && Part(m, m.Keys) == m && Live(map[]) == map[]
  {
    hide IsPruned;
  }

  /** What a batch with the keys in done makes of a store that drops pruned coins. */
  ghost function Kept(store: CoinMap, m: CoinMap, done: set<Txid>): CoinMap { store - done + Live(Part(m, done)) }

  lemma {:induction false} KeptStep(store: CoinMap, m: CoinMap, done: set<Txid>, t: Txid)
    requires t in m && t !in done
    ensures Kept(store, m, done + {t}) ==
      if IsPruned(m[t]) then Kept(store, m, done) - {t} else Kept(store, m, done)[t := m[t]]
  {
    hide IsPruned, Live, Part;
    PartStep(m, done, t);
    LiveKeys(Part(m, done));
    PartKeys(m, done);
    assert store - (done + {t}) == store - done - {t};
  }

  lemma {:induction false} LiveKeys(m: CoinMap)
    ensures Live(m).Keys <= m.Keys
  {}

  lemma {:induction false} PartKeys(m: CoinMap, done: set<Txid>)
    ensures Part(m, done).Keys <= done
  {}

  lemma {:induction false} FlushedLive(store: CoinMap, cache: CoinMap)
    ensures Live(store - cache.Keys + Live(cache)) == Live(store + cache)
  {
    hide IsPruned;
  }

  lemma {:induction false} Overlay(a: CoinMap, b: CoinMap, c: CoinMap)
    ensures a + (b + c) == (a + b) + c
  {}

  lemma {:induction false} OverlayOne(a: CoinMap, b: CoinMap, t: Txid, v: Coins)
    ensures a + b[t := v] == (a + b)[t := v]
  {}

  lemma {:induction false} MergeStep(a: CoinMap, m: CoinMap, done: set<Txid>, t: Txid)
    requires t in m && t !in done
    ensures a + Part(m, done + {t}) == (a + Part(m, done))[t := m[t]]
  {
    hide Live, Part;
    PartStep(m, done, t);
    OverlayOne(a, Part(m, done), t, m[t]);
  }

  // --- The database ---------------------------------------------------------------------------

  class CCoinsViewDB {
    var store: CoinMap

    constructor (store: CoinMap)
      ensures this.store == store
    {
      this.store := store;
    }

    method GetCoins(txid: Txid) returns (found: bool, coins: Coins)
      ensures found <==> txid in store
      ensures found ==> coins == store[txid]
    {
      if txid in store {
        return true, store[txid];
      }
      found, coins := false, Coins(false, [], 0, 0);
    }

    /** BatchWriteCoins */
    method WriteCoins(txid: Txid, coins: Coins)
      modifies this
      ensures store == if IsPruned(coins) then old(store) - {txid} else old(store)[txid := coins]
    {
      if IsPruned(coins) {
        store := store - {txid};
      } else {
        store := store[txid := coins];
      }
    }

    /** BatchWrite: pruned coins are erased, others written; or nothing at all happens. */
    method BatchWrite(mapCoins: CoinMap, works: bool) returns (fOk: bool)
      modifies this
      ensures fOk == works && (!fOk ==> store == old(store))
      ensures fOk ==> store == old(store) - mapCoins.Keys + Live(mapCoins)
    {
      hide Live, Part, IsPruned, Kept;
      if !works {
        return false;
      }
      var todo := mapCoins.Keys;
      ghost var store0 := store;
      ghost var done: set<Txid> := {};
      NothingStored(store, mapCoins);
      while todo != {}
        invariant todo == mapCoins.Keys - done && done <= mapCoins.Keys && store == Kept(store0, mapCoins, done)
        decreases |todo|
      {
        ghost var some := Pick(todo);
        var t :| t in todo;
        KeptStep(store0, mapCoins, done, t);
        WriteCoins(t, mapCoins[t]);
        todo, done := todo - {t}, done + {t};
      }
      assert done == mapCoins.Keys;
      AllStored(store0, mapCoins);
      fOk := true;
    }

    static lemma {:induction false} NothingStored(store: CoinMap, m: CoinMap)
      ensures Kept(store, m, {}) == store
    {
      hide IsPruned, Live, Part;
      PartEnds(m);
      assert store - {} == store && store + map[] == store;
    }

    static lemma {:induction false} AllStored(store: CoinMap, m: CoinMap)
      ensures Kept(store, m, m.Keys) == store - m.Keys + Live(m)
    {
      hide IsPruned, Live, Part;
      PartEnds(m);
    }
  }

  // --- Caches ------------------------------------------------------------------------------------

  datatype Base = Db(db: CCoinsViewDB) | Cache(cache: CCoinsViewCache)

  class CCoinsViewCache {
    const base: Base
    var cacheCoins: CoinMap
    ghost const repr: set<object>
    ghost const height: nat

    /** The views below are distinct objects; none of this ever changes. */
    ghost predicate Valid()
      decreases height
    {
      && this in repr
      && match base
         case Db(db) => db in repr && repr == {this, db}
         case Cache(c) => c.height < height && c.Valid() && this !in c.repr && repr == {this} + c.repr
    }

    /** The map the stack stands for. */
    ghost function A(): CoinMap
      requires Valid()
      reads repr
      decreases height
    {
      Below() + cacheCoins
    }

    ghost function Below(): CoinMap
      requires Valid()
      reads repr - {this}
      decreases height, 0
    {
      match base
      case Db(db) => db.store
      case Cache(c) => c.A()
    }

    constructor (base: Base)
      requires base.Cache? ==> base.cache.Valid()
      ensures Valid() && this.base == base && A() == Below() && cacheCoins == map[]
      ensures fresh(repr - (match base case Db(db) => {db} case Cache(c) => c.repr))
    {
      this.base, cacheCoins := base, map[];
      repr := {this} + (match base case Db(db) => {db} case Cache(c) => c.repr);
      height := match base case Db(_) => 0 case Cache(c) => c.height + 1;
    }

    method BaseGetCoins(txid: Txid) returns (found: bool, coins: Coins)
      requires Valid()
      modifies repr - {this}
      ensures Below() == old(Below())
      ensures found <==> txid in Below()
      ensures found ==> coins == Below()[txid]
      decreases height, 0
    {
      match base
      case Db(db) =>
        found, coins := db.GetCoins(txid);
      case Cache(c) =>
        found, coins := c.GetCoins(txid);
    }

    /** GetCoins copies what it finds into the cache; the map stays as it is. */
    method GetCoins(txid: Txid) returns (found: bool, coins: Coins)
      requires Valid()
      modifies repr
      ensures A() == old(A())
      ensures found <==> txid in A()
      ensures found ==> coins == A()[txid]
      decreases height, 1
    {
      if txid in cacheCoins {
        return true, cacheCoins[txid];
      }
      found, coins := BaseGetCoins(txid);
      if found {
        cacheCoins := cacheCoins[txid := coins];
      }
    }

    method FetchCoins(txid: Txid) returns (found: bool)
      requires Valid()
      modifies repr
      ensures A() == old(A())
      ensures found <==> txid in A()
      ensures found ==> txid in cacheCoins && cacheCoins[txid] == A()[txid]
      ensures forall t :: t in old(cacheCoins) ==> t in cacheCoins
    {
      if txid in cacheCoins {
        return true;
      }
      var tmp;
      found, tmp := BaseGetCoins(txid);
      if found {
        cacheCoins := cacheCoins[txid := tmp];
      }
    }

    /** The reference-returning GetCoins: its assertion holds for every id the map has. */
    method GetCoinsRef(txid: Txid) returns (coins: Coins)
      requires Valid() && txid in A()
      modifies repr
      ensures A() == old(A()) && coins == A()[txid]
    {
      var found := FetchCoins(txid);
      assert found;
      coins := cacheCoins[txid];
    }

    method HaveCoins(txid: Txid) returns (b: bool)
      requires Valid()
      modifies repr
      ensures A() == old(A()) && b == (txid in A())
    {
      b := FetchCoins(txid);
    }

    method SetCoins(txid: Txid, coins: Coins)
      requires Valid()
      modifies this
      ensures A() == old(A())[txid := coins]
    {
      cacheCoins := cacheCoins[txid := coins];
    }

    method BatchWrite(mapCoins: CoinMap) returns (fOk: bool)
      requires Valid()
      modifies this
      ensures fOk && A() == old(A()) + mapCoins
    {
      ghost var below, cache0 := Below(), cacheCoins;
      Merge(mapCoins);
      Overlay(below, cache0, mapCoins);
      fOk := true;
    }

    /** The loop of BatchWrite. */
    method Merge(mapCoins: CoinMap)
      modifies `cacheCoins
      ensures cacheCoins == old(cacheCoins) + mapCoins
    {
      hide Live, Part;
      var todo := mapCoins.Keys;
      ghost var cache0 := cacheCoins;
      ghost var done: set<Txid> := {};
      PartEnds(mapCoins);
      while todo != {}
        invariant todo == mapCoins.Keys - done && done <= mapCoins.Keys && cacheCoins == cache0 + Part(mapCoins, done)
        decreases |todo|
      {
        ghost var some := Pick(todo);
        var t :| t in todo;
        MergeStep(cache0, mapCoins, done, t);
        cacheCoins := cacheCoins[t := mapCoins[t]];
        done := done + {t};
        assert mapCoins.Keys - done == todo - {t};
        todo := todo - {t};
      }
      assert done == mapCoins.Keys;
    }

    /** Flush pushes the cache down. The map stays, except that the database drops pruned
        coins instead of storing them. */
    method Flush(works: bool) returns (fOk: bool)
      requires Valid()
      modifies repr
      ensures !fOk ==> A() == old(A()) && cacheCoins == old(cacheCoins)
      ensures fOk ==> cacheCoins == map[] && A() == Below() && Live(A()) == Live(old(A()))
      ensures base.Cache? ==> fOk && A() == old(A())
    {
      hide Live;
      match base
      case Db(db) =>
        ghost var store0, cache := db.store, cacheCoins;
        fOk := db.BatchWrite(cacheCoins, works);
        if fOk {
          cacheCoins := map[];
          FlushedLive(store0, cache);
          assert A() == db.store;
        }
      case Cache(c) =>
        ghost var cache := cacheCoins;
        fOk := c.BatchWrite(cacheCoins);
        if fOk {
          cacheCoins := map[];
        }
        Overlay(Below(), cacheCoins, map[]);
        assert A() == old(Below()) + cache;
    }

    /** GetOutputFor: both its assertions hold when the input is there. */
    method GetOutputFor(input: TxIn) returns (out: TxOut)
      requires Valid() && HasInput(A(), input)
      modifies repr
      ensures A() == old(A()) && out == A()[input.hash].vout[input.n]
    {
      var coins := GetCoinsRef(input.hash);
      assert Available(coins.vout, input.n);
      out := coins.vout[input.n];
    }

    method HaveInputs(tx: Tx) returns (b: bool)
      requires Valid()
      modifies repr
      ensures A() == old(A()) && b == HasInputs(A(), tx)
    {
      if !tx.fCoinBase {
        for i := 0 to |tx.vin|
          invariant A() == old(A()) && forall j :: 0 <= j < i ==> tx.vin[j].hash in A()
        {
          var have := HaveCoins(tx.vin[i].hash);
          if !have {
            return false;
          }
        }
        for i := 0 to |tx.vin|
          invariant A() == old(A()) && forall j :: 0 <= j < i ==> HasInput(A(), tx.vin[j])
        {
          var coins := GetCoinsRef(tx.vin[i].hash);
          if !Available(coins.vout, tx.vin[i].n) {
            return false;
          }
        }
      }
      b := true;
    }

    /** GetValueIn, for a transaction HaveInputs accepts: the sum over the map. */
    method GetValueIn(tx: Tx) returns (nResult: int)
      requires Valid() && HasInputs(A(), tx)
      modifies repr
      ensures A() == old(A())
      ensures nResult == if tx.fCoinBase then 0 else ValueIn(A(), tx.vin, |tx.vin|)
    {
      if tx.fCoinBase {
        return 0;
      }
      nResult := 0;
      for i := 0 to |tx.vin|
        invariant A() == old(A()) && nResult == ValueIn(A(), tx.vin, i)
      {
        var out := GetOutputFor(tx.vin[i]);
        nResult := nResult + out.nValue;
      }
    }
  }
}
