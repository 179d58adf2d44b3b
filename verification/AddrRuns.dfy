/** Whole runs of the operations of CAddrMan, and when the self-check Check_ accepts every
    state they reach. */
module AddrRuns {
  import opened AddrTables
  import opened AddrSpec
  import opened AddrCheck
  import opened AddrStore
  import opened AddrRestore
  import opened AddrMan

  /** The operations with their arguments; Reload stores the manager and reads it back. */
  datatype Op =
    | OpAdd(addr: Address, source: NetAddr, nTimePenalty: int, nNow: int, nRand: nat)
    | OpGood(service: Service, nTime: int)
    | OpAttempt(service: Service, nTime: int)
    | OpConnected(service: Service, nTime: int)
    | OpGetAddr
    | OpReload

  /** What the operation makes of the view, as the methods of CAddrMan promise. */
  ghost predicate Step(op: Op, v: View, v': View, h: Hashing, routable: NetAddr -> bool) {
    match op
    case OpAdd(addr, source, penalty, now, nRand) =>
      exists fNew :: AddSpec(v, v', fNew, nRand, h, routable(addr.service.net), addr, source, penalty, now)
    case OpGood(service, nTime) => GoodSpec(v, v', h, service, nTime)
    case OpAttempt(service, nTime) => v' == Attempted(v, service, nTime)
    case OpConnected(service, nTime) => v' == Connected(v, service, nTime)
    case OpGetAddr => v' == v
    case OpReload => v' == Saved(v)
  }

  /** The clock reading suits the operation, if it finds its entry at all. */
  predicate TimeFits(op: Op, v: View) {
    match op
    case OpGood(service, nTime) => Known(v, service) ==> nTime > 0
    case OpAttempt(service, nTime) => Known(v, service) ==> nTime >= 0
    case _ => true
  }

  lemma {:induction false} StepTimes(op: Op, v: View, v': View, h: Hashing, routable: NetAddr -> bool)
    requires Times(v) && Step(op, v, v', h, routable)
    ensures Times(v') <==> TimeFits(op, v)
  {
    hide AddSpec, GoodSpec;
    match op
    case OpAdd(addr, source, penalty, now, nRand) =>
      var fNew :| AddSpec(v, v', fNew, nRand, h, routable(addr.service.net), addr, source, penalty, now);
      AddTimes(v, v', fNew, nRand, h, routable(addr.service.net), addr, source, penalty, now);
    case OpGood(service, nTime) => GoodTimes(v, v', h, service, nTime);
    case OpAttempt(service, nTime) => AttemptTimes(v, service, nTime);
    case OpConnected(service, nTime) => ConnectedTimes(v, service, nTime);
    case OpGetAddr =>
    case OpReload =>
  }

  lemma {:induction false} TimesOfView(t: Tables)
    requires IdsOk(t)
    ensures TimesOk(t) <==> Times(ViewOf(t))
  {
    var v := ViewOf(t);
    if Times(v) {
      forall id | id in t.mapInfo
        ensures (t.mapInfo[id].fInTried ==> t.mapInfo[id].nLastSuccess != 0)
          && 0 <= t.mapInfo[id].nLastTry && 0 <= t.mapInfo[id].nLastSuccess
      {
        assert t.mapInfo[id].service.net in v;
      }
    }
  }

  /** A consistent state and its view. */
  ghost predicate Stands(t: Tables, v: View, h: Hashing) { Inv(t, h) && v == ViewOf(t) }

  /** The states and views after each operation of a run from an empty manager. */
  ghost predicate Run(ts: seq<Tables>, vs: seq<View>, ops: seq<Op>, h: Hashing, routable: NetAddr -> bool) {
    && |ts| == |vs| == |ops| + 1 && vs[0] == map[]
    && (forall i :: 0 <= i < |ts| ==> Stands(ts[i], vs[i], h))
    && (forall i :: 0 <= i < |ops| ==> Step(ops[i], vs[i], vs[i + 1], h, routable))
  }

  lemma {:induction false} RunTimes(ts: seq<Tables>, vs: seq<View>, ops: seq<Op>, h: Hashing,
                                    routable: NetAddr -> bool, n: nat)
    requires Run(ts, vs, ops, h, routable) && n <= |ops| && forall i :: 0 <= i < n ==> TimeFits(ops[i], vs[i])
    ensures Times(vs[n])
  {
    hide Stands, Step, TimeFits;
    if n > 0 {
      RunTimes(ts, vs, ops, h, routable, n - 1);
      StepTimes(ops[n - 1], vs[n - 1], vs[n], h, routable);
    }
  }

  /** Check_ accepts every state of a run if and only if every Good_ that finds its entry is
      given a positive time and every such Attempt_ no negative one. */
  lemma {:induction false} CheckAcceptsRuns(ts: seq<Tables>, vs: seq<View>, ops: seq<Op>, h: Hashing,
                                            routable: NetAddr -> bool)
    requires Run(ts, vs, ops, h, routable)
    ensures (forall i :: 0 <= i < |ts| ==> CheckPasses(ts[i])) <==>
            (forall i :: 0 <= i < |ops| ==> TimeFits(ops[i], vs[i]))
  {
    hide Stands, Step, TimeFits, CheckPasses, Times;
    if forall i :: 0 <= i < |ops| ==> TimeFits(ops[i], vs[i]) {
      forall i | 0 <= i < |ts| ensures CheckPasses(ts[i]) {
        RunTimes(ts, vs, ops, h, routable, i);
        PassesTimes(ts[i], vs[i], h);
      }
    }
    if forall i :: 0 <= i < |ts| ==> CheckPasses(ts[i]) {
      forall i | 0 <= i < |ops| ensures TimeFits(ops[i], vs[i]) {
        PassesTimes(ts[i], vs[i], h);
        PassesTimes(ts[i + 1], vs[i + 1], h);
        StepTimes(ops[i], vs[i], vs[i + 1], h, routable);
      }
    }
  }

  /** In a consistent state Check_ can only object to the time stamps. */
  lemma {:induction false} PassesTimes(t: Tables, v: View, h: Hashing)
    requires Stands(t, v, h)
    ensures CheckPasses(t) <==> Times(v)
  {
    hide CheckPasses, Times, NewOk, TriedOk, FlagsOk, CountsOk, RandomOk, Unchecked, TimesOk;
    CheckIsInvariant(t, h);
    TimesOfView(t);
    if CheckPasses(t) { PassedTimes(t); }
  }

  lemma {:induction false} PassedTimes(t: Tables)
    requires CheckPasses(t)
    ensures TimesOk(t)
  {
    assert forall id :: id in t.mapInfo ==> EntryPasses(t, id);
  }

  // --- Runs of the class -------------------------------------------------------------------------

  /** One call of an operation. */
  method Perform(m: CAddrMan, op: Op)
    requires m.Valid()
    modifies m
    ensures m.Valid() && m.H() == old(m.H()) && Step(op, old(m.V()), m.V(), m.H(), m.routable)
  {
    hide AddSpec, GoodSpec, Inv, Saved, HeaderOk, Reader;
    match op
    case OpAdd(addr, source, penalty, now, nRand) =>
      var fNew := m.Add(addr, source, penalty, now, nRand);
    case OpGood(service, nTime) => m.Good(service, nTime);
    case OpAttempt(service, nTime) => m.Attempt(service, nTime);
    case OpConnected(service, nTime) => m.Connected_(service, nTime);
    case OpGetAddr =>
      var vAddr := m.GetAddr([]);
    case OpReload =>
      RoundTrip(m.T(), m.H(), m.nKey);
      var s := m.Serialize();
      WrittenKey(m.T(), m.nKey);
      var ok := m.Unserialize(s);
  }

  lemma {:induction false} WrittenKey(t: Tables, key: seq<nat>)
    requires HeaderOk(Written(t, key))
    ensures Written(t, key)[1].key == key
  {}

  /** Performs the operations on a new manager, with a self-check at the start and after each
      one. Every state reached is consistent, whatever the operations; and every self-check
      returns 0 if and only if every clock reading fits. */
  method PerformAll(hashing: seq<nat> -> Hashing, routable: NetAddr -> bool, key: seq<nat>, ops: seq<Op>)
    returns (m: CAddrMan, checks: seq<int>, ghost ts: seq<Tables>, ghost vs: seq<View>)
    ensures fresh(m) && m.Valid() && m.H() == hashing(key)
    ensures Run(ts, vs, ops, m.H(), routable) && m.T() == ts[|ops|]
    ensures |checks| == |ops| + 1 && forall i :: 0 <= i <= |ops| ==> (checks[i] == 0 <==> CheckPasses(ts[i]))
    ensures (forall i :: 0 <= i <= |ops| ==> checks[i] == 0) <==>
            (forall i :: 0 <= i < |ops| ==> TimeFits(ops[i], vs[i]))
  {
    hide Step, TimeFits, CheckPasses, Inv;
    m := new CAddrMan(hashing, routable, key);
    KnownAddresses(m.T(), m.H());
    ts, vs := [m.T()], [m.V()];
    var r := m.Check();
    checks := [r];
    for i := 0 to |ops|
      invariant fresh(m) && m.Valid() && m.H() == hashing(key) && m.routable == routable
      invariant Run(ts, vs, ops[..i], m.H(), routable) && m.T() == ts[i]
      invariant |checks| == i + 1 && forall j :: 0 <= j <= i ==> (checks[j] == 0 <==> CheckPasses(ts[j]))
    {
      Perform(m, ops[i]);
      KnownAddresses(m.T(), m.H());
      ghost var ts0, vs0 := ts, vs;
      ts, vs := ts + [m.T()], vs + [m.V()];
      RunMore(ts0, vs0, ops, i, m.H(), routable, m.T(), m.V());
      r := m.Check();
      checks := checks + [r];
    }
    assert ops[..|ops|] == ops;
    CheckAcceptsRuns(ts, vs, ops, m.H(), routable);
  }

  /** In a consistent state Check_ has no effect. */
  lemma {:induction false} KnownAddresses(t: Tables, h: Hashing)
    requires Inv(t, h)
    ensures CAddrMan.AllKnown(t)
  {
    hide RandomOk, NewOk, TriedOk, FlagsOk, CountsOk;
  }

  lemma {:induction false} RunMore(ts: seq<Tables>, vs: seq<View>, ops: seq<Op>, i: nat, h: Hashing,
                                   routable: NetAddr -> bool, t: Tables, v: View)
    requires i < |ops| && Run(ts, vs, ops[..i], h, routable)
    requires Stands(t, v, h) && Step(ops[i], vs[i], v, h, routable)
    ensures Run(ts + [t], vs + [v], ops[..i + 1], h, routable)
  {
    hide Stands, Step;
  }
}
