/** All interleavings of one master and any number of workers on a CCheckQueue.
    Thread 0 is the master, the only caller of Add and Wait. */
module CheckQueueRuns {
  import opened CheckQueue
  import opened Words

  // --- Threads and the whole system ---------------------------------------------------------

  /** Outside: not in Loop. Notified: woken, and queueing for the mutex. Running: done
      checks of the batch have been passed, with result fOk so far. */
  datatype Thread<T> = Outside | Asleep | Notified | Running(batch: seq<T>, done: nat, fOk: bool)

  /** What one Wait returned, for the checks added since the previous one. */
  datatype Verdict<T> = None | Verdict(fRet: bool, added: multiset<T>, ran: multiset<T>)

  /** added, ran and finished are the checks added, evaluated, and in batches handed
      back, since the previous Wait. */
  datatype System<T> = System(
    sh: Shared<T>, threads: seq<Thread<T>>, added: multiset<T>, ran: multiset<T>, finished: multiset<T>,
    last: Verdict<T>)

  /** The code's parameters: whether a check passes, and the largest batch. */
  datatype Config<!T> = Config(holds: T -> bool, nBatchSize: nat)

  datatype Step<T> =
    | Add(vs: seq<T>, woken: nat)   // by the master; woken is the worker picked by notify_one
    | Enter(i: nat)                 // thread i calls Loop
    | Run(i: nat)                   // thread i passes one check of its batch
    | Finish(i: nat)                // thread i hands its batch back
    | Resume(i: nat)                // thread i returns from wait
    | Spurious(i: nat)              // thread i wakes without being notified

  ghost predicate Start<T(!new)>(s: System<T>) {
    && s.sh == Shared([], 0, 0, 0, true) && |s.threads| > 0
    && (forall i :: 0 <= i < |s.threads| ==> s.threads[i] == Outside)
    && s.added == multiset{} && s.ran == multiset{} && s.finished == multiset{} && s.last == None
  }

  // --- Steps ---------------------------------------------------------------------------------------

  function Woken<T>(t: Thread<T>): Thread<T> { if t == Asleep then Notified else t }

  function WakeAll<T>(ts: seq<Thread<T>>): (r: seq<Thread<T>>)
    ensures |r| == |ts|
  {
    seq(|ts|, i requires 0 <= i < |ts| => Woken(ts[i]))
  }

  function AfterSection<T>(o: Outcome<T>): Thread<T> {
    match o
    case Sleep => Asleep
    case Batch(b, fOk) => Running(b, 0, fOk)
    case Return(_) => Outside
  }

  /** Thread i leaves a critical section. */
  function Leave<T>(s: System<T>, i: nat, sec: Section<T>, notifyMaster: bool): System<T>
    requires i < |s.threads|
  {
    var ts := s.threads[i := AfterSection(sec.outcome)];
    var ts1 := if notifyMaster then ts[0 := Woken(ts[0])] else ts;
    if sec.outcome.Return? then
      System(sec.s, ts1, multiset{}, multiset{}, multiset{}, Verdict(sec.outcome.fRet, s.added, s.ran))
    else
      s.(sh := sec.s, threads := ts1)
  }

  /** notify_one or notify_all on the workers; waking the master as well would be a
      spurious wake of the master. */
  function Notify<T>(ts: seq<Thread<T>>, n: nat, woken: nat): (r: seq<Thread<T>>)
    requires |ts| > 0
    ensures |r| == |ts|
  {
    if n == 0 then ts
    else if n == 1 then (if 0 < woken < |ts| then ts[woken := Woken(ts[woken])] else ts)
    else [ts[0]] + WakeAll(ts[1..])
  }

  ghost predicate Enabled<T(!new)>(s: System<T>, step: Step<T>) {
    |s.threads| > 0 && s.sh.nTotal >= 0 && s.sh.nIdle >= 0 &&
    match step
    case Add(vs, woken) =>
      && s.threads[0] == Outside
      && (|vs| == 1 && (exists i :: 0 < i < |s.threads| && s.threads[i] == Asleep) ==>
            0 < woken < |s.threads| && s.threads[woken] == Asleep)
    case Enter(i) => i < |s.threads| && s.threads[i] == Outside
    case Run(i) => i < |s.threads| && s.threads[i].Running? && s.threads[i].done < |s.threads[i].batch|
    case Finish(i) => i < |s.threads| && s.threads[i].Running? && s.threads[i].done == |s.threads[i].batch|
    case Resume(i) => i < |s.threads| && s.threads[i] == Notified && s.sh.nIdle > 0
    case Spurious(i) => i < |s.threads| && s.threads[i] == Asleep
  }

  function RunOne<T>(s: System<T>, c: Config<T>, i: nat): System<T>
    requires i < |s.threads| && s.threads[i].Running? && s.threads[i].done < |s.threads[i].batch|
  {
    var t := s.threads[i];
    if t.fOk then
      var check := t.batch[t.done];
      s.(threads := s.threads[i := Running(t.batch, t.done + 1, c.holds(check))], ran := s.ran + multiset{check})
    else
      s.(threads := s.threads[i := t.(done := t.done + 1)])
  }

  function Finished<T>(s: System<T>, c: Config<T>, i: nat): System<T>
    requires i < |s.threads| && s.threads[i].Running? && s.sh.nTotal >= 0 && s.sh.nIdle >= 0
  {
    var t := s.threads[i];
    var sh := Entered(s.sh, |t.batch|, t.fOk);
    Leave(s.(finished := s.finished + multiset(t.batch)), i, Decided(sh, i == 0, c.nBatchSize),
          |t.batch| > 0 && i != 0 && sh.nTodo == 0)
  }

  ghost function Next<T(!new)>(s: System<T>, c: Config<T>, step: Step<T>): System<T>
    requires Enabled(s, step)
  {
    match step
    case Add(vs, woken) =>
      s.(sh := Added(s.sh, vs), threads := Notify(s.threads, |vs|, woken), added := s.added + multiset(vs))
    case Enter(i) => Leave(s, i, Decided(Entered(s.sh, 0, true), i == 0, c.nBatchSize), false)
    case Run(i) => RunOne(s, c, i)
    case Finish(i) => Finished(s, c, i)
    case Resume(i) => Leave(s, i, Decided(Resumed(s.sh), i == 0, c.nBatchSize), false)
    case Spurious(i) => s.(threads := s.threads[i := Notified])
  }

  /** The steps of a running thread are the passes of the loop of RunBatch. */
  lemma {:induction false} RunsAsBatch<T(!new)>(s: System<T>, c: Config<T>, i: nat, fOk0: bool)
    requires Enabled(s, Run(i))
    requires s.threads[i].fOk == Evaluated(s.threads[i].batch, c.holds, fOk0, s.threads[i].done).0
    ensures var t, s' := s.threads[i], Next(s, c, Run(i));
      var before, after := Evaluated(t.batch, c.holds, fOk0, t.done), Evaluated(t.batch, c.holds, fOk0, t.done + 1);
      && s'.threads == s.threads[i := Running(t.batch, t.done + 1, after.0)] && s'.sh == s.sh
      && before.1 <= after.1 && s'.ran == s.ran + multiset(after.1[|before.1|..])
  {
    var t := s.threads[i];
    var before, after := Evaluated(t.batch, c.holds, fOk0, t.done), Evaluated(t.batch, c.holds, fOk0, t.done + 1);
    if before.0 {
      assert after.1[|before.1|..] == [t.batch[t.done]];
    } else {
      assert after.1[|before.1|..] == [];
    }
  }

  /** After Add no worker sleeps if several checks came; after one check one sleeping worker
      fewer does, if there was any. The master, the caller, is left as it is. */
  lemma {:induction false} AddNotifies<T(!new)>(s: System<T>, c: Config<T>, vs: seq<T>, woken: nat)
    requires Enabled(s, Add(vs, woken)) && vs != []
    ensures var ts := Next(s, c, Add(vs, woken)).threads;
      && |ts| == |s.threads| && ts[0] == s.threads[0]
      && (forall i :: 0 < i < |ts| ==>
            ts[i] == if s.threads[i] == Asleep && (|vs| > 1 || i == woken) then Notified else s.threads[i])
      && (|vs| == 1 && (exists i :: 0 < i < |ts| && s.threads[i] == Asleep) ==>
            0 < woken < |ts| && s.threads[woken] == Asleep)
  {}

  // --- Sums over threads ------------------------------------------------------------------------------

  /** What the threads hold together. */
  datatype Tally<T> = Tally(
    flight: nat, idle: nat, running: nat, failed: nat, batches: multiset<T>, passed: multiset<T>, weight: nat)

  function One<T>(t: Thread<T>): Tally<T> {
    match t
    case Outside => Tally(0, 0, 0, 0, multiset{}, multiset{}, 1)
    case Asleep => Tally(0, 1, 0, 0, multiset{}, multiset{}, 0)
    case Notified => Tally(0, 1, 0, 0, multiset{}, multiset{}, 2)
    case Running(b, n, fOk) =>
      var k := Min(n, |b|);
      Tally(|b|, 0, 1, if fOk then 0 else 1, multiset(b), multiset(b[..k]), 4 * |b| - k)
  }

  function Plus<T>(a: Tally<T>, b: Tally<T>): Tally<T> {
    Tally(a.flight + b.flight, a.idle + b.idle, a.running + b.running, a.failed + b.failed, a.batches + b.batches,
          a.passed + b.passed, a.weight + b.weight)
  }

  function Sum<T>(ts: seq<Thread<T>>): Tally<T> {
    if ts == [] then Tally(0, 0, 0, 0, multiset{}, multiset{}, 0) else Plus(Sum(ts[..|ts| - 1]), One(ts[|ts| - 1]))
  }

  lemma {:induction false} SumUpdate<T>(ts: seq<Thread<T>>, i: nat, t: Thread<T>)
    requires i < |ts|
    ensures Plus(Sum(ts[i := t]), One(ts[i])) == Plus(Sum(ts), One(t))
  {
    hide One;
    var n := |ts| - 1;
    if i == n {
      assert ts[i := t][..n] == ts[..n];
    } else {
      SumUpdate(ts[..n], i, t);
      assert ts[i := t][..n] == ts[..n][i := t];
      PlusMoves(Sum(ts[..n][i := t]), One(ts[i]), Sum(ts[..n]), One(t), One(ts[n]));
    }
  }

  lemma {:induction false} PlusMoves<T>(a: Tally<T>, b: Tally<T>, c: Tally<T>, d: Tally<T>, e: Tally<T>)
    requires Plus(a, b) == Plus(c, d)
    ensures Plus(Plus(a, e), b) == Plus(Plus(c, e), d)
  {
    BagMoves(a.batches, b.batches, c.batches, d.batches, e.batches);
    BagMoves(a.passed, b.passed, c.passed, d.passed, e.passed);
  }

  lemma {:induction false} BagMoves<T>(a: multiset<T>, b: multiset<T>, c: multiset<T>, d: multiset<T>, e: multiset<T>)
    requires a + b == c + d
    ensures a + e + b == c + e + d
  {
    forall x ensures (a + e + b)[x] == (c + e + d)[x] {
      assert (a + b)[x] == (c + d)[x];
    }
  }

  // --- The invariant ------------------------------------------------------------------------------------

  /** No failed check has been recorded. */
  ghost predicate Clean<T(!new)>(s: System<T>) {
    s.sh.fAllOk && Sum(s.threads).failed == 0
  }

  ghost predicate AllHold<T(!new)>(m: multiset<T>, c: Config<T>) { forall x :: x in m ==> c.holds(x) }

  /** nTodo and nTotal are exact. */
  ghost predicate CountsOk<T(!new)>(s: System<T>) {
    var t := Sum(s.threads);
    s.sh.nTodo == |s.sh.queue| + t.flight && s.sh.nIdle == t.idle && s.sh.nTotal == t.idle + t.running
  }

  /** Every check added is in the queue, in one batch, or finished, and none is evaluated
      twice or before it was added. */
  ghost predicate ChecksOk<T(!new)>(s: System<T>) {
    var t := Sum(s.threads);
    && s.added == multiset(s.sh.queue) + t.batches + s.finished
    && s.ran <= t.passed + s.finished
  }

  /** Failures are recorded exactly when a check has failed; until then nothing is
      skipped. */
  ghost predicate FailuresOk<T(!new)>(s: System<T>, c: Config<T>) {
    && (Clean(s) <==> AllHold(s.ran, c))
    && (Clean(s) ==> s.ran == Sum(s.threads).passed + s.finished)
  }

  ghost predicate ThreadsOk<T(!new)>(s: System<T>) {
    && |s.threads| > 0
    && (forall i :: 0 <= i < |s.threads| && s.threads[i].Running? ==>
          s.threads[i].done <= |s.threads[i].batch| && s.threads[i].batch != [])
  }

  /** The master sleeps unnotified only while there is unfinished work in other hands. */
  ghost predicate MasterOk<T(!new)>(s: System<T>) {
    |s.threads| > 0 && s.threads[0] == Asleep ==> s.sh.queue == [] && s.sh.nTodo > 0
  }

  /** The last answer was right: true exactly when all checks of its round pass, after
      evaluating each once; false only after one that fails was evaluated. */
  ghost predicate Exact<T(!new)>(v: Verdict<T>, c: Config<T>) {
    match v
    case None => true
    case Verdict(fRet, added, ran) =>
      && (fRet <==> AllHold(added, c)) && ran <= added
      && (fRet ==> ran == added) && (!fRet ==> exists x :: x in ran && !c.holds(x))
  }

  ghost predicate Inv<T(!new)>(s: System<T>, c: Config<T>) {
    CountsOk(s) && ChecksOk(s) && FailuresOk(s, c) && ThreadsOk(s) && MasterOk(s) && Exact(s.last, c)
  }

  // --- Facts about sums --------------------------------------------------------------------------------

  /** Equal but for the weight. */
  ghost predicate Same<T>(a: Tally<T>, b: Tally<T>) { a == b.(weight := a.weight) }

  ghost predicate Roused<T>(ts: seq<Thread<T>>, us: seq<Thread<T>>) {
    |ts| == |us| && forall i :: 0 <= i < |ts| ==> us[i] == ts[i] || (ts[i] == Asleep && us[i] == Notified)
  }

  lemma {:induction false} RousedOne<T>(t: Thread<T>, u: Thread<T>)
    requires u == t || (t == Asleep && u == Notified)
    ensures Same(One(t), One(u)) && One(u).weight <= One(t).weight + 2
  {}

  lemma {:induction false} RousedSum<T>(ts: seq<Thread<T>>, us: seq<Thread<T>>)
    requires Roused(ts, us)
    ensures Same(Sum(ts), Sum(us)) && Sum(us).weight <= Sum(ts).weight + 2 * |ts|
  {
    hide One;
    if ts != [] {
      var n := |ts| - 1;
      RousedOne(ts[n], us[n]);
      RousedSum(ts[..n], us[..n]);
    }
  }

  lemma {:induction false} NotifyRouses<T>(ts: seq<Thread<T>>, n: nat, woken: nat)
    requires |ts| > 0
    ensures Roused(ts, Notify(ts, n, woken)) && Notify(ts, n, woken)[0] == ts[0]
  {}

  lemma {:induction false} NoFlightOne<T>(t: Thread<T>)
    requires t.Running? ==> t.batch != []
    ensures One(t).flight == 0 ==>
      !t.Running? && One(t).failed == 0 && One(t).batches == multiset{} && One(t).passed == multiset{}
  {}

  /** No work in flight, no running thread. */
  lemma {:induction false} NoFlight<T>(ts: seq<Thread<T>>)
    requires forall i :: 0 <= i < |ts| && ts[i].Running? ==> ts[i].batch != []
    ensures Sum(ts).flight == 0 ==>
      && Sum(ts).batches == multiset{} && Sum(ts).passed == multiset{} && Sum(ts).running == 0 && Sum(ts).failed == 0
      && forall i :: 0 <= i < |ts| ==> !ts[i].Running?
  {
    hide One;
    if ts != [] {
      NoFlight(ts[..|ts| - 1]);
      NoFlightOne(ts[|ts| - 1]);
      RunningOne(ts[|ts| - 1]);
    }
  }

  lemma {:induction false} RunningOne<T>(t: Thread<T>)
    ensures One(t).running == (if t.Running? then 1 else 0) && (One(t).flight > 0 ==> t.Running?)
  {}

  lemma {:induction false} SomeRunning<T>(ts: seq<Thread<T>>) returns (i: nat)
    requires Sum(ts).flight > 0
    ensures i < |ts| && ts[i].Running?
  {
    hide One;
    var n := |ts| - 1;
    RunningOne(ts[n]);
    if ts[n].Running? {
      i := n;
    } else {
      i := SomeRunning(ts[..n]);
    }
  }

  lemma {:induction false} Cancel<T>(a: multiset<T>, b: multiset<T>, z: multiset<T>)
    requires a + z == b + z
    ensures a == b
  {
    forall x ensures a[x] == b[x] {
      assert (a + z)[x] == (b + z)[x];
    }
  }

  // One thread changes.

  lemma {:induction false} MoveIdle<T>(ts: seq<Thread<T>>, i: nat, t: Thread<T>)
    requires i < |ts| && !ts[i].Running? && !t.Running?
    ensures var a, b := Sum(ts), Sum(ts[i := t]);
      && b.flight == a.flight && b.running == a.running && b.failed == a.failed && b.batches == a.batches
        && b.passed == a.passed
      && b.idle + One(ts[i]).idle == a.idle + One(t).idle && b.weight + One(ts[i]).weight == a.weight + One(t).weight
  {
    hide Sum;
    SumUpdate(ts, i, t);
    Cancel(Sum(ts[i := t]).batches, Sum(ts).batches, multiset{});
    Cancel(Sum(ts[i := t]).passed, Sum(ts).passed, multiset{});
  }

  lemma {:induction false} MoveTake<T>(ts: seq<Thread<T>>, i: nat, t: Thread<T>)
    requires i < |ts| && ts[i] == Outside && t.Running? && t.done == 0
    ensures var a, b := Sum(ts), Sum(ts[i := t]);
      && b.flight == a.flight + |t.batch| && b.failed == a.failed + (if t.fOk then 0 else 1)
        && b.running == a.running + 1 && b.idle == a.idle
      && b.batches == a.batches + multiset(t.batch) && b.passed == a.passed && b.weight + 1 == a.weight + 4 * |t.batch|
  {
    hide Sum;
    SumUpdate(ts, i, t);
    assert t.batch[..0] == [];
    Cancel(Sum(ts[i := t]).batches, Sum(ts).batches + multiset(t.batch), multiset{});
    Cancel(Sum(ts[i := t]).passed, Sum(ts).passed, multiset{});
  }

  lemma {:induction false} MoveGive<T>(ts: seq<Thread<T>>, i: nat)
    requires i < |ts| && ts[i].Running? && ts[i].done == |ts[i].batch|
    ensures var a, b, m := Sum(ts), Sum(ts[i := Outside]), multiset(ts[i].batch);
      && a.flight == b.flight + |ts[i].batch| && a.failed == b.failed + (if ts[i].fOk then 0 else 1)
        && a.running == b.running + 1 && b.idle == a.idle
      && a.batches == b.batches + m && a.passed == b.passed + m && b.weight + 3 * |ts[i].batch| == a.weight + 1
  {
    hide Sum;
    assert ts[i].batch[..|ts[i].batch|] == ts[i].batch;
    SumUpdate(ts, i, Outside);
  }

  lemma {:induction false} MovePass<T>(ts: seq<Thread<T>>, i: nat, fOk: bool)
    requires i < |ts| && ts[i].Running? && ts[i].done < |ts[i].batch|
    ensures var a, b := Sum(ts), Sum(ts[i := Running(ts[i].batch, ts[i].done + 1, fOk)]);
      && b.flight == a.flight && b.failed + (if ts[i].fOk then 0 else 1) == a.failed + (if fOk then 0 else 1)
      && b.running == a.running && b.idle == a.idle && b.batches == a.batches
      && b.passed == a.passed + multiset{ts[i].batch[ts[i].done]} && b.weight + 1 == a.weight
  {
    hide Sum;
    var k := ts[i].done;
    var t := Running(ts[i].batch, k + 1, fOk);
    assert t.batch[..k + 1] == t.batch[..k] + [t.batch[k]];
    SumUpdate(ts, i, t);
    Cancel(Sum(ts[i := t]).batches, Sum(ts).batches, multiset(t.batch));
    Cancel(Sum(ts[i := t]).passed, Sum(ts).passed + multiset{t.batch[k]}, multiset(t.batch[..k]));
  }

  lemma {:induction false} ReversedBag<T>(s: seq<T>)
    ensures multiset(Reversed(s)) == multiset(s)
  {
    if s != [] {
      ReversedBag(s[..|s| - 1]);
      assert s == s[..|s| - 1] + [s[|s| - 1]];
    }
  }

  // --- Critical sections keep the invariant --------------------------------------------------------------

  /** Thread i holds the mutex, between the clean-up and the decision; it is counted
      in nTotal but holds nothing. */
  ghost predicate Mid<T(!new)>(s: System<T>, c: Config<T>, i: nat, notify: bool) {
    && i < |s.threads| && s.threads[i] == Outside
    && (var t := Sum(s.threads);
        s.sh.nTodo == |s.sh.queue| + t.flight && s.sh.nIdle == t.idle && s.sh.nTotal == t.idle + t.running + 1)
    && ChecksOk(s) && FailuresOk(s, c) && ThreadsOk(s) && Exact(s.last, c)
    && (s.threads[0] == Asleep ==> s.sh.queue == [] && (s.sh.nTodo > 0 || notify))
  }

  lemma {:induction false} MidEnter<T(!new)>(s: System<T>, c: Config<T>, i: nat)
    requires Inv(s, c) && i < |s.threads| && s.threads[i] == Outside
    ensures Mid(s.(sh := Entered(s.sh, 0, true)), c, i, false)
  {
    hide Sum;
  }

  lemma {:induction false} MidResume<T(!new)>(s: System<T>, c: Config<T>, i: nat)
    requires Inv(s, c) && i < |s.threads| && s.threads[i] == Notified
    ensures Mid(s.(sh := Resumed(s.sh), threads := s.threads[i := Outside]), c, i, false)
  {
    hide Sum, AllHold, Exact;
    MoveIdle(s.threads, i, Outside);
  }

  lemma {:induction false} MidFinish<T(!new)>(s: System<T>, c: Config<T>, i: nat)
    requires Inv(s, c) && i < |s.threads| && s.threads[i].Running? && s.threads[i].done == |s.threads[i].batch|
    ensures var t := s.threads[i];
      var sh := Entered(s.sh, |t.batch|, t.fOk);
      Mid(s.(sh := sh, threads := s.threads[i := Outside], finished := s.finished + multiset(t.batch)), c, i,
          i != 0 && sh.nTodo == 0)
  {
    hide Sum, AllHold, Exact;
    MoveGive(s.threads, i);
  }

  lemma {:induction false} DecideKeeps<T(!new)>(s: System<T>, c: Config<T>, i: nat, notify: bool)
    requires Mid(s, c, i, notify)
    ensures s.sh.nTotal >= 0 && s.sh.nIdle >= 0
    ensures Inv(Leave(s, i, Decided(s.sh, i == 0, c.nBatchSize), notify), c)
  {
    if s.sh.queue != [] {
      TakeKeeps(s, c, i, notify);
    } else if i == 0 && s.sh.nTodo == 0 {
      ReturnKeeps(s, c, notify);
    } else {
      SleepKeeps(s, c, i, notify);
    }
  }

  lemma {:induction false} WokenMaster<T>(ts: seq<Thread<T>>)
    requires |ts| > 0
    ensures Same(Sum(ts), Sum(ts[0 := Woken(ts[0])]))
  {
    RousedSum(ts, ts[0 := Woken(ts[0])]);
  }

  lemma {:induction false} SleepKeeps<T(!new)>(s: System<T>, c: Config<T>, i: nat, notify: bool)
    requires Mid(s, c, i, notify) && s.sh.queue == [] && !(i == 0 && s.sh.nTodo == 0)
    ensures Inv(Leave(s, i, Decided(s.sh, i == 0, c.nBatchSize), notify), c)
  {
    hide Sum, AllHold, Exact;
    MoveIdle(s.threads, i, Asleep);
    WokenMaster(s.threads[i := Asleep]);
  }

  lemma {:induction false} TakeKeeps<T(!new)>(s: System<T>, c: Config<T>, i: nat, notify: bool)
    requires Mid(s, c, i, notify) && s.sh.queue != []
    ensures Inv(Leave(s, i, Decided(s.sh, i == 0, c.nBatchSize), notify), c)
  {
    hide Inv, Mid, Leave, Sum, BatchSize;
    var q := s.sh.queue;
    MidCounts(s, c, i, notify);
    var n := |q| - BatchSize(c.nBatchSize, |q|, s.sh.nTotal + s.sh.nIdle);
    ReversedBag(q[n..]);
    assert q == q[..n] + q[n..];
    TakenKeeps(s, c, i, notify, n, Reversed(q[n..]));
  }

  lemma {:induction false} MidCounts<T(!new)>(s: System<T>, c: Config<T>, i: nat, notify: bool)
    requires Mid(s, c, i, notify)
    ensures s.sh.nTotal >= 1 && s.sh.nIdle >= 0 && i < |s.threads|
  {}

  lemma {:induction false} TakenKeeps<T(!new)>(s: System<T>, c: Config<T>, i: nat, notify: bool, n: nat, b: seq<T>)
    requires Mid(s, c, i, notify) && n + |b| == |s.sh.queue| && b != []
    requires multiset(s.sh.queue) == multiset(s.sh.queue[..n]) + multiset(b)
    ensures Inv(Leave(s, i, Section(s.sh.(queue := s.sh.queue[..n]), Batch(b, s.sh.fAllOk)), notify), c)
  {
    hide Sum, AllHold, Exact;
    var t := Running(b, 0, s.sh.fAllOk);
    MoveTake(s.threads, i, t);
    WokenMaster(s.threads[i := t]);
    Regroup(multiset(s.sh.queue), multiset(s.sh.queue[..n]), multiset(b), Sum(s.threads).batches, s.finished);
  }

  lemma {:induction false} Regroup<T>(q: multiset<T>, q1: multiset<T>, b: multiset<T>, x: multiset<T>, y: multiset<T>)
    requires q == q1 + b
    ensures q + x + y == q1 + (x + b) + y
  {}

  lemma {:induction false} ReturnKeeps<T(!new)>(s: System<T>, c: Config<T>, notify: bool)
    requires Mid(s, c, 0, notify) && s.sh.queue == [] && s.sh.nTodo == 0
    ensures Inv(Leave(s, 0, Decided(s.sh, true, c.nBatchSize), notify), c)
  {
    hide Sum;
    NoFlight(s.threads);
    assert s.threads[0 := Outside] == s.threads;
    assert s.added == s.finished;
  }

  // --- Every step keeps the invariant ------------------------------------------------------------------

  lemma {:induction false} StartInv<T(!new)>(s: System<T>, c: Config<T>)
    requires Start(s)
    ensures Inv(s, c)
  {
    IdleStart(s.threads);
  }

  lemma {:induction false} IdleStart<T>(ts: seq<Thread<T>>)
    requires forall i :: 0 <= i < |ts| ==> ts[i] == Outside
    ensures Same(Sum(ts), Tally(0, 0, 0, 0, multiset{}, multiset{}, 0))
  {
    if ts != [] {
      IdleStart(ts[..|ts| - 1]);
    }
  }

  lemma {:induction false} AddKeeps<T(!new)>(s: System<T>, c: Config<T>, vs: seq<T>, woken: nat)
    requires Inv(s, c) && Enabled(s, Add(vs, woken))
    ensures Inv(Next(s, c, Add(vs, woken)), c)
  {
    hide Sum, AllHold, Exact, Notify;
    var ts := Notify(s.threads, |vs|, woken);
    NotifyRouses(s.threads, |vs|, woken);
    RousedSum(s.threads, ts);
    Regroup(multiset(s.sh.queue + vs), multiset(s.sh.queue), multiset(vs), Sum(s.threads).batches, s.finished);
  }

  lemma {:induction false} SpuriousKeeps<T(!new)>(s: System<T>, c: Config<T>, i: nat)
    requires Inv(s, c) && Enabled(s, Spurious(i))
    ensures Inv(Next(s, c, Spurious(i)), c)
  {
    hide Sum, AllHold, Exact;
    MoveIdle(s.threads, i, Notified);
  }

  lemma {:induction false} RunKeeps<T(!new)>(s: System<T>, c: Config<T>, i: nat)
    requires Inv(s, c) && Enabled(s, Run(i))
    ensures Inv(Next(s, c, Run(i)), c)
  {
    hide Sum, Exact;
    var t := s.threads[i];
    MovePass(s.threads, i, t.fOk && c.holds(t.batch[t.done]));
    if !t.fOk {
      FailedCounted(s.threads, i);
    }
  }

  lemma {:induction false} FailedCounted<T>(ts: seq<Thread<T>>, i: nat)
    requires i < |ts| && ts[i].Running? && !ts[i].fOk
    ensures Sum(ts).failed > 0
  {
    hide Sum;
    SumUpdate(ts, i, Outside);
  }

  lemma {:induction false} FinishKeeps<T(!new)>(s: System<T>, c: Config<T>, i: nat)
    requires Inv(s, c) && Enabled(s, Finish(i))
    ensures Inv(Next(s, c, Finish(i)), c)
  {
    hide Inv, Mid, Sum, Decided;
    Batches(s, c, i);
    MidFinish(s, c, i);
    var t := s.threads[i];
    var sh := Entered(s.sh, |t.batch|, t.fOk);
    var m := s.(sh := sh, threads := s.threads[i := Outside], finished := s.finished + multiset(t.batch));
    DecideKeeps(m, c, i, i != 0 && sh.nTodo == 0);
    LeaveFrame(s.(finished := m.finished), m, i, Decided(sh, i == 0, c.nBatchSize), i != 0 && sh.nTodo == 0);
  }

  lemma {:induction false} Batches<T(!new)>(s: System<T>, c: Config<T>, i: nat)
    requires Inv(s, c) && i < |s.threads| && s.threads[i].Running?
    ensures |s.threads[i].batch| > 0
  {}

  lemma {:induction false} LeaveFrame<T>(s: System<T>, m: System<T>, i: nat, sec: Section<T>, notify: bool)
    requires i < |s.threads| && m == s.(sh := m.sh, threads := s.threads[i := Outside])
    ensures Leave(s, i, sec, notify) == Leave(m, i, sec, notify)
  {
    assert s.threads[i := Outside][i := AfterSection(sec.outcome)] == s.threads[i := AfterSection(sec.outcome)];
  }

  lemma {:induction false} EnterKeeps<T(!new)>(s: System<T>, c: Config<T>, i: nat)
    requires Inv(s, c) && Enabled(s, Enter(i))
    ensures Inv(Next(s, c, Enter(i)), c)
  {
    hide Inv, Mid, Sum, Decided;
    MidEnter(s, c, i);
    var m := s.(sh := Entered(s.sh, 0, true));
    assert m.threads == s.threads[i := Outside];
    DecideKeeps(m, c, i, false);
    LeaveFrame(s, m, i, Decided(m.sh, i == 0, c.nBatchSize), false);
  }

  lemma {:induction false} ResumeKeeps<T(!new)>(s: System<T>, c: Config<T>, i: nat)
    requires Inv(s, c) && Enabled(s, Resume(i))
    ensures Inv(Next(s, c, Resume(i)), c)
  {
    hide Inv, Mid, Sum, Decided;
    MidResume(s, c, i);
    var m := s.(sh := Resumed(s.sh), threads := s.threads[i := Outside]);
    DecideKeeps(m, c, i, false);
    LeaveFrame(s, m, i, Decided(m.sh, i == 0, c.nBatchSize), false);
  }

  lemma {:induction false} StepKeeps<T(!new)>(s: System<T>, c: Config<T>, step: Step<T>)
    requires Inv(s, c) && Enabled(s, step)
    ensures Inv(Next(s, c, step), c)
  {
    hide Inv, Next, Enabled;
    match step
    case Add(vs, woken) => AddKeeps(s, c, vs, woken);
    case Enter(i) => EnterKeeps(s, c, i);
    case Run(i) => RunKeeps(s, c, i);
    case Finish(i) => FinishKeeps(s, c, i);
    case Resume(i) => ResumeKeeps(s, c, i);
    case Spurious(i) => SpuriousKeeps(s, c, i);
  }

  // --- Whole runs -------------------------------------------------------------------------------------------

  ghost predicate IsRun<T(!new)>(states: seq<System<T>>, steps: seq<Step<T>>, c: Config<T>) {
    && |states| == |steps| + 1
    && forall k :: 0 <= k < |steps| ==> Follows(states[k], steps[k], states[k + 1], c)
  }

  ghost predicate Follows<T(!new)>(s: System<T>, step: Step<T>, s': System<T>, c: Config<T>) {
    Enabled(s, step) && s' == Next(s, c, step)
  }

  /** Safety of every interleaving: the counters stay exact, no wake-up of the master is
      lost, and every answer of Wait is exact for its own round. */
  lemma {:induction false} AllRuns<T(!new)>(states: seq<System<T>>, steps: seq<Step<T>>, c: Config<T>, k: nat)
    requires IsRun(states, steps, c) && Start(states[0]) && k < |states|
    ensures Inv(states[k], c)
  {
    hide Inv, Next, Enabled, Start;
    if k == 0 {
      StartInv(states[0], c);
    } else {
      AllRuns(states, steps, c, k - 1);
      assert Follows(states[k - 1], steps[k - 1], states[k - 1 + 1], c);
      StepKeeps(states[k - 1], c, steps[k - 1]);
    }
  }

  lemma {:induction false} FlightSize<T>(ts: seq<Thread<T>>)
    ensures |Sum(ts).batches| == Sum(ts).flight
  {
    if ts != [] {
      FlightSize(ts[..|ts| - 1]);
    }
  }

  /** With nothing added since the last Wait, the assertions of the CCheckQueueControl
      constructor hold at every moment when the mutex is free. */
  lemma {:induction false} ControlAsserts<T(!new)>(s: System<T>, c: Config<T>)
    requires Inv(s, c) && s.added == multiset{}
    ensures s.sh.nTotal == s.sh.nIdle && s.sh.nTodo == 0 && s.sh.fAllOk
  {
    hide Sum, Exact;
    FlightSize(s.threads);
    assert |s.added| == |s.sh.queue| + |Sum(s.threads).batches| + |s.finished|;
    NoFlight(s.threads);
    assert s.ran == multiset{};
  }

  /** The constructor does not take the mutex. While a thread is inside its critical
      section, between the clean-up and the decision, the first assertion fails by one;
      the other two hold. */
  lemma {:induction false} ControlInSection<T(!new)>(s: System<T>, c: Config<T>, i: nat, notify: bool)
    requires Mid(s, c, i, notify) && s.added == multiset{}
    ensures s.sh.nTotal == s.sh.nIdle + 1 && s.sh.nTodo == 0 && s.sh.fAllOk
  {
    hide Sum, Exact;
    FlightSize(s.threads);
    assert |s.added| == |s.sh.queue| + |Sum(s.threads).batches| + |s.finished|;
    NoFlight(s.threads);
    assert s.ran == multiset{};
  }

  /** Between rounds any thread that joins or wakes passes through such a moment. */
  lemma {:induction false} ControlRaces<T(!new)>(s: System<T>, c: Config<T>, i: nat) returns (mid: System<T>)
    requires Inv(s, c) && s.added == multiset{} && i < |s.threads|
    requires s.threads[i] == Outside || s.threads[i] == Notified
    ensures Mid(mid, c, i, false) && mid.added == multiset{} && mid.sh.nTotal != mid.sh.nIdle
    ensures mid.sh == if s.threads[i] == Outside then Entered(s.sh, 0, true) else Resumed(s.sh)
  {
    hide Inv, Mid;
    if s.threads[i] == Outside {
      MidEnter(s, c, i);
      mid := s.(sh := Entered(s.sh, 0, true));
    } else {
      MidResume(s, c, i);
      mid := s.(sh := Resumed(s.sh), threads := s.threads[i := Outside]);
    }
    ControlInSection(mid, c, i, false);
  }

  /** Wait returns in this step. */
  ghost predicate Answers<T(!new)>(s: System<T>, step: Step<T>, s': System<T>) {
    && (step == Enter(0) || step == Finish(0) || step == Resume(0))
    && |s'.threads| > 0 && s'.threads[0] == Outside
  }

  /** The answer recorded is about all checks added since the previous one, and the next
      round starts empty; no other step touches it. */
  lemma {:induction false} AnswerEndsRound<T(!new)>(s: System<T>, c: Config<T>, step: Step<T>)
    requires Enabled(s, step)
    ensures var s' := Next(s, c, step);
      if Answers(s, step, s') then s'.added == multiset{} && s'.last.Verdict? && s'.last.added == s.added
      else s'.last == s.last && s.added <= s'.added
  {
    hide Enabled, Leave, Decided, Entered, Notify;
    TotalsOk(s, step);
    match step
    case Enter(i) => LeaveAnswers(s, i, Entered(s.sh, 0, true), c.nBatchSize, false);
    case Finish(i) =>
      var t := s.threads[i];
      var sh := Entered(s.sh, |t.batch|, t.fOk);
      LeaveAnswers(s.(finished := s.finished + multiset(t.batch)), i, sh, c.nBatchSize, |t.batch| > 0 && i != 0
        && sh.nTodo == 0);
    case Resume(i) => LeaveAnswers(s, i, Resumed(s.sh), c.nBatchSize, false);
    case Add(vs, woken) =>
    case Run(i) =>
    case Spurious(i) =>
  }

  lemma {:induction false} TotalsOk<T(!new)>(s: System<T>, step: Step<T>)
    requires Enabled(s, step)
    ensures s.sh.nTotal >= 0 && s.sh.nIdle >= 0
    ensures step.Enter? ==>
      step.i < |s.threads| && Entered(s.sh, 0, true).nTotal >= 0 && Entered(s.sh, 0, true).nIdle >= 0
    ensures step.Resume? ==> step.i < |s.threads| && Resumed(s.sh).nTotal >= 0 && Resumed(s.sh).nIdle >= 0
    ensures step.Finish? ==> step.i < |s.threads| && s.threads[step.i].Running?
    ensures step.Finish? ==>
      var sh := Entered(s.sh, |s.threads[step.i].batch|, s.threads[step.i].fOk);
      sh.nTotal >= 0 && sh.nIdle >= 0
  {}

  lemma {:induction false} LeaveAnswers<T>(s: System<T>, i: nat, sh: Shared<T>, nBatchSize: nat, notify: bool)
    requires i < |s.threads| && sh.nTotal >= 0 && sh.nIdle >= 0 && (i == 0 ==> !notify)
    ensures |Leave(s, i, Decided(sh, i == 0, nBatchSize), notify).threads| == |s.threads|
    ensures var s' := Leave(s, i, Decided(sh, i == 0, nBatchSize), notify);
      if i == 0 && s'.threads[0] == Outside then s'.added == multiset{}
        && s'.last == Verdict(s'.last.fRet, s.added, s.ran)
      else s'.last == s.last && s'.added == s.added
  {}

  // --- Progress -----------------------------------------------------------------------------------------------

  predicate InWait<T>(s: System<T>) { |s.threads| > 0 && !s.threads[0].Outside? }

  /** While the master waits, some thread can go on without a spurious wake-up. */
  lemma {:induction false} NoDeadlock<T(!new)>(s: System<T>, c: Config<T>) returns (step: Step<T>)
    requires Inv(s, c) && InWait(s)
    ensures !step.Spurious? && Enabled(s, step)
  {
    hide Sum, Exact, ChecksOk, FailuresOk;
    var i: nat := 0;
    if s.threads[0] == Notified {
      IdleCounted(s.threads, 0);
      return Resume(0);
    }
    if s.threads[0] == Asleep {
      i := SomeRunning(s.threads);
    }
    step := if s.threads[i].done < |s.threads[i].batch| then Run(i) else Finish(i);
  }

  lemma {:induction false} IdleCounted<T>(ts: seq<Thread<T>>, i: nat)
    requires i < |ts| && ts[i] == Notified
    ensures Sum(ts).idle > 0
  {
    hide Sum;
    SumUpdate(ts, i, Outside);
  }

  /** Work left: checks not yet handed back, and wake-ups under way. */
  function Weight<T>(s: System<T>): nat { 5 * |s.sh.queue| + Sum(s.threads).weight }

  lemma {:induction false} WokenWeight<T>(ts: seq<Thread<T>>)
    requires |ts| > 0
    ensures Sum(ts[0 := Woken(ts[0])]).weight <= Sum(ts).weight + 2
  {
    hide Sum;
    if ts[0] == Asleep {
      MoveIdle(ts, 0, Notified);
    } else {
      assert ts[0 := Woken(ts[0])] == ts;
    }
  }

  /** Leaving a critical section adds no work but the wake-up of the master. */
  lemma {:induction false} LeaveWeight<T(!new)>(s: System<T>, i: nat, nBatchSize: nat, notify: bool)
    requires i < |s.threads| && s.threads[i] == Outside && s.sh.nTotal >= 0 && s.sh.nIdle >= 0 && (i == 0 ==> !notify)
    ensures var s' := Leave(s, i, Decided(s.sh, i == 0, nBatchSize), notify);
      Weight(s') <= Weight(s) + (if notify then 2 else 0) - (if i == 0 then 0 else 1)
  {
    hide Sum, BatchSize, Reversed;
    var o := Decided(s.sh, i == 0, nBatchSize).outcome;
    var ts := s.threads[i := AfterSection(o)];
    match o {
      case Sleep => MoveIdle(s.threads, i, Asleep);
      case Batch(b, fOk) => MoveTake(s.threads, i, Running(b, 0, fOk));
      case Return(f) => MoveIdle(s.threads, i, Outside);
    }
    if notify {
      WokenWeight(ts);
    }
  }

  /** While the master waits, every step but a spurious wake-up leaves less work. */
  lemma {:induction false} StepsDecrease<T(!new)>(s: System<T>, c: Config<T>, step: Step<T>)
    requires Inv(s, c) && InWait(s) && Enabled(s, step)
    ensures !step.Spurious? ==> Weight(Next(s, c, step)) < Weight(s)
    ensures step.Spurious? ==> Weight(Next(s, c, step)) == Weight(s) + 2
  {
    hide Inv, Sum, Leave, Decided;
    match step
    case Add(vs, woken) => assert false;
    case Enter(i) => LeaveWeight(s.(sh := Entered(s.sh, 0, true)), i, c.nBatchSize, false);
      EnterIs(s, c, i);
    case Run(i) => MovePass(s.threads, i, s.threads[i].fOk && c.holds(s.threads[i].batch[s.threads[i].done]));
    case Finish(i) => FinishDecreases(s, c, i);
    case Resume(i) => ResumeDecreases(s, c, i);
    case Spurious(i) => MoveIdle(s.threads, i, Notified);
  }

  lemma {:induction false} EnterIs<T(!new)>(s: System<T>, c: Config<T>, i: nat)
    requires i < |s.threads| && s.threads[i] == Outside && s.sh.nTotal >= 0 && s.sh.nIdle >= 0
    ensures var sh := Entered(s.sh, 0, true);
      var sec := Decided(sh, i == 0, c.nBatchSize);
      Leave(s.(sh := sh), i, sec, false) == Leave(s, i, sec, false)
  {
    hide Decided;
  }

  lemma {:induction false} FinishDecreases<T(!new)>(s: System<T>, c: Config<T>, i: nat)
    requires Inv(s, c) && Enabled(s, Finish(i))
    ensures Weight(Next(s, c, Finish(i))) < Weight(s)
  {
    hide Inv, Sum, Leave, Decided;
    var t := s.threads[i];
    Batches(s, c, i);
    MoveGive(s.threads, i);
    var sh := Entered(s.sh, |t.batch|, t.fOk);
    var m := s.(sh := sh, threads := s.threads[i := Outside], finished := s.finished + multiset(t.batch));
    LeaveWeight(m, i, c.nBatchSize, i != 0 && sh.nTodo == 0);
    LeaveFrame(s.(finished := m.finished), m, i, Decided(sh, i == 0, c.nBatchSize), i != 0 && sh.nTodo == 0);
  }

  lemma {:induction false} ResumeDecreases<T(!new)>(s: System<T>, c: Config<T>, i: nat)
    requires Inv(s, c) && Enabled(s, Resume(i))
    ensures Weight(Next(s, c, Resume(i))) < Weight(s)
  {
    hide Inv, Sum, Leave, Decided;
    MoveIdle(s.threads, i, Outside);
    var m := s.(sh := Resumed(s.sh), threads := s.threads[i := Outside]);
    LeaveWeight(m, i, c.nBatchSize, false);
    LeaveFrame(s, m, i, Decided(m.sh, i == 0, c.nBatchSize), false);
  }

  function SpuriousSteps<T>(steps: seq<Step<T>>): nat {
    if steps == [] then 0 else SpuriousSteps(steps[..|steps| - 1]) + (if steps[|steps| - 1].Spurious? then 1 else 0)
  }

  /** Wait ends: a run during which the master stays in Wait takes at most as many real
      steps as there was work at its start, plus two for each spurious wake-up. With
      NoDeadlock, every fair run therefore reaches an answer. */
  lemma {:induction false} WaitIsBounded<T(!new)>(states: seq<System<T>>, steps: seq<Step<T>>, c: Config<T>)
    requires IsRun(states, steps, c) && Inv(states[0], c)
    requires forall k :: 0 <= k < |steps| ==> InWait(states[k])
    ensures Inv(states[|steps|], c)
    ensures |steps| - SpuriousSteps(steps) + Weight(states[|steps|]) <= Weight(states[0]) + 2 * SpuriousSteps(steps)
  {
    hide Inv, Next, Enabled, Weight, InWait;
    if steps != [] {
      var n := |steps| - 1;
      assert forall k :: 0 <= k < n ==> Follows(states[..n + 1][k], steps[..n][k], states[..n + 1][k + 1], c) by {
        forall k | 0 <= k < n ensures Follows(states[..n + 1][k], steps[..n][k], states[..n + 1][k + 1], c) {
          assert Follows(states[k], steps[k], states[k + 1], c);
        }
      }
      WaitIsBounded(states[..n + 1], steps[..n], c);
      assert Follows(states[n], steps[n], states[n + 1], c);
      StepKeeps(states[n], c, steps[n]);
      StepsDecrease(states[n], c, steps[n]);
    }
  }
}
