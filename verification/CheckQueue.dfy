/** The shared part of CCheckQueue (src/checkqueue.h): every method below is one
    critical section of the queue's mutex, or work done outside it. */
module CheckQueue {
  import opened Words

  datatype Shared<T> = Shared(queue: seq<T>, nIdle: int, nTotal: int, nTodo: int, fAllOk: bool)

  /** How a critical section of the worker loop ends. */
  datatype Outcome<T> = Sleep | Batch(checks: seq<T>, fOk: bool) | Return(fRet: bool)

  datatype Section<T> = Section(s: Shared<T>, outcome: Outcome<T>)

  // --- What the critical sections compute ---------------------------------------------------

  function Share(n: nat, d: nat): (r: nat)
    requires d > 0
    ensures r <= n
  {
    ShareLess(n, d);
    n / d
  }

  lemma {:induction false} ShareLess(n: nat, d: nat)
    requires d > 0
    ensures 0 <= n / d <= n
  {
    var q: nat := n / d;
    assert n == q * d + n % d;
    MulMono(1, d, q);
  }

  /** At least one check, at most nBatchSize or a fair share of the queue. */
  function BatchSize(nBatchSize: nat, n: nat, workers: int): (r: nat)
    requires workers >= 0 && n > 0
    ensures 1 <= r <= n && r <= Max(1, nBatchSize)
  {
    Max(1, Min(nBatchSize, Share(n, workers + 1)))
  }

  /** r checks from a queue of n, with so many workers besides: one, or no more than an equal
      share for each worker and one share to spare; and the largest such number up to
      nBatchSize. */
  predicate FairBatch(r: nat, nBatchSize: nat, n: nat, workers: int) {
    && 1 <= r <= n && r <= Max(1, nBatchSize)
    && (r == 1 || r * (workers + 1) <= n)
    && (r >= nBatchSize || (r + 1) * (workers + 1) > n)
  }

  lemma {:induction false} BatchIsFair(nBatchSize: nat, n: nat, workers: int)
    requires workers >= 0 && n > 0
    ensures FairBatch(BatchSize(nBatchSize, n, workers), nBatchSize, n, workers)
  {
    var r, d: nat := BatchSize(nBatchSize, n, workers), workers + 1;
    var q: nat := n / d;
    assert n == q * d + n % d;
    if r > 1 { MulMono(r, q, d); }
    if r < nBatchSize { MulMono(q, r, d); }
    MulSucc(r, d);
  }

  /** The batch a section ends with, if it does. */
  predicate FairSection<T>(s: Shared<T>, nBatchSize: nat, outcome: Outcome<T>) {
    outcome.Batch? ==> FairBatch(|outcome.checks|, nBatchSize, |s.queue|, s.nTotal + s.nIdle)
  }

  lemma {:induction false} DecidedFair<T>(s: Shared<T>, fMaster: bool, nBatchSize: nat)
    requires s.nTotal >= 0 && s.nIdle >= 0
    ensures FairSection(s, nBatchSize, Decided(s, fMaster, nBatchSize).outcome)
  {
    hide BatchSize, FairBatch;
    if s.queue != [] {
      BatchIsFair(nBatchSize, |s.queue|, s.nTotal + s.nIdle);
    }
  }

  function Reversed<T>(s: seq<T>): (r: seq<T>)
    ensures |r| == |s|
  {
    if s == [] then [] else [s[|s| - 1]] + Reversed(s[..|s| - 1])
  }

  /** The clean-up of the previous batch of nNow checks, or joining for the first time. */
  function Entered<T>(s: Shared<T>, nNow: nat, fOk: bool): Shared<T> {
    if nNow > 0 then s.(fAllOk := s.fAllOk && fOk, nTodo := s.nTodo - nNow) else s.(nTotal := s.nTotal + 1)
  }

  /** The rest: return, sleep, or take a batch from the back of the queue. */
  function Decided<T>(s: Shared<T>, fMaster: bool, nBatchSize: nat): Section<T>
    requires s.nTotal >= 0 && s.nIdle >= 0
  {
    if s.queue == [] then
      if fMaster && s.nTodo == 0 then Section(s.(nTotal := s.nTotal - 1, fAllOk := true), Return(s.fAllOk))
      else Section(s.(nIdle := s.nIdle + 1), Sleep)
    else
      var nNow := BatchSize(nBatchSize, |s.queue|, s.nTotal + s.nIdle);
      var n := |s.queue| - nNow;
      Section(s.(queue := s.queue[..n]), Batch(Reversed(s.queue[n..]), s.fAllOk))
  }

  function Resumed<T>(s: Shared<T>): Shared<T> { s.(nIdle := s.nIdle - 1) }

  function Added<T>(s: Shared<T>, vs: seq<T>): Shared<T> {
    s.(queue := s.queue + vs, nTodo := s.nTodo + |vs|)
  }

  // --- The class --------------------------------------------------------------------------------

  class CCheckQueue<T> {
    var queue: seq<T>
    var nIdle: int
    var nTotal: int
    var fAllOk: bool
    var nTodo: int
    const nBatchSize: nat

    function S(): Shared<T>
      reads this
    {
      Shared(queue, nIdle, nTotal, nTodo, fAllOk)
    }

    constructor (nBatchSizeIn: nat)
      ensures S() == Shared([], 0, 0, 0, true) && nBatchSize == nBatchSizeIn
    {
      nIdle, nTotal, fAllOk, nTodo, nBatchSize := 0, 0, true, 0, nBatchSizeIn;
      queue := [];
    }

    /** Add: one critical section. The caller then notifies one worker for one check,
        all of them for more. */
    method Add(vChecks: seq<T>)
      modifies this
      ensures S() == Added(old(S()), vChecks)
    {
      for i := 0 to |vChecks|
        invariant S() == old(S()).(queue := old(queue) + vChecks[..i])
      {
        queue := queue + [vChecks[i]];
      }
      nTodo := nTodo + |vChecks|;
    }

    /** The critical section of Loop after nNow checks, zero for the first. */
    method Enter(fMaster: bool, nNow: nat, fOk: bool) returns (outcome: Outcome<T>, notifyMaster: bool)
      requires nTotal >= 0 && nIdle >= 0
      modifies this
      ensures Section(S(), outcome) == Decided(Entered(old(S()), nNow, fOk), fMaster, nBatchSize)
      ensures FairSection(Entered(old(S()), nNow, fOk), nBatchSize, outcome)
      ensures notifyMaster <==> nNow > 0 && !fMaster && Entered(old(S()), nNow, fOk).nTodo == 0
    {
      notifyMaster := false;
      if nNow > 0 {
        fAllOk := fAllOk && fOk;
        nTodo := nTodo - nNow;
        if nTodo == 0 && !fMaster {
          notifyMaster := true;
        }
      } else {
        nTotal := nTotal + 1;
      }
      DecidedFair(S(), fMaster, nBatchSize);
      outcome := Decide(fMaster);
    }

    /** The critical section after a wait returns. */
    method Resume(fMaster: bool) returns (outcome: Outcome<T>)
      requires nTotal >= 0 && nIdle > 0
      modifies this
      ensures Section(S(), outcome) == Decided(Resumed(old(S())), fMaster, nBatchSize)
      ensures FairSection(Resumed(old(S())), nBatchSize, outcome)
    {
      nIdle := nIdle - 1;
      DecidedFair(S(), fMaster, nBatchSize);
      outcome := Decide(fMaster);
    }

    /** Moves nNow checks from the back of the queue. */
    method Take(nNow: nat) returns (vChecks: seq<T>)
      requires nNow <= |queue|
      modifies `queue
      ensures queue == old(queue)[..|old(queue)| - nNow] && vChecks == Reversed(old(queue)[|old(queue)| - nNow..])
    {
      vChecks := [];
      ghost var all, n := queue, |queue| - nNow;
      for i := 0 to nNow
        invariant queue == all[..|all| - i]
        invariant vChecks + Reversed(all[n..|all| - i]) == Reversed(all[n..])
      {
        ghost var rest := all[n..|all| - i];
        assert rest[|rest| - 1] == queue[|queue| - 1] && rest[..|rest| - 1] == all[n..|all| - i - 1];
        vChecks := vChecks + [queue[|queue| - 1]];
        queue := queue[..|queue| - 1];
      }
      assert all[n..|all| - nNow] == [] && vChecks + [] == vChecks;
    }

    method Decide(fMaster: bool) returns (outcome: Outcome<T>)
      requires nTotal >= 0 && nIdle >= 0
      modifies this
      ensures Section(S(), outcome) == Decided(old(S()), fMaster, nBatchSize)
    {
      hide BatchSize, Reversed;
      if queue == [] {
        if fMaster && nTodo == 0 {
          nTotal := nTotal - 1;
          var fRet := fAllOk;
          if fMaster {
            fAllOk := true;
          }
          return Return(fRet);
        }
        nIdle := nIdle + 1;
        return Sleep;
      }
      var nNow := BatchSize(nBatchSize, |queue|, nTotal + nIdle);
      var vChecks := Take(nNow);
      outcome := Batch(vChecks, fAllOk);
    }
  }

  /** The result after passing k checks of a batch, and those that ran. */
  function Evaluated<T>(checks: seq<T>, holds: T -> bool, fOk: bool, k: nat): (bool, seq<T>)
    requires k <= |checks|
  {
    if k == 0 then (fOk, [])
    else
      var (ok, ran) := Evaluated(checks, holds, fOk, k - 1);
      if ok then (holds(checks[k - 1]), ran + [checks[k - 1]]) else (false, ran)
  }

  /** Work on a batch: checks run in order until one fails. */
  method RunBatch<T>(vChecks: seq<T>, holds: T -> bool, fOk0: bool) returns (fOk: bool, ghost ran: seq<T>)
    ensures (fOk, ran) == Evaluated(vChecks, holds, fOk0, |vChecks|)
    ensures fOk <==> fOk0 && forall k :: 0 <= k < |vChecks| ==> holds(vChecks[k])
    ensures ran <= vChecks && (fOk ==> ran == vChecks)
    ensures fOk0 && !fOk ==> ran != [] && !holds(ran[|ran| - 1])
  {
    fOk, ran := fOk0, [];
    for k := 0 to |vChecks|
      invariant (fOk, ran) == Evaluated(vChecks, holds, fOk0, k)
      invariant fOk <==> fOk0 && forall j :: 0 <= j < k ==> holds(vChecks[j])
      invariant ran <= vChecks && |ran| <= k && (fOk ==> ran == vChecks[..k])
      invariant fOk0 && !fOk ==> ran != [] && !holds(ran[|ran| - 1])
    {
      if fOk {
        fOk := holds(vChecks[k]);
        ran := ran + [vChecks[k]];
      }
    }
  }
}
