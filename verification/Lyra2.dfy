/** The row schedule of LYRA2 (src/Lyra2.c). The sponge and the matrix are one arbitrary
    memory; which rows each step touches is what matters. */
module Lyra2 {
  import opened Words
  import opened Modular

  /** Processing one row in the Setup phase, one in the Wandering phase, and the word of the
      sponge that picks row*. */
  datatype Ops<!M> = Ops(
    setup: (M, nat, nat, nat) -> M, wander: (M, nat, nat, nat) -> M, word: M -> nat)

  // --- Visiting w places with a fixed step -----------------------------------------------------

  /** The k-th place, starting from 0. */
  function Visit(step: int, w: nat, k: nat): (v: nat)
    requires w > 0
    ensures v < w
  {
    if k == 0 then 0 else (Visit(step, w, k - 1) + step) % w
  }

  /** It is k times the step, reduced. */
  lemma {:induction false} VisitProduct(step: int, w: nat, k: nat) returns (q: int)
    requires w > 0
    ensures k * step == w * q + Visit(step, w, k)
  {
    if k == 0 {
      q := 0;
    } else {
      var q1 := VisitProduct(step, w, k - 1);
      var x := Visit(step, w, k - 1) + step;
      var q2 := x / w;
      assert x == w * q2 + x % w;
      q := q1 + q2;
      assert w * (q1 + q2) == w * q1 + w * q2;
      assert k * step == (k - 1) * step + step;
    }
  }

  /** Within one round no place comes twice. */
  lemma {:induction false} VisitInjective(step: int, p: nat, j: nat, k: nat)
    requires Odd(step) && j < k < Pow2(p)
    ensures Visit(step, Pow2(p), j) != Visit(step, Pow2(p), k)
  {
    hide Visit, Pow2;
    var w := Pow2(p);
    if Visit(step, w, j) == Visit(step, w, k) {
      var a := VisitProduct(step, w, j);
      var b := VisitProduct(step, w, k);
      assert (k - j) * step == w * (b - a);
      var e := OddDivides(p, k - j, step, b - a);
      NoSmallMultiple(w, k - j, e);
    }
  }

  /** After w steps the round is over. */
  lemma {:induction false} VisitReturns(step: int, w: nat)
    requires w > 0
    ensures Visit(step, w, w) == 0
  {
    hide Visit;
    var q := VisitProduct(step, w, w);
    var v: nat := Visit(step, w, w);
    MultipleDifference(w, step, q, v);
    if v > 0 {
      NoSmallMultiple(w, v, step - q);
    }
  }

  lemma {:induction false} MultipleDifference(w: int, a: int, b: int, v: int)
    requires w * a == w * b + v
    ensures v == w * (a - b)
  {}

  function Places(n: nat): (s: set<nat>)
    ensures |s| == n && forall v: nat :: v in s <==> v < n
  {
    if n == 0 then {} else Places(n - 1) + {n - 1}
  }

  function Visited(step: int, w: nat, k: nat): set<nat>
    requires w > 0
  {
    if k == 0 then {} else Visited(step, w, k - 1) + {Visit(step, w, k - 1)}
  }

  lemma {:induction false} VisitedWhere(step: int, w: nat, k: nat, v: nat) returns (j: nat)
    requires w > 0 && v in Visited(step, w, k)
    ensures j < k && Visit(step, w, j) == v
  {
    hide Visit;
    if v == Visit(step, w, k - 1) {
      j := k - 1;
    } else {
      j := VisitedWhere(step, w, k - 1, v);
    }
  }

  lemma {:induction false} VisitedSize(step: int, p: nat, k: nat)
    requires Odd(step) && k <= Pow2(p)
    ensures |Visited(step, Pow2(p), k)| == k && Visited(step, Pow2(p), k) <= Places(Pow2(p))
  {
    hide Visit, Pow2;
    if k > 0 {
      VisitedSize(step, p, k - 1);
      NewPlace(step, p, k - 1);
    }
  }

  lemma {:induction false} NewPlace(step: int, p: nat, k: nat)
    requires Odd(step) && k < Pow2(p)
    ensures Visit(step, Pow2(p), k) !in Visited(step, Pow2(p), k)
  {
    hide Visit, Pow2, Visited;
    if Visit(step, Pow2(p), k) in Visited(step, Pow2(p), k) {
      var j := VisitedWhere(step, Pow2(p), k, Visit(step, Pow2(p), k));
      VisitInjective(step, p, j, k);
      assert false;
    }
  }

  /** A round of w steps, w a power of two and the step odd, visits every place below w at
      exactly one time. */
  lemma {:induction false} VisitsAll(step: int, p: nat, v: nat) returns (k: nat)
    requires Odd(step) && v < Pow2(p)
    ensures k < Pow2(p) && Visit(step, Pow2(p), k) == v
    ensures forall j: nat :: j < Pow2(p) && Visit(step, Pow2(p), j) == v ==> j == k
  {
    hide Visit, Pow2, Visited;
    var w := Pow2(p);
    VisitedSize(step, p, w);
    var seen := Visited(step, w, w);
    assert Places(w) == seen + (Places(w) - seen);
    assert v in seen;
    k := VisitedWhere(step, w, w, v);
    forall j: nat | j < w && Visit(step, w, j) == v ensures j == k {
      if j < k { VisitInjective(step, p, j, k); } else if k < j { VisitInjective(step, p, k, j); }
    }
  }

  // --- Setup -------------------------------------------------------------------------------------

  /** The logarithm of the revisitation window for a row: the largest power of two up to it. */
  function Window(row: nat): (p: nat)
    requires row >= 2
    ensures p >= 1 && Pow2(p) <= row < Pow2(p + 1)
  {
    if row < 4 then 1 else
      assert Pow2(1) == 2 && Pow2(2) == 4;
      Window(row / 2) + 1
  }

  /** The step in a window: half the window, one more and one less in turn. */
  function StepOf(p: nat): int
    requires p >= 1
  {
    if p == 1 then 1 else if p % 2 == 0 then Pow2(p - 1) + 1 else Pow2(p - 1) - 1
  }

  lemma {:induction false} StepOdd(p: nat)
    requires p >= 1
    ensures Odd(StepOf(p)) && StepOf(p) >= 1
  {
    if p >= 2 {
      var y := Pow2(p - 2);
      assert Pow2(p - 1) == 2 * y;
      OddNext(y);
    }
  }

  lemma {:induction false} OddNext(y: nat)
    requires y > 0
    ensures Odd(2 * y + 1) && Odd(2 * y - 1)
  {}

  /** row* for a row of the Setup phase. */
  function RowA(row: nat): (a: nat)
    requires row >= 2
  {
    Visit(StepOf(Window(row)), Pow2(Window(row)), row - Pow2(Window(row)))
  }

  /** The Setup phase by its schedule: each row from prev = row - 1 and row*. */
  function SetupSpec<M>(m: M, ops: Ops<M>, n: nat): M
    requires n >= 2
  {
    if n == 2 then m else ops.setup(SetupSpec(m, ops, n - 1), n - 2, RowA(n - 1), n - 1)
  }

  lemma {:induction false} SmallPowers(p: nat)
    ensures p == 1 ==> Pow2(p) == 2
    ensures p >= 2 ==> Pow2(p) >= 4
    ensures p >= 1 ==> Pow2(p) == 2 * Pow2(p - 1)
  {
    assert Pow2(0) == 1;
    if p >= 2 {
      assert Pow2(p - 1) == 2 * Pow2(p - 2);
    }
  }

  lemma {:induction false} WindowIs(row: nat, p: nat)
    requires p >= 1 && Pow2(p) <= row < Pow2(p + 1)
    ensures row >= 2 && Window(row) == p
    decreases row
  {
    SmallPowers(p);
    SmallPowers(p + 1);
    if row >= 4 {
      WindowIs(row / 2, p - 1);
    }
  }

  /** The three rows of a step are different, so the step never reads what it overwrites. */
  lemma {:induction false} SetupDistinct(row: nat)
    requires row >= 2
    ensures RowA(row) < row && RowA(row) != row - 1
  {
    var p := Window(row);
    if row == Pow2(p) {
      assert RowA(row) == 0;
    }
  }

  /** While the rows from a window's size up to twice that are made, every row of the
      window is revisited exactly once. */
  lemma {:induction false} SetupCovers(p: nat, a: nat) returns (row: nat)
    requires p >= 1 && a < Pow2(p)
    ensures Pow2(p) <= row < Pow2(p + 1) && row >= 2 && RowA(row) == a
    ensures forall r: nat :: Pow2(p) <= r < Pow2(p + 1) && r >= 2 && RowA(r) == a ==> r == row
  {
    StepOdd(p);
    var k := VisitsAll(StepOf(p), p, a);
    row := Pow2(p) + k;
    WindowIs(row, p);
    forall r: nat | Pow2(p) <= r < Pow2(p + 1) && r >= 2 && RowA(r) == a ensures r == row {
      WindowIs(r, p);
      assert Visit(StepOf(p), Pow2(p), r - Pow2(p)) == a;
    }
  }

  /** x & (window - 1) for a power of two. */
  lemma {:induction false} AndMask(x: nat, p: nat)
    ensures And(x, Pow2(p) - 1) == x % Pow2(p)
  {
    hide And;
    if p == 0 {
      AndZero(x);
    } else {
      AndMask(x / 2, p - 1);
      AndStep(x, Pow2(p - 1));
      HalfMod(x, Pow2(p - 1));
    }
  }

  lemma {:induction false} AndStep(x: nat, w: nat)
    requires w > 0
    ensures And(x, 2 * w - 1) == 2 * And(x / 2, w - 1) + x % 2
  {
    assert (2 * w - 1) / 2 == w - 1 && (2 * w - 1) % 2 == 1;
  }

  lemma {:induction false} AndZero(x: nat)
    ensures And(x, 0) == 0
  {
    if x > 0 {
      AndZero(x / 2);
    }
  }

  /** The variables of the Setup loop at the k-th row of window p. */
  ghost predicate SetupAt(row: nat, rowa: nat, step: int, window: nat, gap: int, p: nat, k: nat) {
    && p >= 1 && window == Pow2(p) && step == StepOf(p) && gap == (if p % 2 == 1 then 1 else -1)
    && row == Pow2(p) + k && k < Pow2(p) && rowa == Visit(StepOf(p), Pow2(p), k)
  }

  lemma {:induction false} SetupNext(row: nat, rowa: nat, step: int, window: nat, gap: int, p: nat, k: nat)
    requires SetupAt(row, rowa, step, window, gap, p, k)
    ensures row >= 2 && rowa == RowA(row) && rowa + step >= 0 && window >= 1
    ensures var a := And(rowa + step, window - 1);
      if a == 0 then window + gap >= 0 && SetupAt(row + 1, 0, window + gap, window * 2, -gap, p + 1, 0)
      else SetupAt(row + 1, a, step, window, gap, p, k + 1)
  {
    hide Visit, And, StepOf, RowA;
    RowAIs(row, p, k);
    StepOdd(p);
    AndMask(rowa + step, p);
    NextVisit(StepOf(p), p, k);
    NextWindow(p);
  }

  method Setup<M>(m0: M, ops: Ops<M>, nRows: nat) returns (m: M, prev: nat, rowa: nat)
    requires nRows >= 3
    ensures m == SetupSpec(m0, ops, nRows) && prev == nRows - 1 && rowa == RowA(nRows)
  {
    hide SetupAt, RowA, And;
    m := m0;
    var row, step, window, gap := 2, 1, 2, 1;
    prev, rowa := 1, 0;
    ghost var p := FirstWindow();
    ghost var k: nat := 0;
    while true
      invariant 2 <= row < nRows && prev == row - 1 && m == SetupSpec(m0, ops, row) && window >= 0
      invariant SetupAt(row, rowa, step, window, gap, p, k)
      decreases nRows - row
    {
      SetupNext(row, rowa, step, window, gap, p, k);
      m := ops.setup(m, prev, rowa, row);
      rowa := And(rowa + step, window - 1);
      prev := row;
      row := row + 1;
      k := k + 1;
      if rowa == 0 {
        step := window + gap;
        window := window * 2;
        gap := -gap;
        p, k := p + 1, 0;
      }
      if row >= nRows {
        SetupNext(row, rowa, step, window, gap, p, k);
        break;
      }
    }
  }

  lemma {:induction false} FirstWindow() returns (p: nat)
    ensures SetupAt(2, 0, 1, 2, 1, p, 0)
  {
    p := 1;
    assert Pow2(0) == 1;
  }

  lemma {:induction false} RowAIs(row: nat, p: nat, k: nat)
    requires p >= 1 && row == Pow2(p) + k && k < Pow2(p)
    ensures row >= 2 && RowA(row) == Visit(StepOf(p), Pow2(p), k)
  {
    hide Visit, StepOf;
    assert Pow2(p + 1) == 2 * Pow2(p);
    WindowIs(row, p);
  }

  /** row* returns to 0 exactly when the window has been visited. */
  lemma {:induction false} NextVisit(step: int, p: nat, k: nat)
    requires Odd(step) && k < Pow2(p)
    ensures Visit(step, Pow2(p), k + 1) == (Visit(step, Pow2(p), k) + step) % Pow2(p)
    ensures Visit(step, Pow2(p), k + 1) == 0 <==> k + 1 == Pow2(p)
  {
    if k + 1 == Pow2(p) {
      VisitReturns(step, Pow2(p));
    } else {
      VisitInjective(step, p, 0, k + 1);
    }
  }

  lemma {:induction false} NextWindow(p: nat)
    requires p >= 1
    ensures Pow2(p + 1) == 2 * Pow2(p) && Visit(StepOf(p + 1), Pow2(p + 1), 0) == 0
    ensures StepOf(p + 1) == Pow2(p) + (if p % 2 == 1 then 1 else -1)
  {}

  // --- Wandering -----------------------------------------------------------------------------------

  /** The memory, the row last made, and row* of that step. */
  datatype Place<M> = Place(m: M, prev: nat, rowa: nat)

  /** Passing row: row* is picked by the sponge. */
  function WanderRow<M>(s: Place<M>, ops: Ops<M>, n: nat, row: nat): Place<M>
    requires n > 0
  {
    var rowa := ops.word(s.m) % n;
    Place(ops.wander(s.m, s.prev, rowa, row), row, rowa)
  }

  /** k steps of one pass. */
  function WanderSteps<M>(s: Place<M>, ops: Ops<M>, n: nat, step: int, k: nat): Place<M>
    requires n > 0
  {
    if k == 0 then s else WanderRow(WanderSteps(s, ops, n, step, k - 1), ops, n, Visit(step, n, k - 1))
  }

  function StepTau(n: nat, tau: nat): int { if tau % 2 == 0 then -1 else n / 2 - 1 }

  /** The Wandering phase: each of the passes takes as many steps as there are rows. */
  function WanderSpec<M>(s: Place<M>, ops: Ops<M>, n: nat, passes: nat): Place<M>
    requires n > 0
  {
    if passes == 0 then s else WanderSteps(WanderSpec(s, ops, n, passes - 1), ops, n, StepTau(n, passes), n)
  }

  lemma {:induction false} StepTauOdd(p: nat, tau: nat)
    requires p >= 2
    ensures Odd(StepTau(Pow2(p), tau))
  {
    assert Pow2(p) == 2 * Pow2(p - 1) && Pow2(p - 1) == 2 * Pow2(p - 2);
    OddNext(Pow2(p - 2));
  }

  /** In each pass every row is updated at exactly one step. */
  lemma {:induction false} WanderCovers(p: nat, tau: nat, row: nat) returns (k: nat)
    requires p >= 2 && row < Pow2(p)
    ensures k < Pow2(p) && Visit(StepTau(Pow2(p), tau), Pow2(p), k) == row
    ensures forall j: nat :: j < Pow2(p) && Visit(StepTau(Pow2(p), tau), Pow2(p), j) == row ==> j == k
  {
    hide Visit, Pow2, StepTau;
    StepTauOdd(p, tau);
    k := VisitsAll(StepTau(Pow2(p), tau), p, row);
  }

  // Unsigned 64-bit arithmetic modulo a power of two.

  lemma {:induction false} WordMod(x: int, p: nat)
    requires p <= 64
    ensures x % WORD64 % Pow2(p) == x % Pow2(p)
  {
    hide Pow2;
    Word64();
    PowerMod(x, p, 64);
  }

  /** The Wandering phase for a power of two of rows. The sum in the update of row is an
      unsigned 64-bit number. */
  method Wander<M>(s0: Place<M>, ops: Ops<M>, nRows: nat, timeCost: nat, ghost p: nat) returns (s: Place<M>)
    requires 2 <= p < 64 && nRows == Pow2(p)
    ensures s == WanderSpec(s0, ops, nRows, timeCost)
  {
    hide WanderSteps, StepTau, Pow2;
    s := s0;
    for tau := 1 to timeCost + 1
      invariant s == WanderSpec(s0, ops, nRows, tau - 1)
    {
      var step := if tau % 2 == 0 then -1 else nRows / 2 - 1;
      StepIs(nRows, tau, step);
      s := Pass(s, ops, nRows, step, tau, p);
    }
  }

  lemma {:induction false} StepIs(n: nat, tau: nat, step: int)
    requires step == if tau % 2 == 0 then -1 else n / 2 - 1
    ensures step == StepTau(n, tau)
  {}

  /** One pass: the loop comes back to row 0 after every row, not before. */
  method Pass<M>(s0: Place<M>, ops: Ops<M>, nRows: nat, step: int, ghost tau: nat, ghost p: nat) returns (s: Place<M>)
    requires 2 <= p < 64 && nRows == Pow2(p) && step == StepTau(nRows, tau)
    ensures s == WanderSteps(s0, ops, nRows, step, nRows)
  {
    hide StepTau, Pow2, Visit, WanderRow;
    s := s0;
    var row := 0;
    ghost var k: nat := 0;
    StepTauOdd(p, tau);
    FirstVisit(step, nRows);
    while true
      invariant k < nRows && row == Visit(step, nRows, k) && s == WanderSteps(s0, ops, nRows, step, k)
      decreases nRows - k
    {
      s := Place(s.m, s.prev, ops.word(s.m) % nRows);
      s := Place(ops.wander(s.m, s.prev, s.rowa, row), row, s.rowa);
      WanderedRow(s0, ops, nRows, step, k, row, s);
      NextVisit(step, p, k);
      WordMod(row + step, p);
      row := (row + step) % WORD64 % nRows;
      k := k + 1;
      if row == 0 {
        break;
      }
    }
  }

  lemma {:induction false} FirstVisit(step: int, w: nat)
    requires w > 0
    ensures Visit(step, w, 0) == 0
  {}

  lemma {:induction false} WanderedRow<M>(s0: Place<M>, ops: Ops<M>, n: nat, step: int, k: nat, row: nat, s: Place<M>)
    requires n > 0 && row == Visit(step, n, k)
    requires var q := WanderSteps(s0, ops, n, step, k);
      s == Place(ops.wander(q.m, q.prev, ops.word(q.m) % n, row), row, ops.word(q.m) % n)
    ensures s == WanderSteps(s0, ops, n, step, k + 1)
  {
    hide Visit;
  }

  /** Setup and Wandering of LYRA2, up to the wrap-up that absorbs row rowa. */
  method Lyra2<M>(m0: M, ops: Ops<M>, nRows: nat, timeCost: nat, ghost p: nat) returns (m: M, rowa: nat)
    requires 2 <= p < 64 && nRows == Pow2(p)
    ensures nRows >= 4
    ensures var s := WanderSpec(Place(SetupSpec(m0, ops, nRows), nRows - 1, RowA(nRows)), ops, nRows, timeCost);
      m == s.m && rowa == s.rowa
  {
    hide WanderSpec, SetupSpec, RowA;
    SmallPowers(p);
    var prev;
    m, prev, rowa := Setup(m0, ops, nRows);
    var s := Wander(Place(m, prev, rowa), ops, nRows, timeCost, p);
    m, rowa := s.m, s.rowa;
  }
}
