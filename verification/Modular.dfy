/** Remainders modulo powers of two, and what an odd factor does to them. */
module Modular {
  import opened Words

  predicate Odd(s: int) { s % 2 == 1 }

  /** A power of two that divides d times an odd number divides d. */
  lemma {:induction false} OddDivides(p: nat, d: int, s: int, q: int) returns (e: int)
    requires Odd(s) && d * s == Pow2(p) * q
    ensures d == Pow2(p) * e
    decreases p
  {
    if p == 0 {
      e := d;
    } else {
      var w, t := Pow2(p - 1), s / 2;
      HalfProduct(d, s, t, w, q);
      var d1 := w * q - d * t;
      HalfEqual(d1, s, w, q);
      e := OddDivides(p - 1, d1, s, q);
      DoubleProduct(w, e);
    }
  }

  lemma {:induction false} HalfProduct(d: int, s: int, t: int, w: int, q: int)
    requires s == 2 * t + 1 && d * s == 2 * w * q
    ensures d == 2 * (w * q - d * t)
  {
    assert d * s == 2 * (d * t) + d;
    assert 2 * w * q == 2 * (w * q);
  }

  lemma {:induction false} HalfEqual(d1: int, s: int, w: int, q: int)
    requires 2 * d1 * s == 2 * w * q
    ensures d1 * s == w * q
  {
    assert 2 * d1 * s == 2 * (d1 * s);
    assert 2 * w * q == 2 * (w * q);
  }

  lemma {:induction false} DoubleProduct(w: int, e: int)
    ensures 2 * (w * e) == 2 * w * e
  {}

  lemma {:induction false} NoSmallMultiple(w: int, d: int, e: int)
    requires 0 < d < w
    ensures d != w * e
  {
    if e >= 1 {
      assert w * e >= w;
    } else {
      assert w * e <= 0;
    }
  }

  lemma {:induction false} PowSum(a: nat, b: nat)
    ensures Pow2(a + b) == Pow2(a) * Pow2(b)
  {
    if a > 0 {
      PowSum(a - 1, b);
      DoubleProduct(Pow2(a - 1), Pow2(b));
    }
  }

  lemma {:induction false} IntRemainder(x: int, w: nat, q: int, r: int)
    requires 0 <= r < w && x == w * q + r
    ensures x % w == r
  {
    var q1, r1 := x / w, x % w;
    assert x == w * q1 + r1;
    assert w * (q1 - q) == r - r1;
    if r != r1 {
      if r > r1 { NoSmallMultiple(w, r - r1, q1 - q); } else {
        assert w * (q - q1) == r1 - r;
        NoSmallMultiple(w, r1 - r, q - q1);
      }
    }
  }

  lemma {:induction false} ModMod(x: int, w: nat, c: nat)
    requires w > 0 && c > 0
    ensures w * c > 0 && x % (w * c) % w == x % w
  {
    var m := w * c;
    var q, r := x / m, x % m;
    assert x == m * q + r;
    var q2, r2 := r / w, r % w;
    assert r == w * q2 + r2;
    assert m * q == w * (c * q);
    assert x == w * (c * q + q2) + r2;
    IntRemainder(x, w, c * q + q2, r2);
  }

  /** A longer remainder first changes nothing. */
  lemma {:induction false} PowerMod(x: int, p: nat, q: nat)
    requires p <= q
    ensures x % Pow2(q) % Pow2(p) == x % Pow2(p)
  {
    hide Pow2;
    PowSum(p, q - p);
    ModMod(x, Pow2(p), Pow2(q - p));
  }

  // --- Equal remainders -----------------------------------------------------------------------

  lemma {:induction false} ShiftedMod(x: int, w: nat, k: int)
    requires w > 0
    ensures (x + w * k) % w == x % w
  {
    assert x == w * (x / w) + x % w;
    assert w * (x / w + k) == w * (x / w) + w * k;
    IntRemainder(x + w * k, w, x / w + k, x % w);
  }

  lemma {:induction false} SameModDivides(x: int, y: int, w: nat) returns (k: int)
    requires w > 0 && x % w == y % w
    ensures x == y + w * k
  {
    k := x / w - y / w;
    assert x == w * (x / w) + x % w && y == w * (y / w) + y % w;
  }

  lemma {:induction false} SameModAdd(x: int, y: int, c: int, w: nat)
    requires w > 0 && x % w == y % w
    ensures (x + c) % w == (y + c) % w
  {
    var k := SameModDivides(x, y, w);
    ShiftedMod(y + c, w, k);
  }

  lemma {:induction false} SameModTimes(x: int, y: int, c: int, w: nat)
    requires w > 0 && x % w == y % w
    ensures (c * x) % w == (c * y) % w
  {
    var k := SameModDivides(x, y, w);
    assert c * (y + w * k) == c * y + w * (c * k);
    ShiftedMod(c * y, w, c * k);
  }

  /** An odd factor can be cancelled modulo a power of two. */
  lemma {:induction false} OddCancels(x: int, y: int, c: int, p: nat)
    requires Odd(c)
    ensures (c * x) % Pow2(p) == (c * y) % Pow2(p) <==> x % Pow2(p) == y % Pow2(p)
  {
    hide Pow2;
    var w := Pow2(p);
    if (c * x) % w == (c * y) % w {
      var k := SameModDivides(c * x, c * y, w);
      assert (x - y) * c == c * x - c * y;
      var e := OddDivides(p, x - y, c, k);
      ShiftedMod(y, w, e);
    }
    if x % w == y % w {
      SameModTimes(x, y, c, w);
    }
  }

  /** Dividing twice. */
  lemma {:induction false} DivDiv(v: nat, a: nat, b: nat)
    requires a > 0 && b > 0
    ensures a * b > 0 && v / a / b == v / (a * b)
  {
    var q, r := v / a, v % a;
    assert v == a * q + r;
    var q2, r2 := q / b, q % b;
    assert q == b * q2 + r2;
    TwoRemainders(a, b, q2, r2, r);
    RemainderUnique(v, a * b, q2, a * r2 + r);
  }

  lemma {:induction false} TwoRemainders(a: nat, b: nat, q2: nat, r2: nat, r: nat)
    requires r < a && r2 < b
    ensures a * (b * q2 + r2) + r == (a * b) * q2 + (a * r2 + r)
    ensures a * r2 + r < a * b
  {
    assert a * (b * q2 + r2) == (a * b) * q2 + a * r2;
    MulMono(r2 + 1, b, a);
    MulSucc(r2, a);
    assert r2 * a == a * r2 && b * a == a * b;
  }

  lemma {:induction false} Word32()
    ensures Pow2(32) == WORD32
  {
    assert Pow2(4) == 16;
    PowSum(4, 4);
    PowSum(8, 8);
    PowSum(16, 16);
  }

  lemma {:induction false} Word64()
    ensures Pow2(64) == WORD64
  {
    Word32();
    PowSum(32, 32);
  }
}
