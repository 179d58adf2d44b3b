/** The Base58 codec of src/base58.cpp: digit vectors multiplied in place, and the
    bijection between byte strings and strings over the alphabet. */
module Base58 {
  import opened Powers

  type Base = b: nat | b == 58 || b == 256 witness 58

  function Times(b: Base, x: nat): nat { if b == 58 then 58 * x else 256 * x }

  // --- Positional values ------------------------------------------------------------------

  predicate Digits(b: Base, s: seq<nat>) { forall k :: 0 <= k < |s| ==> s[k] < b }

  /** The number written in base b, most significant digit first. */
  function Value(b: Base, s: seq<nat>): nat {
    if s == [] then 0 else Times(b, Value(b, s[..|s| - 1])) + s[|s| - 1]
  }

  /** c followed by k zeros. */
  function Scale(b: Base, c: nat, k: nat): nat {
    if k == 0 then c else Times(b, Scale(b, c, k - 1))
  }

  lemma {:induction false} ScaleSum(b: Base, c: nat, d: nat, k: nat)
    ensures Scale(b, c + d, k) == Scale(b, c, k) + Scale(b, d, k)
  {
    if k > 0 {
      ScaleSum(b, c, d, k - 1);
    }
  }

  lemma {:induction false} ScaleTimes(b: Base, m: Base, c: nat, k: nat)
    ensures Scale(b, Times(m, c), k) == Times(m, Scale(b, c, k))
  {
    if k > 0 {
      ScaleTimes(b, m, c, k - 1);
    }
  }

  lemma {:induction false} ScaleNext(b: Base, c: nat, k: nat)
    ensures Scale(b, c, k + 1) == Scale(b, Times(b, c), k)
  {
    ScaleTimes(b, b, c, k);
  }

  lemma {:induction false} ScalePow(b: Base, k: nat)
    ensures Scale(b, 1, k) == Pow(b, k)
  {
    if k > 0 {
      ScalePow(b, k - 1);
    }
  }

  lemma {:induction false} ScaleMono(b: Base, c: nat, k: nat)
    requires c > 0
    ensures Scale(b, c, k) >= Scale(b, 1, k)
  {
    ScaleSum(b, 1, c - 1, k);
  }

  /** Adding a leading digit. */
  lemma {:induction false} ValueLead(b: Base, d: nat, s: seq<nat>)
    ensures Value(b, [d] + s) == Scale(b, d, |s|) + Value(b, s)
  {
    if s == [] {
      assert Value(b, []) == 0;
      assert [d] + s == [d] && [d][..0] == [];
    } else {
      var t := s[..|s| - 1];
      ValueLead(b, d, t);
      assert ([d] + s)[..|s|] == [d] + t;
    }
  }

  lemma {:induction false} ValueBound(b: Base, s: seq<nat>)
    requires Digits(b, s)
    ensures Value(b, s) < Scale(b, 1, |s|)
  {
    if s != [] {
      ValueBound(b, s[..|s| - 1]);
    }
  }

  lemma {:induction false} ValueZeros(b: Base, z: seq<nat>, s: seq<nat>)
    requires forall k :: 0 <= k < |z| ==> z[k] == 0
    ensures Value(b, z + s) == Value(b, s)
  {
    if s == [] {
      assert z + s == z;
      if z != [] {
        ValueZeros(b, z[..|z| - 1], []);
        assert z[..|z| - 1] + [] == z[..|z| - 1];
      }
    } else {
      ValueZeros(b, z, s[..|s| - 1]);
      assert (z + s)[..|z + s| - 1] == z + s[..|s| - 1];
    }
  }

  // --- Canonical digits ------------------------------------------------------------------------

  function Quotient(b: Base, v: nat): nat { if b == 58 then v / 58 else v / 256 }
  function Remainder(b: Base, v: nat): (r: nat)
    ensures r < b
  {
    if b == 58 then v % 58 else v % 256
  }

  /** The digits of v without leading zeros. */
  function Minimal(b: Base, v: nat): (s: seq<nat>)
    ensures Digits(b, s)
  {
    if v == 0 then [] else Minimal(b, Quotient(b, v)) + [Remainder(b, v)]
  }

  predicate Canonical(s: seq<nat>) { s == [] || s[0] != 0 }

  lemma {:induction false} ValueOfMinimal(b: Base, v: nat)
    ensures Value(b, Minimal(b, v)) == v && Canonical(Minimal(b, v))
  {
    if v > 0 {
      ValueOfMinimal(b, Quotient(b, v));
      var s := Minimal(b, v);
      assert s[..|s| - 1] == Minimal(b, Quotient(b, v));
      if Minimal(b, Quotient(b, v)) == [] {
        assert Quotient(b, v) == Value(b, []);
      }
    }
  }

  lemma {:induction false} MinimalOfValue(b: Base, s: seq<nat>)
    requires Digits(b, s) && Canonical(s)
    ensures Minimal(b, Value(b, s)) == s
  {
    if s != [] {
      var t, d := s[..|s| - 1], s[|s| - 1];
      MinimalOfValue(b, t);
      var v := Value(b, s);
      assert Quotient(b, v) == Value(b, t) && Remainder(b, v) == d;
      assert v > 0;
    }
  }

  // --- The carry loops ----------------------------------------------------------------------------

  lemma {:induction false} DivMod(b: Base, c: nat)
    ensures c == Times(b, Quotient(b, c)) + Remainder(b, c)
  {}

  lemma {:induction false} TimesSum(m: Base, x: nat, y: nat)
    ensures Times(m, x + y) == Times(m, x) + Times(m, y)
  {}

  /** One position: what the carry brings in and what it takes out. */
  lemma {:induction false} CarryStep(b: Base, m: Base, carry: nat, d: nat, old_: seq<nat>, new_: seq<nat>, c0: nat)
    requires |old_| == |new_|
    requires Value(b, new_) + Scale(b, carry, |old_|) == Times(m, Value(b, old_)) + c0
    ensures var c := carry + Times(m, d);
      Value(b, [Remainder(b, c)] + new_) + Scale(b, Quotient(b, c), |old_| + 1) == Times(m, Value(b, [d] + old_)) + c0
  {
    hide Value, Scale, Times, Quotient, Remainder;
    var k, c := |old_|, carry + Times(m, d);
    var q, r := Quotient(b, c), Remainder(b, c);
    DivMod(b, c);
    TimesSum(m, Scale(b, d, k), Value(b, old_));
    ValueLead(b, r, new_);
    ValueLead(b, d, old_);
    ScaleNext(b, q, k);
    ScaleSum(b, Times(b, q), r, k);
    ScaleSum(b, carry, Times(m, d), k);
    ScaleTimes(b, m, d, k);
  }

  /** Multiplies the number in the buffer by m and adds a digit, in place. The carry runs
      out because the result fits. */
  method MultiplyAdd(buf: array<nat>, b: Base, m: Base, digit: nat)
    requires Digits(b, buf[..]) && Times(m, Value(b, buf[..])) + digit < Scale(b, 1, buf.Length)
    modifies buf
    ensures Digits(b, buf[..]) && Value(b, buf[..]) == Times(m, old(Value(b, buf[..]))) + digit
  {
    hide Value, Scale, Times, Remainder, Quotient;
    ghost var s := buf[..];
    var carry: nat := digit;
    var it := buf.Length;
    NoPositions(b, m, digit);
    assert s[it..] == [] && buf[it..] == [];
    while it > 0
      invariant 0 <= it <= buf.Length
      invariant buf[..it] == s[..it] && Digits(b, buf[..])
      invariant Value(b, buf[it..]) + Scale(b, carry, buf.Length - it) == Times(m, Value(b, s[it..])) + digit
    {
      it := it - 1;
      CarryStep(b, m, carry, buf[it], s[it + 1..], buf[it + 1..], digit);
      assert s[it..] == [s[it]] + s[it + 1..] && s[it] == buf[it] by { assert buf[..it + 1] == s[..it + 1]; }
      ghost var after := buf[it + 1..];
      carry := carry + Times(m, buf[it]);
      buf[it] := Remainder(b, carry);
      carry := Quotient(b, carry);
      assert buf[it..] == [buf[it]] + after;
    }
    assert buf[0..] == buf[..] && s[0..] == s;
    if carry > 0 {
      ScaleMono(b, carry, buf.Length);
    }
    assert carry == 0;
    ScaleZero(b, buf.Length);
  }

  lemma {:induction false} NoPositions(b: Base, m: Base, digit: nat)
    ensures Value(b, []) + Scale(b, digit, 0) == Times(m, Value(b, [])) + digit
  {}

  lemma {:induction false} ScaleZero(b: Base, k: nat)
    ensures Scale(b, 0, k) == 0
  {
    if k > 0 {
      ScaleZero(b, k - 1);
    }
  }

  /** The buffer without its leading zeros. */
  method SkipZeros(buf: array<nat>, b: Base) returns (s: seq<nat>)
    requires Digits(b, buf[..])
    ensures s == Minimal(b, Value(b, buf[..]))
  {
    var it := 0;
    while it < buf.Length && buf[it] == 0
      invariant 0 <= it <= buf.Length && forall k :: 0 <= k < it ==> buf[k] == 0
    {
      it := it + 1;
    }
    s := buf[it..];
    assert buf[..] == buf[..it] + s;
    ValueZeros(b, buf[..it], s);
    MinimalOfValue(b, s);
  }

  method NewBuffer(n: nat, b: Base) returns (buf: array<nat>)
    ensures fresh(buf) && buf.Length == n && Digits(b, buf[..]) && Value(b, buf[..]) == 0
  {
    buf := new nat[n](_ => 0);
    ValueZeros(b, buf[..], []);
    assert buf[..] + [] == buf[..];
  }
}
