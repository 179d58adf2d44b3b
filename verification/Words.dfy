/** Unsigned machine words as naturals, with the bitwise operators of C defined
    bit by bit, and the correspondence with bit strings. */
module Words {

  /** Unsigned 8-bit quantity. */
  type Byte = x: nat | x < 256

  const WORD32: nat := 0x1_0000_0000
  const WORD64: nat := 0x1_0000_0000_0000_0000

  function Pow2(n: nat): (p: nat)
    ensures p > 0
  {
    if n == 0 then 1 else 2 * Pow2(n - 1)
  }

  /** n copies of x. */
  function Repeat<T>(x: T, n: nat): (s: seq<T>)
    ensures |s| == n && forall k :: 0 <= k < n ==> s[k] == x
  {
    seq(n, _ => x)
  }

  lemma {:induction false} RepeatCounts<T>(s: seq<T>, i: nat, j: nat)
    requires i < j < |s| && s[i] == s[j]
    ensures multiset(s)[s[i]] >= 2
  {
    assert s == s[..j] + [s[j]] + s[j + 1..];
    assert s[..j][i] == s[i];
    assert s[i] in multiset(s[..j]);
  }

  lemma {:induction false} Pick<T>(s: set<T>) returns (x: T)
    requires s != {}
    ensures x in s
  {
    x :| x in s;
  }

  function Min(a: nat, b: nat): nat { if a <= b then a else b }
  function Max(a: nat, b: nat): nat { if a >= b then a else b }

  // --- Operators ------------------------------------------------------------

  /** Bit i of v, counting from the least significant. */
  predicate Bit(v: nat, i: nat) {
    if i == 0 then v % 2 == 1 else Bit(v / 2, i - 1)
  }

  function Shr(v: nat, n: nat): nat {
    if n == 0 then v else Shr(v / 2, n - 1)
  }

  /** Left shift of a 32-bit word: bits leaving the word are lost. */
  function Shl32(v: nat, n: nat): nat
    decreases n
  {
    if n == 0 then v % WORD32 else Shl32(2 * v % WORD32, n - 1)
  }

  function And(x: nat, y: nat): nat {
    if x == 0 then 0 else 2 * And(x / 2, y / 2) + (if x % 2 == 1 && y % 2 == 1 then 1 else 0)
  }

  function Or(x: nat, y: nat): nat
    decreases x + y
  {
    if x == 0 && y == 0 then 0
    else 2 * Or(x / 2, y / 2) + (if x % 2 == 1 || y % 2 == 1 then 1 else 0)
  }

  /** (1 << n) - 1 */
  function Mask(n: nat): nat {
    if n == 0 then 0 else 2 * Mask(n - 1) + 1
  }

  // --- Their bits -----------------------------------------------------------

  lemma {:induction false} BitOfShr(v: nat, n: nat, i: nat)
    ensures Bit(Shr(v, n), i) == Bit(v, n + i)
    decreases n
  {
    if n > 0 { BitOfShr(v / 2, n - 1, i); }
  }

  lemma {:induction false} BitOfAnd(x: nat, y: nat, i: nat)
    ensures Bit(And(x, y), i) == (Bit(x, i) && Bit(y, i))
    decreases i
  {
    if x == 0 {
      BitOfZero(i);
    } else if i > 0 {
      BitOfAnd(x / 2, y / 2, i - 1);
    }
  }

  lemma {:induction false} BitOfOr(x: nat, y: nat, i: nat)
    ensures Bit(Or(x, y), i) == (Bit(x, i) || Bit(y, i))
    decreases i
  {
    if x == 0 && y == 0 {
      BitOfZero(i);
    } else if i > 0 {
      BitOfOr(x / 2, y / 2, i - 1);
    }
  }

  lemma {:induction false} BitOfZero(i: nat)
    ensures !Bit(0, i)
  {
    if i > 0 { BitOfZero(i - 1); }
  }

  lemma {:induction false} BitOfMask(n: nat, i: nat)
    ensures Bit(Mask(n), i) == (i < n)
    decreases n
  {
    if n == 0 { BitOfZero(i); } else if i > 0 { BitOfMask(n - 1, i - 1); }
  }

  lemma {:induction false} BitOfMod(v: nat, m: nat, n: nat, i: nat)
    requires m == Mask(n) + 1
    ensures Bit(v % m, i) == (i < n && Bit(v, i))
    decreases n
  {
    if n == 0 {
      BitOfZero(i);
    } else {
      var k := Mask(n - 1) + 1;
      assert m == 2 * k;
      HalfMod(v, k);
      if i > 0 { BitOfMod(v / 2, k, n - 1, i - 1); }
    }
  }

  lemma {:induction false} HalfMod(v: nat, k: nat)
    requires k > 0
    ensures v % (2 * k) / 2 == (v / 2) % k && v % (2 * k) % 2 == v % 2
  {
    var q, r := (v / 2) / k, (v / 2) % k;
    var p := k * q;
    assert v / 2 == p + r;
    assert v == 2 * p + (2 * r + v % 2);
    assert 2 * p == (2 * k) * q;
    RemainderUnique(v, 2 * k, q, 2 * r + v % 2);
  }

  lemma {:induction false} RemainderUnique(v: nat, m: nat, q: nat, r: nat)
    requires r < m && v == m * q + r
    ensures v % m == r && v / m == q
  {
    var q1 := v / m;
    assert v == m * q1 + v % m;
    if q1 > q { MulGap(m, q, q1); assert false; }
    if q1 < q { MulGap(m, q1, q); assert false; }
  }

  lemma {:induction false} MulGap(m: nat, x: nat, y: nat)
    requires x < y
    ensures m * x + m <= m * y
  {
    MulMono(x + 1, y, m);
    MulSucc(x, m);
  }

  lemma {:induction false} MulMono(x: nat, y: nat, m: nat)
    requires x <= y
    ensures x * m <= y * m
  {}

  lemma {:induction false} MulDist(x: nat, y: nat, m: nat)
    ensures (x + y) * m == x * m + y * m
  {}

  lemma {:induction false} MulSucc(x: nat, m: nat)
    ensures (x + 1) * m == x * m + m
  {}

  lemma {:induction false} BitOfShl32(v: nat, n: nat, i: nat)
    requires v < WORD32
    ensures Bit(Shl32(v, n), i) == (n <= i < 32 && Bit(v, i - n))
    decreases n
  {
    if n == 0 {
      Mask32();
      BitOfMod(v, WORD32, 32, i);
    } else {
      BitOfShl32(2 * v % WORD32, n - 1, i);
      if i >= n - 1 { BitOfDouble(v, i - n + 1); }
    }
  }

  lemma {:induction false} BitOfDouble(v: nat, i: nat)
    ensures Bit(2 * v % WORD32, i) == (1 <= i < 32 && Bit(v, i - 1))
  {
    hide Mask;
    Mask32();
    BitOfMod(2 * v, WORD32, 32, i);
  }

  lemma {:induction false} Mask32()
    ensures Mask(32) + 1 == WORD32
  {
    assert Mask(4) == 15;
    assert Mask(8) == 0xFF;
    assert Mask(12) == 0xFFF;
    assert Mask(16) == 0xFFFF;
    assert Mask(20) == 0xFFFFF;
    assert Mask(24) == 0xFFFFFF;
    assert Mask(28) == 0xFFFFFFF;
  }

  // --- Bit strings ----------------------------------------------------------

  /** The n low bits of v, most significant first. */
  function Bits(v: nat, n: nat): (s: seq<bool>)
    ensures |s| == n
  {
    seq(n, i requires 0 <= i < n => Bit(v, n - 1 - i))
  }

  /** The number a big-endian bit string denotes. */
  function Num(s: seq<bool>): nat {
    if s == [] then 0 else 2 * Num(s[..|s| - 1]) + (if s[|s| - 1] then 1 else 0)
  }

  lemma {:induction false} NumBits(s: seq<bool>, i: nat)
    ensures Bit(Num(s), i) == (i < |s| && s[|s| - 1 - i])
    decreases |s|
  {
    if s == [] { BitOfZero(i); } else if i > 0 { NumBits(s[..|s| - 1], i - 1); }
  }

  lemma {:induction false} NumBound(s: seq<bool>)
    ensures Num(s) <= Mask(|s|)
  {
    if s != [] { NumBound(s[..|s| - 1]); }
  }

  lemma {:induction false} BitsOfNum(s: seq<bool>)
    ensures Bits(Num(s), |s|) == s
  {
    forall i | 0 <= i < |s| ensures Bits(Num(s), |s|)[i] == s[i] { NumBits(s, |s| - 1 - i); }
  }

  /** A number is determined by its bits. */
  lemma {:induction false} BitsExtensional(x: nat, y: nat)
    requires forall i: nat :: Bit(x, i) == Bit(y, i)
    ensures x == y
    decreases x + y
  {
    assert Bit(x, 0) == Bit(y, 0);
    if x + y > 0 {
      forall i: nat ensures Bit(x / 2, i) == Bit(y / 2, i) {
        assert Bit(x, i + 1) == Bit(y, i + 1);
      }
      BitsExtensional(x / 2, y / 2);
    }
  }

  lemma {:induction false} HighBitsClear(v: nat, n: nat, i: nat)
    requires v <= Mask(n) && n <= i
    ensures !Bit(v, i)
  {
    if n == 0 { BitOfZero(i); } else { HighBitsClear(v / 2, n - 1, i - 1); }
  }

  lemma {:induction false} LowBitsOnly(v: nat, n: nat)
    requires forall i: nat :: n <= i ==> !Bit(v, i)
    ensures v <= Mask(n)
  {
    if n == 0 {
      forall i: nat ensures Bit(v, i) == Bit(0, i) { BitOfZero(i); }
      BitsExtensional(v, 0);
    } else {
      forall i: nat | n - 1 <= i ensures !Bit(v / 2, i) { assert !Bit(v, i + 1); }
      LowBitsOnly(v / 2, n - 1);
    }
  }

  lemma {:induction false} NumOfBits(v: nat, n: nat)
    requires v <= Mask(n)
    ensures Num(Bits(v, n)) == v
  {
    forall i: nat ensures Bit(Num(Bits(v, n)), i) == Bit(v, i) {
      NumBits(Bits(v, n), i);
      if n <= i { HighBitsClear(v, n, i); }
    }
    BitsExtensional(Num(Bits(v, n)), v);
  }
}
