/** Amount compression (CTxOutCompressor in src/core.cpp), in unsigned 64-bit arithmetic,
    and as a bijection of the natural numbers. */
module Amounts {
  import opened Words

  // --- On the naturals --------------------------------------------------------------------

  /** n without up to nine trailing zeros, and how many there were. */
  function Strip(n: nat, e: nat): (nat, nat)
    requires n > 0 && e <= 9
    decreases 9 - e
  {
    if n % 10 == 0 && e < 9 then Strip(n / 10, e + 1) else (n, e)
  }

  function Tens(n: nat, e: nat): nat { if e == 0 then n else 10 * Tens(n, e - 1) }

  function Compress(n: nat): nat {
    if n == 0 then 0
    else
      var (m, e) := Strip(n, 0);
      if e < 9 then 1 + (m / 10 * 9 + m % 10 - 1) * 10 + e else 1 + (m - 1) * 10 + 9
  }

  function Decompress(x: nat): nat {
    if x == 0 then 0
    else
      var e, y := (x - 1) % 10, (x - 1) / 10;
      if e < 9 then Tens(y / 9 * 10 + y % 9 + 1, e) else Tens(y + 1, 9)
  }

  lemma {:induction false} StripTens(n: nat, e: nat)
    requires n > 0 && e <= 9
    ensures var (m, f) := Strip(n, e);
      m > 0 && e <= f <= 9 && n == Tens(m, f - e) && (f < 9 ==> m % 10 != 0)
    decreases 9 - e
  {
    if n % 10 == 0 && e < 9 {
      StripTens(n / 10, e + 1);
      var (m, f) := Strip(n, e);
      assert Tens(m, f - e) == 10 * Tens(m, f - e - 1);
    }
  }

  lemma {:induction false} StripOfTens(m: nat, k: nat, e: nat)
    requires m > 0 && k + e <= 9 && (m % 10 != 0 || k + e == 9)
    ensures Tens(m, k) > 0 && Strip(Tens(m, k), e) == (m, k + e)
  {
    if k > 0 {
      StripOfTens(m, k - 1, e + 1);
      assert Tens(m, k) % 10 == 0 && Tens(m, k) / 10 == Tens(m, k - 1);
    }
  }

  lemma {:induction false} DecompressCompress(n: nat)
    ensures Decompress(Compress(n)) == n
  {
    if n > 0 {
      StripTens(n, 0);
      var (m, e) := Strip(n, 0);
      if e < 9 {
        var y := m / 10 * 9 + m % 10 - 1;
        assert (Compress(n) - 1) % 10 == e && (Compress(n) - 1) / 10 == y;
        assert y / 9 == m / 10 && y % 9 == m % 10 - 1;
      } else {
        assert (Compress(n) - 1) % 10 == 9 && (Compress(n) - 1) / 10 == m - 1;
      }
    }
  }

  lemma {:induction false} CompressDecompress(x: nat)
    ensures Compress(Decompress(x)) == x
  {
    if x > 0 {
      var e, y := (x - 1) % 10, (x - 1) / 10;
      if e < 9 {
        var m := y / 9 * 10 + y % 9 + 1;
        assert m % 10 == y % 9 + 1 && m / 10 == y / 9;
        StripOfTens(m, e, 0);
      } else {
        StripOfTens(y + 1, 9, 0);
      }
    }
  }

  // --- On 64 bits --------------------------------------------------------------------------------

  /** CompressAmount: the bijection, reduced to 64 bits. */
  method CompressAmount(n0: nat) returns (x: nat)
    requires n0 < WORD64
    ensures x == Compress(n0) % WORD64
  {
    if n0 == 0 {
      return 0;
    }
    var n, e := n0, 0;
    while n % 10 == 0 && e < 9
      invariant n > 0 && 0 <= e <= 9 && Strip(n, e) == Strip(n0, 0)
      decreases 9 - e
    {
      n := n / 10;
      e := e + 1;
    }
    if e < 9 {
      var d := n % 10;
      assert 1 <= d <= 9;
      n := n / 10;
      x := (1 + (n * 9 + d - 1) * 10 + e) % WORD64;
    } else {
      x := (1 + (n - 1) * 10 + 9) % WORD64;
    }
  }

  /** DecompressAmount: the inverse, reduced to 64 bits. */
  method DecompressAmount(x0: nat) returns (n: nat)
    requires x0 < WORD64
    ensures n == Decompress(x0) % WORD64
  {
    if x0 == 0 {
      return 0;
    }
    var x := x0 - 1;
    var e := x % 10;
    x := x / 10;
    if e < 9 {
      var d := x % 9 + 1;
      x := x / 9;
      n := (x * 10 + d) % WORD64;
      assert Decompress(x0) == Tens(x * 10 + d, e);
    } else {
      n := (x + 1) % WORD64;
      assert Decompress(x0) == Tens(x + 1, e);
    }
    ghost var m: nat := if e < 9 then x * 10 + (x0 - 1) / 10 % 9 + 1 else x + 1;
    while e > 0
      invariant 0 <= e <= 9 && n == m % WORD64 && Tens(m, e) == Decompress(x0)
      decreases e
    {
      TensIn(m, e);
      TimesTen(m);
      n := 10 * n % WORD64;
      e := e - 1;
      m := 10 * m;
    }
  }

  lemma {:induction false} TensIn(m: nat, e: nat)
    requires e > 0
    ensures Tens(m, e) == Tens(10 * m, e - 1)
  {
    if e > 1 {
      TensIn(m, e - 1);
    }
  }

  lemma {:induction false} TimesTen(m: nat)
    ensures 10 * (m % WORD64) % WORD64 == 10 * m % WORD64
  {}

  const MAX_MONEY: nat := 2_800_000_000_000_000

  /** Within the money range nothing is lost to 64 bits. */
  lemma {:induction false} CompressBound(n: nat)
    ensures Compress(n) <= 10 * n
  {
    if n > 0 {
      StripTens(n, 0);
      var (m, e) := Strip(n, 0);
      TensGrow(m, e);
    }
  }

  lemma {:induction false} TensGrow(m: nat, e: nat)
    ensures Tens(m, e) >= m && (m > 0 ==> Tens(m, e) >= m + e)
  {
    if e > 0 {
      TensGrow(m, e - 1);
    }
  }

  lemma {:induction false} MoneyRoundTrip(n: nat)
    requires n <= MAX_MONEY
    ensures MAX_MONEY == 28_000_000 * 100_000_000
    ensures Compress(n) < WORD64 && Decompress(Compress(n) % WORD64) % WORD64 == n
  {
    hide Compress, Decompress;
    CompressBound(n);
    DecompressCompress(n);
    SmallMod(Compress(n));
    SmallMod(n);
  }

  lemma {:induction false} SmallMod(x: nat)
    requires x < WORD64
    ensures x % WORD64 == x
  {}
}
