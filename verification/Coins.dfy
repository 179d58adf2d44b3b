/** CCoins (src/coins.h, src/coins.cpp): the unspent outputs of one transaction and their
    stored form. A stream is a sequence of items; VARINT and script encodings are not
    modelled. */
module Coins {
  import opened Amounts
  import opened Words

  type Script = seq<Byte>

  datatype TxOut = TxOut(nValue: int, script: Script) {
    predicate IsNull() { nValue == -1 }
  }

  const NULL_OUT: TxOut := TxOut(-1, [])

  /** The fields of a CCoins. */
  datatype Coins = Coins(fCoinBase: bool, vout: seq<TxOut>, nHeight: int, nVersion: int)

  datatype Token = VarInt(n: int) | Mask(b: nat) | Output(nVal: nat, script: Script)

  predicate IsPruned(c: Coins) { forall i :: 0 <= i < |c.vout| ==> c.vout[i].IsNull() }

  predicate Available(vout: seq<TxOut>, i: nat) { i < |vout| && !vout[i].IsNull() }

  /** Without spent outputs at the end. */
  function Cleaned(vout: seq<TxOut>): (r: seq<TxOut>)
    ensures |r| <= |vout| && r == vout[..|r|] && (r != [] ==> !r[|r| - 1].IsNull())
    ensures forall i :: |r| <= i < |vout| ==> vout[i].IsNull()
  {
    if vout != [] && vout[|vout| - 1].IsNull() then Cleaned(vout[..|vout| - 1]) else vout
  }

  /** Every amount but -1 stands for an output, zero included; pruned coins have none left. */
  lemma {:induction false} PrunedIs(c: Coins)
    ensures forall v: int, script: Script :: Available([TxOut(v, script)], 0) <==> v != -1
    ensures IsPruned(c) <==> forall i: nat :: !Available(c.vout, i)
    ensures IsPruned(c) <==> Cleaned(c.vout) == []
  {
    hide Cleaned;
    var r := Cleaned(c.vout);
    if r != [] {
      assert Available(c.vout, |r| - 1);
    }
    if !IsPruned(c) {
      var i :| 0 <= i < |c.vout| && !c.vout[i].IsNull();
      assert Available(c.vout, i);
    }
  }

  /** What Spend, Cleanup and construction leave: no null output at the end, and null outputs
      carry no script. */
  predicate Tidy(c: Coins) {
    && Cleaned(c.vout) == c.vout
    && forall i :: 0 <= i < |c.vout| && c.vout[i].IsNull() ==> c.vout[i] == NULL_OUT
  }

  predicate InRange(c: Coins) {
    forall i :: 0 <= i < |c.vout| && !c.vout[i].IsNull() ==> 0 <= c.vout[i].nValue <= MAX_MONEY
  }

  // --- The availability mask -------------------------------------------------------------

  /** Outputs 2 + 8b up to seven more, as bits. */
  function Group(vout: seq<TxOut>, b: nat): (r: seq<bool>)
    ensures |r| == 8 && forall i :: 0 <= i < 8 ==> r[i] == Available(vout, 2 + 8 * b + i)
  {
    seq(8, i requires 0 <= i < 8 => Available(vout, 2 + 8 * b + i))
  }

  /** Bits as a number, least significant first. */
  function Lsb(s: seq<bool>): nat { if s == [] then 0 else (if s[0] then 1 else 0) + 2 * Lsb(s[1..]) }

  function MaskByte(vout: seq<TxOut>, b: nat): nat { Lsb(Group(vout, b)) }

  lemma {:induction false} LsbBit(s: seq<bool>, p: nat)
    ensures Bit(Lsb(s), p) == (p < |s| && s[p])
    decreases |s|
  {
    if s == [] {
      BitOfZero(p);
    } else if p > 0 {
      LsbBit(s[1..], p - 1);
    }
  }

  lemma {:induction false} LsbZero(s: seq<bool>)
    ensures Lsb(s) == 0 <==> forall i :: 0 <= i < |s| ==> !s[i]
  {
    if Lsb(s) == 0 {
      forall i | 0 <= i < |s| ensures !s[i] { LsbBit(s, i); BitOfZero(i); }
    } else if forall i :: 0 <= i < |s| ==> !s[i] {
      forall p: nat ensures Bit(Lsb(s), p) == Bit(0, p) { LsbBit(s, p); BitOfZero(p); }
      BitsExtensional(Lsb(s), 0);
    }
  }

  /** The bits of a mask byte, as the reader takes them. */
  function Bits8(v: nat): (r: seq<bool>)
    ensures |r| == 8
  {
    seq(8, p requires 0 <= p < 8 => Bit(v, p))
  }

  lemma {:induction false} Bits8Lsb(s: seq<bool>)
    requires |s| == 8
    ensures Bits8(Lsb(s)) == s
  {
    forall p | 0 <= p < 8 ensures Bits8(Lsb(s))[p] == s[p] { LsbBit(s, p); }
  }

  function GroupUsed(vout: seq<TxOut>, b: nat): bool { MaskByte(vout, b) != 0 }

  /** The last used group among the first n, plus one, and how many are used. */
  function MaskSize(vout: seq<TxOut>, n: nat): nat {
    if n == 0 then 0 else if GroupUsed(vout, n - 1) then n else MaskSize(vout, n - 1)
  }

  function MaskCode(vout: seq<TxOut>, n: nat): nat {
    if n == 0 then 0 else MaskCode(vout, n - 1) + (if GroupUsed(vout, n - 1) then 1 else 0)
  }

  /** Groups that reach into vout. */
  function Groups(vout: seq<TxOut>): (n: nat)
    ensures forall b: nat :: 2 + 8 * b < |vout| <==> b < n
  {
    if |vout| <= 2 then 0 else (|vout| - 2 + 7) / 8
  }

  // --- The stored form -----------------------------------------------------------------------

  function Code(c: Coins): int {
    var first, second := Available(c.vout, 0), Available(c.vout, 1);
    8 * (MaskCode(c.vout, Groups(c.vout)) - (if first || second then 0 else 1))
      + (if c.fCoinBase then 1 else 0) + (if first then 2 else 0) + (if second then 4 else 0)
  }

  function MaskTokens(vout: seq<TxOut>, b: nat, n: nat): seq<Token>
    requires b <= n
    decreases n - b
  {
    if b == n then [] else [Mask(MaskByte(vout, b))] + MaskTokens(vout, b + 1, n)
  }

  /** CTxOutCompressor: a stored output. */
  function OutToken(o: TxOut): (t: Token)
    ensures t.Output?
  {
    Output(Compress(o.nValue % WORD64) % WORD64, o.script)
  }

  function OutTokens(vout: seq<TxOut>): seq<Token> {
    if vout == [] then []
    else (if vout[0].IsNull() then [] else [OutToken(vout[0])]) + OutTokens(vout[1..])
  }

  function Stored(c: Coins): seq<Token> {
    [VarInt(c.nVersion), VarInt(Code(c))] +
      (MaskTokens(c.vout, 0, MaskSize(c.vout, Groups(c.vout))) + (OutTokens(c.vout) + [VarInt(c.nHeight)]))
  }

  // --- Reading -----------------------------------------------------------------------------------

  /** The end of the stream, or something else in it, is an exception. */
  datatype Reading<T> = Failed | Read(value: T, rest: seq<Token>)

  function ReadMask(s: seq<Token>, nMaskCode: nat, avail: seq<bool>): Reading<seq<bool>>
    decreases |s|
  {
    if nMaskCode == 0 then Read(avail, s)
    else if s == [] || !s[0].Mask? then Failed
    else ReadMask(s[1..], if s[0].b != 0 then nMaskCode - 1 else nMaskCode, avail + Bits8(s[0].b))
  }

  /** A 64-bit pattern as a signed number. */
  function ToInt64(v: nat): int
    requires v < WORD64
  {
    if v < WORD64 / 2 then v else v - WORD64
  }

  lemma {:induction false} ToInt64Is(v: nat)
    requires v < WORD64
    ensures -0x8000_0000_0000_0000 <= ToInt64(v) < 0x8000_0000_0000_0000 && ToInt64(v) % WORD64 == v
  {}

  function ReadOut(t: Token): TxOut
    requires t.Output?
  {
    TxOut(ToInt64(Decompress(t.nVal % WORD64) % WORD64), t.script)
  }

  function ReadOuts(s: seq<Token>, avail: seq<bool>): Reading<seq<TxOut>>
    decreases |avail|
  {
    if avail == [] then Read([], s)
    else if !avail[0] then
      var r := ReadOuts(s, avail[1..]);
      if r.Failed? then Failed else Read([NULL_OUT] + r.value, r.rest)
    else if s == [] || !s[0].Output? then Failed
    else
      var r := ReadOuts(s[1..], avail[1..]);
      if r.Failed? then Failed else Read([ReadOut(s[0])] + r.value, r.rest)
  }

  function Reader(s: seq<Token>): Reading<Coins> {
    if |s| < 2 || !s[0].VarInt? || !s[1].VarInt? || s[1].n < 0 then Failed
    else
      var nCode := s[1].n;
      var first, second := nCode / 2 % 2 == 1, nCode / 4 % 2 == 1;
      var m := ReadMask(s[2..], nCode / 8 + (if first || second then 0 else 1), [first, second]);
      if m.Failed? then Failed
      else
        var o := ReadOuts(m.rest, m.value);
        if o.Failed? || o.rest == [] || !o.rest[0].VarInt? then Failed
        else Read(Coins(nCode % 2 == 1, Cleaned(o.value), o.rest[0].n, s[0].n), o.rest[1..])
  }

  // --- Round trip -----------------------------------------------------------------------------------

  lemma {:induction false} MaskFacts(vout: seq<TxOut>, n: nat)
    ensures MaskSize(vout, n) <= n && MaskCode(vout, MaskSize(vout, n)) == MaskCode(vout, n)
    ensures MaskSize(vout, n) > 0 ==> GroupUsed(vout, MaskSize(vout, n) - 1)
    ensures forall b: nat :: MaskSize(vout, n) <= b < n ==> !GroupUsed(vout, b)
  {
    hide GroupUsed;
    if n > 0 && !GroupUsed(vout, n - 1) {
      MaskFacts(vout, n - 1);
    }
  }

  lemma {:induction false} CodeGrows(vout: seq<TxOut>, b: nat, n: nat)
    requires b <= n
    ensures MaskCode(vout, b) <= MaskCode(vout, n)
    ensures b < n && GroupUsed(vout, n - 1) ==> MaskCode(vout, b) < MaskCode(vout, n)
  {
    hide GroupUsed;
    if b < n {
      CodeGrows(vout, b, n - 1);
    }
  }

  /** The bits of groups b to n. */
  function GroupBits(vout: seq<TxOut>, b: nat, n: nat): seq<bool>
    requires b <= n
    decreases n - b
  {
    if b == n then [] else Group(vout, b) + GroupBits(vout, b + 1, n)
  }

  lemma {:induction false} CodeNext(vout: seq<TxOut>, b: nat)
    ensures MaskCode(vout, b + 1) == MaskCode(vout, b) + (if GroupUsed(vout, b) then 1 else 0)
  {}

  lemma {:induction false} ReadMaskStep(s: seq<Token>, n: nat, avail: seq<bool>)
    requires s != [] && s[0].Mask? && n > 0
    ensures ReadMask(s, n, avail) == ReadMask(s[1..], if s[0].b != 0 then n - 1 else n, avail + Bits8(s[0].b))
  {}

  lemma {:induction false} ReadMaskEnd(s: seq<Token>, avail: seq<bool>)
    ensures ReadMask(s, 0, avail) == Read(avail, s)
  {}

  /** The reader is told only how many bytes are not zero, and stops after the last. */
  lemma {:induction false} ReadsMask(vout: seq<TxOut>, b: nat, n: nat, left: nat, avail: seq<bool>, rest: seq<Token>)
    requires b <= n && (n > 0 ==> GroupUsed(vout, n - 1)) && MaskCode(vout, n) == MaskCode(vout, b) + left
    ensures ReadMask(MaskTokens(vout, b, n) + rest, left, avail) == Read(avail + GroupBits(vout, b, n), rest)
    decreases n - b
  {
    hide Group, Lsb, Bits8, MaskCode, ReadMask, MaskByte, GroupUsed;
    if b == n {
      assert MaskTokens(vout, b, n) + rest == rest && avail + [] == avail;
      ReadMaskEnd(rest, avail);
    } else {
      CodeGrows(vout, b, n);
      CodeGrows(vout, b + 1, n);
      CodeNext(vout, b);
      var s := MaskTokens(vout, b, n) + rest;
      assert s[0] == Mask(MaskByte(vout, b)) && s[1..] == MaskTokens(vout, b + 1, n) + rest;
      ReadMaskStep(s, left, avail);
      MaskByteBits(vout, b);
      ReadsMask(vout, b + 1, n, if GroupUsed(vout, b) then left - 1 else left, avail + Group(vout, b), rest);
      assert avail + Group(vout, b) + GroupBits(vout, b + 1, n) == avail + GroupBits(vout, b, n);
    }
  }

  lemma {:induction false} MaskByteBits(vout: seq<TxOut>, b: nat)
    ensures Bits8(MaskByte(vout, b)) == Group(vout, b) && (MaskByte(vout, b) != 0 <==> GroupUsed(vout, b))
  {
    hide Lsb, Bits8;
    Bits8Lsb(Group(vout, b));
  }

  lemma {:induction false} GroupBitsAre(vout: seq<TxOut>, b: nat, n: nat)
    requires b <= n
    ensures |GroupBits(vout, b, n)| == 8 * (n - b)
    ensures forall i :: 0 <= i < 8 * (n - b) ==> GroupBits(vout, b, n)[i] == Available(vout, 2 + 8 * b + i)
    decreases n - b
  {
    hide Available;
    if b < n {
      GroupBitsAre(vout, b + 1, n);
      forall i | 0 <= i < 8 * (n - b) ensures GroupBits(vout, b, n)[i] == Available(vout, 2 + 8 * b + i) {
        if i >= 8 {
          assert GroupBits(vout, b, n)[i] == GroupBits(vout, b + 1, n)[i - 8];
        }
      }
    }
  }

  /** Every available output comes back, and every other one as a null output. */
  lemma {:induction false} ReadsOuts(vout: seq<TxOut>, avail: seq<bool>, rest: seq<Token>)
    requires |vout| <= |avail| && forall i :: 0 <= i < |avail| ==> avail[i] == Available(vout, i)
    requires forall i :: 0 <= i < |vout| && vout[i].IsNull() ==> vout[i] == NULL_OUT
    requires forall i :: 0 <= i < |vout| && !vout[i].IsNull() ==> 0 <= vout[i].nValue <= MAX_MONEY
    ensures ReadOuts(OutTokens(vout) + rest, avail) == Read(vout + Repeat(NULL_OUT, |avail| - |vout|), rest)
    decreases |avail|
  {
    hide OutToken, ReadOut;
    if avail == [] {
      assert OutTokens(vout) + rest == rest && vout + Repeat(NULL_OUT, 0) == [];
    } else if vout == [] {
      ReadsOuts(vout, avail[1..], rest);
      assert !avail[0];
      assert [NULL_OUT] + (vout + Repeat(NULL_OUT, |avail| - 1)) == vout + Repeat(NULL_OUT, |avail|);
    } else {
      forall i | 0 <= i < |avail| - 1 ensures avail[1..][i] == Available(vout[1..], i) {
        assert avail[i + 1] == Available(vout, i + 1);
      }
      ReadsOuts(vout[1..], avail[1..], rest);
      var more := vout[1..] + Repeat(NULL_OUT, |avail| - |vout|);
      assert [vout[0]] + more == vout + Repeat(NULL_OUT, |avail| - |vout|);
      ReadsFirst(vout, avail, rest, more);
    }
  }

  lemma {:induction false} ReadsFirst(vout: seq<TxOut>, avail: seq<bool>, rest: seq<Token>, more: seq<TxOut>)
    requires vout != [] && avail != [] && avail[0] != vout[0].IsNull()
    requires if vout[0].IsNull() then vout[0] == NULL_OUT else 0 <= vout[0].nValue <= MAX_MONEY
    requires ReadOuts(OutTokens(vout[1..]) + rest, avail[1..]) == Read(more, rest)
    ensures ReadOuts(OutTokens(vout) + rest, avail) == Read([vout[0]] + more, rest)
  {
    hide OutTokens, ReadOuts, OutToken, ReadOut;
    var tail := OutTokens(vout[1..]) + rest;
    FirstToken(vout, rest);
    if vout[0].IsNull() {
      ReadsSpent(tail, avail);
    } else {
      OutRoundTrip(vout[0]);
      ReadsOne(OutToken(vout[0]), tail, avail);
    }
  }

  lemma {:induction false} FirstToken(vout: seq<TxOut>, rest: seq<Token>)
    requires vout != []
    ensures var tail := OutTokens(vout[1..]) + rest;
      OutTokens(vout) + rest == if vout[0].IsNull() then tail else [OutToken(vout[0])] + tail
  {
    hide OutToken;
    var tail := OutTokens(vout[1..]) + rest;
    assert OutTokens(vout) + rest == if vout[0].IsNull() then tail else [OutToken(vout[0])] + tail;
  }

  lemma {:induction false} ReadsSpent(s: seq<Token>, avail: seq<bool>)
    requires avail != [] && !avail[0]
    ensures var r := ReadOuts(s, avail[1..]);
      ReadOuts(s, avail) == if r.Failed? then Failed else Read([NULL_OUT] + r.value, r.rest)
  {}

  lemma {:induction false} ReadsOne(t: Token, s: seq<Token>, avail: seq<bool>)
    requires avail != [] && avail[0] && t.Output?
    ensures var r := ReadOuts(s, avail[1..]);
      ReadOuts([t] + s, avail) == if r.Failed? then Failed else Read([ReadOut(t)] + r.value, r.rest)
  {
    hide ReadOut;
    assert ([t] + s)[1..] == s;
  }

  lemma {:induction false} OutRoundTrip(o: TxOut)
    requires 0 <= o.nValue <= MAX_MONEY
    ensures ReadOut(OutToken(o)) == o
  {
    hide Compress, Decompress;
    MoneyRoundTrip(o.nValue);
    SmallMod(o.nValue);
    SmallMod(Compress(o.nValue));
  }

  lemma {:induction false} CleanedNulls(vout: seq<TxOut>, n: nat)
    ensures Cleaned(vout + Repeat(NULL_OUT, n)) == Cleaned(vout)
  {
    if n == 0 {
      assert vout + Repeat(NULL_OUT, 0) == vout;
    } else {
      CleanedNulls(vout, n - 1);
      var s := vout + Repeat(NULL_OUT, n);
      assert s[..|s| - 1] == vout + Repeat(NULL_OUT, n - 1) && s[|s| - 1] == NULL_OUT;
    }
  }

  /** The mask reaches the end of the outputs. */
  lemma {:induction false} MaskReaches(vout: seq<TxOut>)
    requires Cleaned(vout) == vout
    ensures |vout| <= 2 + 8 * MaskSize(vout, Groups(vout))
  {
    var n := Groups(vout);
    if |vout| > 2 {
      var b := n - 1;
      var i := |vout| - 1 - (2 + 8 * b);
      assert Group(vout, b)[i];
      LsbZero(Group(vout, b));
    }
  }

  lemma {:induction false} CodeParts(c: Coins)
    requires !IsPruned(c)
    ensures var first, second := Available(c.vout, 0), Available(c.vout, 1);
      var m := MaskCode(c.vout, Groups(c.vout));
      && (first || second || m > 0) && Code(c) >= 0 && (Code(c) % 2 == 1 <==> c.fCoinBase)
      && (Code(c) / 2 % 2 == 1 <==> first) && (Code(c) / 4 % 2 == 1 <==> second)
      && Code(c) / 8 + (if first || second then 0 else 1) == m
  {
    hide MaskCode;
    var first, second := Available(c.vout, 0), Available(c.vout, 1);
    if !first && !second {
      var i :| 0 <= i < |c.vout| && !c.vout[i].IsNull();
      UsedCounts(c.vout, (i - 2) / 8, Groups(c.vout), (i - 2) % 8);
    }
    CodeBits(MaskCode(c.vout, Groups(c.vout)), c.fCoinBase, first, second);
  }

  lemma {:induction false} CodeBits(m: nat, f0: bool, f1: bool, f2: bool)
    requires f1 || f2 || m > 0
    ensures var code := 8 * (m - (if f1 || f2 then 0 else 1)) + (if f0 then 1 else 0) + (if f1 then 2 else 0)
      + (if f2 then 4 else 0);
      && code >= 0 && (code % 2 == 1 <==> f0) && (code / 2 % 2 == 1 <==> f1) && (code / 4 % 2 == 1 <==> f2)
      && code / 8 + (if f1 || f2 then 0 else 1) == m
  {}

  lemma {:induction false} UsedCounts(vout: seq<TxOut>, b: nat, n: nat, i: nat)
    requires b < n && i < 8 && Available(vout, 2 + 8 * b + i)
    ensures GroupUsed(vout, b) && MaskCode(vout, n) > 0
  {
    hide Lsb, MaskCode, Bit;
    assert Group(vout, b)[i];
    LsbZero(Group(vout, b));
    CodeGrows(vout, 0, b + 1);
    CodeGrows(vout, b + 1, n);
  }

  /** What is written of coins that are not all spent reads back as the same coins. */
  lemma {:induction false} CoinsRoundTrip(c: Coins, rest: seq<Token>)
    requires !IsPruned(c) && Tidy(c) && InRange(c)
    ensures Reader(Stored(c) + rest) == Read(c, rest)
  {
    hide MaskTokens, OutTokens, ReadMask, ReadOuts, Code, MaskCode, MaskSize, Groups, Cleaned, GroupBits, Available,
      GroupUsed;
    var n := MaskSize(c.vout, Groups(c.vout));
    CodeParts(c);
    MaskFacts(c.vout, Groups(c.vout));
    MaskReaches(c.vout);
    var outs := OutTokens(c.vout) + ([VarInt(c.nHeight)] + rest);
    var s := Stored(c) + rest;
    assert s[2..] == MaskTokens(c.vout, 0, n) + outs by {
      assert OutTokens(c.vout) + [VarInt(c.nHeight)] + rest == outs;
    }
    var avail := [Available(c.vout, 0), Available(c.vout, 1)];
    NoCode(c.vout);
    ReadsMask(c.vout, 0, n, MaskCode(c.vout, n), avail, outs);
    GroupBitsAre(c.vout, 0, n);
    var bits := avail + GroupBits(c.vout, 0, n);
    ReadsOuts(c.vout, bits, [VarInt(c.nHeight)] + rest);
    CleanedNulls(c.vout, |bits| - |c.vout|);
  }

  lemma {:induction false} NoCode(vout: seq<TxOut>)
    ensures MaskCode(vout, 0) == 0
  {}

  // --- Spending and undoing --------------------------------------------------------------------

  /** What is kept of a spent output; the metadata only for the last output of its
      transaction. */
  datatype CTxInUndo = CTxInUndo(txout: TxOut, fCoinBase: bool, nHeight: int, nVersion: int)

  function Spent(c: Coins, n: nat): Coins
    requires Available(c.vout, n)
  {
    c.(vout := Cleaned(c.vout[n := NULL_OUT]))
  }

  function UndoOf(c: Coins, n: nat): CTxInUndo
    requires Available(c.vout, n)
  {
    if Spent(c, n).vout == [] then CTxInUndo(c.vout[n], c.fCoinBase, c.nHeight, c.nVersion)
    else CTxInUndo(c.vout[n], false, 0, 0)
  }

  /** Spending takes exactly one output away, and empties the coins exactly when it was the
      last one. */
  lemma {:induction false} SpentAvailable(c: Coins, n: nat)
    requires Available(c.vout, n)
    ensures forall i: nat :: Available(Spent(c, n).vout, i) == (i != n && Available(c.vout, i))
    ensures Spent(c, n).vout == [] <==> forall i: nat :: Available(c.vout, i) ==> i == n
  {
    hide Cleaned;
    var r := Spent(c, n).vout;
    forall i: nat ensures Available(r, i) == Available(c.vout[n := NULL_OUT], i) {
      CleanedAvailable(c.vout[n := NULL_OUT], i);
    }
    if r != [] {
      assert Available(r, |r| - 1);
    }
  }

  lemma {:induction false} CleanedAvailable(vout: seq<TxOut>, i: nat)
    ensures Available(Cleaned(vout), i) == Available(vout, i)
  {
    hide Cleaned;
    if |Cleaned(vout)| <= i < |vout| {
      assert vout[i].IsNull();
    } else if i < |vout| {
      assert Cleaned(vout)[i] == vout[i];
    }
  }

  function Resized(vout: seq<TxOut>, n: nat): (r: seq<TxOut>)
    ensures |r| == if |vout| < n then n else |vout|
  {
    if |vout| < n then vout + Repeat(NULL_OUT, n - |vout|) else vout
  }

  /** DisconnectBlock puts a spent output back into what the view holds. */
  function Restored(held: Coins, undo: CTxInUndo, n: nat): Coins {
    var c := if undo.nHeight != 0 then Coins(undo.fCoinBase, [], undo.nHeight, undo.nVersion) else held;
    c.(vout := Resized(c.vout, n + 1)[n := undo.txout])
  }

  /** It has nothing to complain about. */
  predicate UndoClean(held: Coins, undo: CTxInUndo, n: nat) {
    (undo.nHeight != 0 <==> IsPruned(held)) && (undo.nHeight == 0 ==> !Available(held.vout, n))
  }

  /** The view holds the coins left, or anything pruned when none are left. */
  ghost predicate Holds(held: Coins, c: Coins, n: nat)
    requires Available(c.vout, n)
  {
    if Spent(c, n).vout == [] then IsPruned(held) else held == Spent(c, n)
  }

  /** Spending and putting back changes nothing, unless the last output of a transaction at
      height 0 was spent: then nothing tells that the metadata is missing. */
  lemma {:induction false} SpendUndone(c: Coins, n: nat, held: Coins)
    requires Tidy(c) && Available(c.vout, n) && Holds(held, c, n)
    ensures UndoClean(held, UndoOf(c, n), n) <==> (c.nHeight != 0 || Spent(c, n).vout != [])
    ensures UndoClean(held, UndoOf(c, n), n) ==> Restored(held, UndoOf(c, n), n) == c
  {
    hide Cleaned;
    SpentAvailable(c, n);
    var left := Spent(c, n).vout;
    if left != [] {
      assert Available(left, |left| - 1);
    }
    PutBack(c, n);
  }

  /** The case it fails in: the only output of coins at height 0 is spent. */
  lemma {:induction false} SpendNotUndone()
    ensures var c := Coins(true, [TxOut(5, [])], 0, 1);
      var held := Coins(false, [], 0, 0);
      Tidy(c) && Available(c.vout, 0) && Holds(held, c, 0) &&
      !UndoClean(held, UndoOf(c, 0), 0) && Restored(held, UndoOf(c, 0), 0) != c
  {
    var c := Coins(true, [TxOut(5, [])], 0, 1);
    assert c.vout[0 := NULL_OUT][..0] == [];
    assert Cleaned(c.vout[0 := NULL_OUT]) == [];
    assert Cleaned(c.vout) == c.vout;
  }

  lemma {:induction false} PutBack(c: Coins, n: nat)
    requires Tidy(c) && Available(c.vout, n)
    ensures Resized(Spent(c, n).vout, n + 1)[n := c.vout[n]] == c.vout
  {
    hide Cleaned;
    var nulled, left := c.vout[n := NULL_OUT], Spent(c, n).vout;
    TidyLast(c);
    if n < |c.vout| - 1 {
      assert |left| == |c.vout| by { assert !nulled[|c.vout| - 1].IsNull(); }
    }
    var back := Resized(left, n + 1)[n := c.vout[n]];
    assert |back| == |c.vout|;
    forall i | 0 <= i < |back| ensures back[i] == c.vout[i] {
      if |left| <= i && i != n {
        assert nulled[i].IsNull();
      }
    }
  }

  lemma {:induction false} TidyLast(c: Coins)
    requires Tidy(c) && c.vout != []
    ensures !c.vout[|c.vout| - 1].IsNull()
  {}

  // --- Sizes ---------------------------------------------------------------------------------------

  /** Bytes of the encodings not modelled: a VARINT, and a script. */
  datatype Sizes = Sizes(varint: int -> nat, script: Script -> nat)

  function TokenSize(t: Token, z: Sizes): nat {
    match t
    case VarInt(n) => z.varint(n)
    case Mask(_) => 1
    case Output(nVal, script) => z.varint(nVal) + z.script(script)
  }

  function Size(s: seq<Token>, z: Sizes): nat {
    if s == [] then 0 else Size(s[..|s| - 1], z) + TokenSize(s[|s| - 1], z)
  }

  lemma {:induction false} SizeSum(s: seq<Token>, t: seq<Token>, z: Sizes)
    ensures Size(s + t, z) == Size(s, z) + Size(t, z)
  {
    if t == [] {
      assert s + t == s;
    } else {
      SizeSum(s, t[..|t| - 1], z);
      assert (s + t)[..|s + t| - 1] == s + t[..|t| - 1];
    }
  }

  lemma {:induction false} SizeOne(t: Token, z: Sizes)
    ensures Size([t], z) == TokenSize(t, z)
  {
    assert [t][..0] == [];
    assert Size([], z) == 0;
  }

  lemma {:induction false} MaskTokensSize(vout: seq<TxOut>, b: nat, n: nat, z: Sizes)
    requires b <= n
    ensures Size(MaskTokens(vout, b, n), z) == n - b
    decreases n - b
  {
    if b < n {
      MaskTokensSize(vout, b + 1, n, z);
      SizeSum([Mask(MaskByte(vout, b))], MaskTokens(vout, b + 1, n), z);
      SizeOne(Mask(MaskByte(vout, b)), z);
    }
  }

  // --- The class -------------------------------------------------------------------------------------

  class CCoins {
    var fCoinBase: bool
    var vout: seq<TxOut>
    var nHeight: int
    var nVersion: int

    function V(): Coins
      reads this
    {
      Coins(fCoinBase, vout, nHeight, nVersion)
    }

    constructor (c: Coins)
      ensures V() == c
    {
      fCoinBase, vout, nHeight, nVersion := c.fCoinBase, c.vout, c.nHeight, c.nVersion;
    }

    method Cleanup()
      modifies `vout
      ensures vout == Cleaned(old(vout))
    {
      while |vout| > 0 && vout[|vout| - 1].IsNull()
        invariant Cleaned(vout) == Cleaned(old(vout))
        decreases |vout|
      {
        vout := vout[..|vout| - 1];
      }
    }

    /** Nulls the outputs that can never be spent. */
    method ClearUnspendable(unspendable: Script -> bool)
      modifies `vout
      ensures |vout| <= |old(vout)| && (Cleaned(vout) == vout)
      ensures forall i :: 0 <= i < |vout| ==>
        vout[i] == if unspendable(old(vout)[i].script) then NULL_OUT else old(vout)[i]
      ensures forall i :: |vout| <= i < |old(vout)| ==> unspendable(old(vout)[i].script) || old(vout)[i].IsNull()
    {
      for i := 0 to |vout|
        invariant |vout| == |old(vout)|
        invariant forall j :: 0 <= j < |vout| ==>
          vout[j] == if j < i && unspendable(old(vout)[j].script) then NULL_OUT else old(vout)[j]
      {
        if unspendable(vout[i].script) {
          vout := vout[i := NULL_OUT];
        }
      }
      Cleanup();
      CleanedTwice(vout);
    }

    static lemma {:induction false} CleanedTwice(vout: seq<TxOut>)
      requires vout != [] ==> !vout[|vout| - 1].IsNull()
      ensures Cleaned(vout) == vout
    {}

    /** CalcMaskSize */
    method CalcMaskSize() returns (nBytes: nat, nNonzeroBytes: nat)
      ensures nBytes == MaskSize(vout, Groups(vout)) && nNonzeroBytes == MaskCode(vout, Groups(vout))
    {
      hide GroupUsed;
      nBytes, nNonzeroBytes := 0, 0;
      var b := 0;
      while 2 + b * 8 < |vout|
        invariant 0 <= b <= Groups(vout) && nBytes == MaskSize(vout, b) && nNonzeroBytes == MaskCode(vout, b)
        decreases |vout| - b
      {
        var fZero := true;
        for i := 0 to 8
          invariant fZero <==> forall j :: 0 <= j < i ==> !Group(vout, b)[j]
        {
          assert Group(vout, b)[i] == Available(vout, 2 + 8 * b + i);
          if 2 + b * 8 + i < |vout| && !vout[2 + b * 8 + i].IsNull() {
            fZero := false;
          }
        }
        UsedIff(vout, b);
        if !fZero {
          nBytes := b + 1;
          nNonzeroBytes := nNonzeroBytes + 1;
        }
        b := b + 1;
      }
    }

    static lemma {:induction false} UsedIff(vout: seq<TxOut>, b: nat)
      ensures GroupUsed(vout, b) <==> exists j :: 0 <= j < 8 && Group(vout, b)[j]
    {
      hide Lsb;
      LsbZero(Group(vout, b));
    }

    /** One mask byte, built by setting bits. */
    method MaskOf(b: nat) returns (chAvail: nat)
      ensures chAvail == MaskByte(vout, b)
    {
      hide Lsb, Or, Group;
      ghost var g := Group(vout, b);
      chAvail := 0;
      var bit := 1;
      LsbEmpty();
      assert g[..0] == [];
      for i := 0 to 8
        invariant bit == Pow2(i) && chAvail == Lsb(g[..i])
      {
        assert g[..i + 1] == g[..i] + [g[i]];
        assert g[i] == Available(vout, 2 + 8 * b + i);
        LsbAppend(g[..i], g[i]);
        if 2 + b * 8 + i < |vout| && !vout[2 + b * 8 + i].IsNull() {
          chAvail := Or(chAvail, bit);
        }
        bit := 2 * bit;
      }
      assert g[..8] == g;
    }

    static lemma {:induction false} LsbEmpty()
      ensures Lsb([]) == 0
    {}

    static lemma {:induction false} BitOfPower(k: nat, i: nat)
      ensures Bit(Pow2(k), i) == (i == k)
      decreases k
    {
      if k == 0 {
        if i > 0 { BitOfZero(i - 1); }
      } else if i > 0 {
        BitOfPower(k - 1, i - 1);
      }
    }

    /** chAvail |= 1 << i sets bit i. */
    static lemma {:induction false} LsbAppend(s: seq<bool>, x: bool)
      ensures Lsb(s + [x]) == if x then Or(Lsb(s), Pow2(|s|)) else Lsb(s)
    {
      hide Lsb, Or;
      var v := if x then Or(Lsb(s), Pow2(|s|)) else Lsb(s);
      forall p: nat ensures Bit(Lsb(s + [x]), p) == Bit(v, p) {
        LsbBit(s + [x], p);
        LsbBit(s, p);
        BitOfPower(|s|, p);
        BitOfOr(Lsb(s), Pow2(|s|), p);
      }
      BitsExtensional(Lsb(s + [x]), v);
    }

    /** Serialize. Only coins that are not pruned may be written. */
    method Serialize() returns (s: seq<Token>)
      requires !IsPruned(V())
      ensures s == Stored(V())
    {
      hide OutTokens, MaskTokens, Code, MaskCode, MaskSize, Groups, IsPruned;
      var nMaskSize, nMaskCode := CalcMaskSize();
      var fFirst := |vout| > 0 && !vout[0].IsNull();
      var fSecond := |vout| > 1 && !vout[1].IsNull();
      CodeParts(V());
      assert fFirst || fSecond || nMaskCode > 0;
      var nCode := CodeOf(nMaskCode, fFirst, fSecond);
      s := [VarInt(nVersion), VarInt(nCode)];
      var mask := WriteMask(nMaskSize);
      var outs := WriteOuts();
      s := s + (mask + (outs + [VarInt(nHeight)]));
    }

    method CodeOf(nMaskCode: nat, fFirst: bool, fSecond: bool) returns (nCode: int)
      requires fFirst == Available(vout, 0) && fSecond == Available(vout, 1)
      requires nMaskCode == MaskCode(vout, Groups(vout))
      ensures nCode == Code(V())
    {
      nCode := 8 * (nMaskCode - (if fFirst || fSecond then 0 else 1)) + (if fCoinBase then 1 else 0)
        + (if fFirst then 2 else 0) + (if fSecond then 4 else 0);
    }

    method WriteMask(nMaskSize: nat) returns (s: seq<Token>)
      ensures s == MaskTokens(vout, 0, nMaskSize)
    {
      hide MaskByte;
      s := [];
      for b := 0 to nMaskSize
        invariant s + MaskTokens(vout, b, nMaskSize) == MaskTokens(vout, 0, nMaskSize)
      {
        var chAvail := MaskOf(b);
        assert s + ([Mask(chAvail)] + MaskTokens(vout, b + 1, nMaskSize)) ==
          (s + [Mask(chAvail)]) + MaskTokens(vout, b + 1, nMaskSize);
        s := s + [Mask(chAvail)];
      }
      assert s + [] == s;
    }

    method WriteOuts() returns (s: seq<Token>)
      ensures s == OutTokens(vout)
    {
      hide Compress;
      s := [];
      assert vout[0..] == vout;
      for i := 0 to |vout|
        invariant s + OutTokens(vout[i..]) == OutTokens(vout)
      {
        ghost var rest := OutTokens(vout[i + 1..]);
        assert vout[i..][1..] == vout[i + 1..];
        if !vout[i].IsNull() {
          var nVal := CompressAmount(vout[i].nValue % WORD64);
          ghost var t := Output(nVal, vout[i].script);
          assert s + ([t] + rest) == (s + [t]) + rest;
          s := s + [Output(nVal, vout[i].script)];
        } else {
          assert OutTokens(vout[i..]) == [] + rest;
        }
      }
      assert s + [] == s;
    }

    /** GetSerializeSize counts what Serialize writes. */
    method GetSerializeSize(z: Sizes) returns (nSize: nat)
      requires !IsPruned(V())
      ensures nSize == Size(Stored(V()), z)
    {
      hide OutTokens, MaskTokens, Code, MaskCode, MaskSize, Groups, IsPruned, Size;
      var nMaskSize, nMaskCode := CalcMaskSize();
      var fFirst := |vout| > 0 && !vout[0].IsNull();
      var fSecond := |vout| > 1 && !vout[1].IsNull();
      CodeParts(V());
      assert fFirst || fSecond || nMaskCode > 0;
      var nCode := CodeOf(nMaskCode, fFirst, fSecond);
      nSize := z.varint(nVersion);
      nSize := nSize + z.varint(nCode);
      nSize := nSize + nMaskSize;
      var outs := OutsSize(z);
      nSize := nSize + outs;
      nSize := nSize + z.varint(nHeight);
      StoredSize(V(), z);
    }

    static lemma {:induction false} StoredSize(c: Coins, z: Sizes)
      ensures Size(Stored(c), z) == z.varint(c.nVersion) + z.varint(Code(c)) + MaskSize(c.vout, Groups(c.vout))
        + Size(OutTokens(c.vout), z) + z.varint(c.nHeight)
    {
      hide OutTokens, MaskTokens, Code, MaskSize, Groups, Size;
      var a, b, h := VarInt(c.nVersion), VarInt(Code(c)), VarInt(c.nHeight);
      var mask, outs := MaskTokens(c.vout, 0, MaskSize(c.vout, Groups(c.vout))), OutTokens(c.vout);
      SizeSum([a, b], mask + (outs + [h]), z);
      SizeSum(mask, outs + [h], z);
      SizeSum(outs, [h], z);
      SizeSum([a], [b], z);
      assert [a] + [b] == [a, b];
      SizeOne(a, z);
      SizeOne(b, z);
      SizeOne(h, z);
      MaskTokensSize(c.vout, 0, MaskSize(c.vout, Groups(c.vout)), z);
    }

    method OutsSize(z: Sizes) returns (n: nat)
      ensures n == Size(OutTokens(vout), z)
    {
      hide Compress, Size;
      n := 0;
      assert vout[0..] == vout;
      for i := 0 to |vout|
        invariant n + Size(OutTokens(vout[i..]), z) == Size(OutTokens(vout), z)
      {
        assert vout[i..][1..] == vout[i + 1..];
        ghost var rest := OutTokens(vout[i + 1..]);
        if !vout[i].IsNull() {
          var nVal := CompressAmount(vout[i].nValue % WORD64);
          ghost var t := Output(nVal, vout[i].script);
          SizeSum([t], rest, z);
          SizeOne(t, z);
          n := n + (z.varint(nVal) + z.script(vout[i].script));
        } else {
          assert OutTokens(vout[i..]) == [] + rest == rest;
        }
      }
      NoTokens(z);
    }

    static lemma {:induction false} NoTokens(z: Sizes)
      ensures Size(OutTokens([]), z) == 0
    {}

    /** Spend: marks one output spent. The last one takes the metadata along for undo. */
    method Spend(n: nat) returns (ok: bool, undo: CTxInUndo)
      modifies `vout
      ensures ok == Available(old(vout), n)
      ensures !ok ==> vout == old(vout)
      ensures ok ==> V() == Spent(old(V()), n) && undo == UndoOf(old(V()), n)
    {
      hide Cleaned;
      undo := CTxInUndo(NULL_OUT, false, 0, 0);
      if n >= |vout| {
        return false, undo;
      }
      if vout[n].IsNull() {
        return false, undo;
      }
      undo := CTxInUndo(vout[n], false, 0, 0);
      vout := vout[n := NULL_OUT];
      Cleanup();
      if |vout| == 0 {
        undo := undo.(nHeight := nHeight, fCoinBase := fCoinBase, nVersion := nVersion);
      }
      ok := true;
    }

    /** Unserialize. When the stream ends early an exception leaves the object half filled. */
    method Unserialize(s: seq<Token>) returns (ok: bool, rest: seq<Token>)
      modifies this
      ensures ok == Reader(s).Read?
      ensures ok ==> V() == Reader(s).value && rest == Reader(s).rest
    {
      hide ReadMask, ReadOuts, Cleaned;
      rest := s;
      if |s| < 2 || !s[0].VarInt? || !s[1].VarInt? || s[1].n < 0 {
        return false, rest;
      }
      nVersion := s[0].n;
      var nCode := s[1].n;
      fCoinBase := nCode % 2 == 1;
      var vAvail := [nCode / 2 % 2 == 1, nCode / 4 % 2 == 1];
      var nMaskCode := nCode / 8 + (if vAvail[0] || vAvail[1] then 0 else 1);
      ok, rest, vAvail := UnserializeMask(s[2..], nMaskCode, vAvail);
      if !ok {
        return;
      }
      ok, rest := UnserializeOuts(rest, vAvail);
      if !ok {
        return;
      }
      if rest == [] || !rest[0].VarInt? {
        return false, rest;
      }
      nHeight, rest := rest[0].n, rest[1..];
      Cleanup();
    }

    method UnserializeMask(s: seq<Token>, nMaskCode0: nat, vAvail0: seq<bool>)
      returns (ok: bool, rest: seq<Token>, vAvail: seq<bool>)
      ensures ReadMask(s, nMaskCode0, vAvail0) == if ok then Read(vAvail, rest) else Failed
    {
      rest, vAvail := s, vAvail0;
      var nMaskCode := nMaskCode0;
      while nMaskCode > 0
        invariant ReadMask(rest, nMaskCode, vAvail) == ReadMask(s, nMaskCode0, vAvail0)
        decreases |rest|
      {
        if rest == [] || !rest[0].Mask? {
          return false, rest, vAvail;
        }
        var chAvail := rest[0].b;
        ghost var before := vAvail;
        for p := 0 to 8
          invariant vAvail == before + Bits8(chAvail)[..p]
        {
          var f := Bit(chAvail, p);
          vAvail := vAvail + [f];
        }
        assert Bits8(chAvail)[..8] == Bits8(chAvail);
        ReadMaskStep(rest, nMaskCode, before);
        if chAvail != 0 {
          nMaskCode := nMaskCode - 1;
        }
        rest := rest[1..];
      }
      ok := true;
    }

    method UnserializeOuts(s: seq<Token>, vAvail: seq<bool>) returns (ok: bool, rest: seq<Token>)
      modifies `vout
      ensures ReadOuts(s, vAvail) == if ok then Read(vout, rest) else Failed
    {
      hide ReadOut, ReadOuts, Decompress;
      vout := Repeat(NULL_OUT, |vAvail|);
      rest := s;
      NoneRead(s, vAvail);
      for i := 0 to |vAvail|
        invariant |vout| == |vAvail| && vout[i..] == Repeat(NULL_OUT, |vAvail| - i)
        invariant ReadOuts(s, vAvail) == Prepend(vout[..i], ReadOuts(rest, vAvail[i..]))
      {
        ghost var done := vout[..i];
        OutsStep(rest, vAvail[i..], done);
        assert vAvail[i..][1..] == vAvail[i + 1..];
        if vAvail[i] {
          if rest == [] || !rest[0].Output? {
            return false, rest;
          }
          var nVal := DecompressAmount(rest[0].nVal % WORD64);
          ghost var o := ReadOut(rest[0]);
          ReadOutIs(rest[0], nVal);
          vout := vout[i := TxOut(ToInt64(nVal), rest[0].script)];
          rest := rest[1..];
          assert vout[..i + 1] == done + [o];
        } else {
          assert vout[i] == vout[i..][0];
          assert vout[..i + 1] == done + [NULL_OUT];
        }
      }
      assert vAvail[|vAvail|..] == [] && vout[..|vAvail|] == vout;
      AllRead(rest, vout);
      ok := true;
    }

    static function Prepend(done: seq<TxOut>, r: Reading<seq<TxOut>>): Reading<seq<TxOut>> {
      if r.Failed? then Failed else Read(done + r.value, r.rest)
    }

    static lemma {:induction false} ReadOutIs(t: Token, nVal: nat)
      requires t.Output? && nVal == Decompress(t.nVal % WORD64) % WORD64
      ensures ReadOut(t) == TxOut(ToInt64(nVal), t.script)
    {}

    static lemma {:induction false} NoneRead(s: seq<Token>, avail: seq<bool>)
      ensures avail[0..] == avail && Prepend([], ReadOuts(s, avail)) == ReadOuts(s, avail)
      ensures forall vout: seq<TxOut> :: vout[..0] == []
    {
      var r := ReadOuts(s, avail);
      if r.Read? {
        assert [] + r.value == r.value;
      }
    }

    static lemma {:induction false} AllRead(s: seq<Token>, vout: seq<TxOut>)
      ensures Prepend(vout, ReadOuts(s, [])) == Read(vout, s)
    {
      assert vout + [] == vout;
    }

    /** One more output. */
    static lemma {:induction false} OutsStep(s: seq<Token>, avail: seq<bool>, done: seq<TxOut>)
      requires avail != []
      ensures !avail[0] ==> Prepend(done, ReadOuts(s, avail)) == Prepend(done + [NULL_OUT], ReadOuts(s, avail[1..]))
      ensures avail[0] && (s == [] || !s[0].Output?) ==> ReadOuts(s, avail) == Failed
      ensures avail[0] && s != [] && s[0].Output? ==>
        Prepend(done, ReadOuts(s, avail)) == Prepend(done + [ReadOut(s[0])], ReadOuts(s[1..], avail[1..]))
    {
      hide ReadOut;
      var o := if !avail[0] then NULL_OUT else if s != [] && s[0].Output? then ReadOut(s[0]) else NULL_OUT;
      var r := if !avail[0] || s == [] then ReadOuts(s, avail[1..]) else ReadOuts(s[1..], avail[1..]);
      if r.Read? {
        assert done + ([o] + r.value) == done + [o] + r.value;
      }
    }
  }
}
