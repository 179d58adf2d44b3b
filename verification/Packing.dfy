/** The bit packing of src/equihash.cpp: ExpandArray, CompressArray and the
    minimal encoding of index lists, all through a 32-bit accumulator. */
module Packing {
  import opened Words

  // --- Specification: one bit string, cut two ways ---------------------------

  /** Bytes per element: ceil(bitLen / 8) plus padding. */
  function Width(bitLen: nat, bytePad: nat): (w: nat)
    ensures bitLen <= 8 * w
  {
    (bitLen + 7) / 8 + bytePad
  }

  /** The bit string a byte string holds. */
  function BitString(bytes: seq<nat>): (s: seq<bool>)
    ensures |s| == 8 * |bytes|
  {
    if bytes == [] then [] else BitString(bytes[..|bytes| - 1]) + Bits(bytes[|bytes| - 1], 8)
  }

  /** The byte string holding a bit string of whole bytes. */
  function ByteString(s: seq<bool>): (bytes: seq<nat>)
    requires |s| % 8 == 0
    ensures 8 * |bytes| == |s|
  {
    if s == [] then [] else ByteString(s[..|s| - 8]) + [Num(s[|s| - 8..])]
  }

  /** One element right-aligned in w bytes. */
  function Cell(e: seq<bool>, w: nat): (bytes: seq<nat>)
    requires |e| <= 8 * w
    ensures |bytes| == w
  {
    ByteString(Repeat(false, 8 * w - |e|) + e)
  }

  /** s cut into bitLen-bit elements, each in its own w-byte cell; a shorter
      remainder is dropped. */
  function CellsOf(s: seq<bool>, bitLen: nat, w: nat): seq<nat>
    requires 0 < bitLen <= 8 * w
  {
    if |s| < bitLen then [] else Cell(s[..bitLen], w) + CellsOf(s[bitLen..], bitLen, w)
  }

  /** The low bitLen bits of every w-byte cell, in order. */
  function ElementBits(bytes: seq<nat>, bitLen: nat, w: nat): seq<bool>
    requires 0 < bitLen <= 8 * w
  {
    if |bytes| < w then [] else
      BitString(bytes[..w])[8 * w - bitLen..] + ElementBits(bytes[w..], bitLen, w)
  }

  function Expanded(inp: seq<nat>, bitLen: nat, bytePad: nat): seq<nat>
    requires bitLen > 0
  {
    CellsOf(BitString(inp), bitLen, Width(bitLen, bytePad))
  }

  /** Whole bytes of the concatenated elements; left-over low bits are dropped. */
  function Compressed(inp: seq<nat>, bitLen: nat, bytePad: nat): seq<nat>
    requires bitLen > 0
  {
    var s := ElementBits(inp, bitLen, Width(bitLen, bytePad));
    ByteString(s[..|s| - |s| % 8])
  }

  ghost predicate IsBytes(s: seq<nat>) { forall i :: 0 <= i < |s| ==> s[i] < 256 }

  // --- Bit strings and byte strings are the same thing -----------------------

  lemma {:induction false} BytesOfBits(s: seq<bool>)
    requires |s| % 8 == 0
    ensures BitString(ByteString(s)) == s && IsBytes(ByteString(s))
  {
    if s != [] {
      var t, u := s[..|s| - 8], s[|s| - 8..];
      BytesOfBits(t);
      BitsOfNum(u);
      NumBound(u);
      assert Mask(4) == 15 && Mask(8) == 255;
      assert ByteString(s)[..|t| / 8] == ByteString(t);
      assert s == t + u;
    }
  }

  lemma {:induction false} BitsOfBytes(bytes: seq<nat>)
    requires IsBytes(bytes)
    ensures ByteString(BitString(bytes)) == bytes
  {
    if bytes != [] {
      var n := |bytes| - 1;
      BitsOfBytes(bytes[..n]);
      assert Mask(4) == 15 && Mask(8) == 255;
      NumOfBits(bytes[n], 8);
      var s := BitString(bytes);
      assert s[..|s| - 8] == BitString(bytes[..n]);
      assert s[|s| - 8..] == Bits(bytes[n], 8);
      assert bytes == bytes[..n] + [bytes[n]];
    }
  }

  lemma {:induction false} BitStringConcat(s: seq<nat>, t: seq<nat>)
    ensures BitString(s + t) == BitString(s) + BitString(t)
  {
    if t == [] {
      assert s + t == s;
    } else {
      var n := |t| - 1;
      BitStringConcat(s, t[..n]);
      assert (s + t)[..|s + t| - 1] == s + t[..n];
    }
  }

  lemma {:induction false} CellBits(e: seq<bool>, w: nat)
    requires |e| <= 8 * w
    ensures BitString(Cell(e, w)) == Repeat(false, 8 * w - |e|) + e && IsBytes(Cell(e, w))
  {
    BytesOfBits(Repeat(false, 8 * w - |e|) + e);
  }

  // --- Main results on the specification ---------------------------------------

  lemma {:induction false} ElementsOfCells(s: seq<bool>, bitLen: nat, w: nat)
    requires 0 < bitLen <= 8 * w
    ensures ElementBits(CellsOf(s, bitLen, w), bitLen, w) <= s
    ensures |s| - |ElementBits(CellsOf(s, bitLen, w), bitLen, w)| == |s| % bitLen
    decreases |s|
  {
    if |s| < bitLen {
      assert ElementBits([], bitLen, w) == [];
      RemainderUnique(|s|, bitLen, 0, |s|);
    } else {
      hide ElementBits, Cell;
      var e, rest := s[..bitLen], CellsOf(s[bitLen..], bitLen, w);
      ElementsOfCells(s[bitLen..], bitLen, w);
      CellBits(e, w);
      ElementBitsStep(Cell(e, w), rest, bitLen, w);
      assert BitString(Cell(e, w))[8 * w - bitLen..] == e;
      assert s == e + s[bitLen..];
      ModShift(|s|, bitLen);
    }
  }

  lemma {:induction false} ElementBitsStep(cell: seq<nat>, rest: seq<nat>, bitLen: nat, w: nat)
    requires 0 < bitLen <= 8 * w && |cell| == w
    ensures ElementBits(cell + rest, bitLen, w) ==
         BitString(cell)[8 * w - bitLen..] + ElementBits(rest, bitLen, w)
  {
    assert (cell + rest)[..w] == cell && (cell + rest)[w..] == rest;
  }

  lemma {:induction false} CellsOfStep(e: seq<bool>, rest: seq<bool>, bitLen: nat, w: nat)
    requires 0 < bitLen <= 8 * w && |e| == bitLen
    ensures CellsOf(e + rest, bitLen, w) == Cell(e, w) + CellsOf(rest, bitLen, w)
  {
    assert (e + rest)[..bitLen] == e && (e + rest)[bitLen..] == rest;
  }

  lemma {:induction false} ModShift(n: nat, m: nat)
    requires 0 < m <= n
    ensures n % m == (n - m) % m
  {
    var q, r := (n - m) / m, (n - m) % m;
    assert n - m == m * q + r;
    MulSucc(q, m);
    RemainderUnique(n, m, q + 1, r);
  }

  /** Expanding loses nothing when the input is a whole number of elements. */
  lemma {:induction false} CompressUndoesExpand(inp: seq<nat>, bitLen: nat, bytePad: nat)
    requires bitLen > 0 && IsBytes(inp) && 8 * |inp| % bitLen == 0
    ensures Compressed(Expanded(inp, bitLen, bytePad), bitLen, bytePad) == inp
  {
    var s, w := BitString(inp), Width(bitLen, bytePad);
    ElementsOfCells(s, bitLen, w);
    var e := ElementBits(CellsOf(s, bitLen, w), bitLen, w);
    assert e == s[..|s|] == s;
    assert s[..|s|] == s;
    BitsOfBytes(inp);
  }

  /** Every cell holds a number below 2^bitLen. */
  ghost predicate CellsFit(bytes: seq<nat>, bitLen: nat, w: nat)
    requires 0 < bitLen <= 8 * w
    decreases |bytes|
  {
    if |bytes| < w then bytes == [] else
      BitString(bytes[..w])[..8 * w - bitLen] == Repeat(false, 8 * w - bitLen) && CellsFit(bytes[w..], bitLen, w)
  }

  lemma {:induction false} CellsOfElements(bytes: seq<nat>, bitLen: nat, w: nat)
    requires 0 < bitLen <= 8 * w && IsBytes(bytes) && CellsFit(bytes, bitLen, w)
    ensures CellsOf(ElementBits(bytes, bitLen, w), bitLen, w) == bytes
    decreases |bytes|
  {
    if |bytes| < w {
      assert CellsOf([], bitLen, w) == [];
    } else {
      hide ElementBits, CellsOf, BitString, ByteString, Cell, Repeat;
      var cell, rest := bytes[..w], bytes[w..];
      CellsOfElements(rest, bitLen, w);
      OneCell(cell, bitLen, w);
      assert bytes == cell + rest;
      ElementBitsStep(cell, rest, bitLen, w);
      CellsOfStep(BitString(cell)[8 * w - bitLen..], ElementBits(rest, bitLen, w), bitLen, w);
    }
  }

  lemma {:induction false} OneCell(cell: seq<nat>, bitLen: nat, w: nat)
    requires 0 < bitLen <= 8 * w == 8 * |cell| && IsBytes(cell)
    requires BitString(cell)[..8 * w - bitLen] == Repeat(false, 8 * w - bitLen)
    ensures Cell(BitString(cell)[8 * w - bitLen..], w) == cell
  {
    hide BitString, ByteString;
    var s := BitString(cell);
    assert s == Repeat(false, 8 * w - bitLen) + s[8 * w - bitLen..];
    BitsOfBytes(cell);
  }

  /** Compressing loses nothing when every cell fits its bits and the bits fill
      whole bytes. */
  lemma {:induction false} ExpandUndoesCompress(inp: seq<nat>, bitLen: nat, bytePad: nat)
    requires bitLen > 0 && IsBytes(inp)
    requires CellsFit(inp, bitLen, Width(bitLen, bytePad))
    requires |ElementBits(inp, bitLen, Width(bitLen, bytePad))| % 8 == 0
    ensures Expanded(Compressed(inp, bitLen, bytePad), bitLen, bytePad) == inp
  {
    hide ElementBits, CellsOf, CellsFit, BitString, ByteString;
    var w := Width(bitLen, bytePad);
    var s := ElementBits(inp, bitLen, w);
    assert s[..|s|] == s;
    BytesOfBits(s);
    CellsOfElements(inp, bitLen, w);
  }

  // --- The accumulator ---------------------------------------------------------

  /** The low |r| bits of the accumulator are the pending bits r; whatever older
      bits sit above them no longer matters. */
  ghost predicate Pending(acc: nat, r: seq<bool>) {
    acc < WORD32 && |r| <= 32 && forall i :: 0 <= i < |r| ==> Bit(acc, i) == r[|r| - 1 - i]
  }

  lemma {:induction false} WordFromBits(v: nat)
    requires forall i: nat :: 32 <= i ==> !Bit(v, i)
    ensures v < WORD32
  {
    LowBitsOnly(v, 32);
    Mask32();
  }

  /** Shifting k bits in appends them to the pending bits; bits pushed out of the
      32-bit word are never pending ones. */
  lemma {:induction false} PushBits(acc: nat, r: seq<bool>, k: nat, e: nat)
    requires Pending(acc, r) && |r| + k <= 32 && e <= Mask(k)
    ensures Pending(Or(Shl32(acc, k), e), r + Bits(e, k))
  {
    var acc' := Or(Shl32(acc, k), e);
    forall i: nat ensures Bit(acc', i) == ((k <= i < 32 && Bit(acc, i - k)) || (i < k && Bit(e, i))) {
      BitOfOr(Shl32(acc, k), e, i);
      BitOfShl32(acc, k, i);
      if k <= i { HighBitsClear(e, k, i); }
    }
    WordFromBits(acc');
  }

  lemma {:induction false} Mask8()
    ensures Mask(8) == 0xFF
  {
    assert Mask(4) == 15;
  }

  lemma {:induction false} ByteAt(s: seq<bool>, x: nat)
    requires |s| % 8 == 0 && 8 * x < |s|
    ensures ByteString(s)[x] == Num(s[8 * x..8 * x + 8])
    decreases |s|
  {
    var t := s[..|s| - 8];
    if 8 * x < |t| {
      ByteAt(t, x);
      assert t[8 * x..8 * x + 8] == s[8 * x..8 * x + 8];
    } else {
      assert s[8 * x..8 * x + 8] == s[|s| - 8..];
    }
  }

  /** The masked shift that ExpandArray stores is byte x of the cell: masking
      across byte boundaries keeps exactly the element's bits. */
  lemma {:induction false} CellByte(acc: nat, a: nat, e: seq<bool>, w: nat, x: nat)
    requires |e| <= 8 * w && x < w && OnTop(acc, a, e)
    ensures Stored(acc, a, |e|, 8 * (w - x - 1)) == Cell(e, w)[x] < 256
  {
    var t := 8 * (w - x - 1);
    var s := Repeat(false, 8 * w - |e|) + e;
    var byte := s[8 * x..8 * x + 8];
    ByteAt(s, x);
    hide Stored, Num, Bit, ByteString;
    Mask8();
    forall i: nat ensures Bit(Stored(acc, a, |e|, t), i) == Bit(Num(byte), i) {
      StoredBit(acc, a, |e|, t, i);
      NumBits(byte, i);
    }
    BitsExtensional(Stored(acc, a, |e|, t), Num(byte));
    NumBound(byte);
  }

  /** The accumulator shifted right by a ends in the element e. */
  ghost predicate OnTop(acc: nat, a: nat, e: seq<bool>) {
    forall i :: 0 <= i < |e| ==> Bit(Shr(acc, a), i) == e[|e| - 1 - i]
  }

  /** The expression ExpandArray stores, t bits above the end of the cell. */
  function Stored(acc: nat, a: nat, bitLen: nat, t: nat): nat {
    And(Shr(acc, a + t), And(Shr(Mask(bitLen), t), 0xFF))
  }

  lemma {:induction false} StoredBit(acc: nat, a: nat, bitLen: nat, t: nat, i: nat)
    ensures Bit(Stored(acc, a, bitLen, t), i) == (i < 8 && t + i < bitLen && Bit(Shr(acc, a), t + i))
  {
    Mask8();
    BitOfAnd(Shr(acc, a + t), And(Shr(Mask(bitLen), t), 0xFF), i);
    BitOfAnd(Shr(Mask(bitLen), t), 0xFF, i);
    BitOfShr(acc, a + t, i);
    BitOfShr(acc, a, t + i);
    BitOfShr(Mask(bitLen), t, i);
    BitOfMask(bitLen, t + i);
    BitOfMask(8, i);
  }

  /** Padding bytes of a cell are zero. */
  lemma {:induction false} PaddingByte(e: seq<bool>, w: nat, x: nat)
    requires x < w && |e| <= 8 * (w - x - 1)
    ensures Cell(e, w)[x] == 0
  {
    var s := Repeat(false, 8 * w - |e|) + e;
    ByteAt(s, x);
    var byte := s[8 * x..8 * x + 8];
    forall i: nat ensures Bit(Num(byte), i) == Bit(0, i) { NumBits(byte, i); BitOfZero(i); }
    BitsExtensional(Num(byte), 0);
  }

  lemma {:induction false} CellsLength(s: seq<bool>, bitLen: nat, w: nat)
    requires 0 < bitLen <= 8 * w
    ensures |CellsOf(s, bitLen, w)| * bitLen <= w * |s|
    decreases |s|
  {
    if bitLen <= |s| {
      hide CellsOf, Cell;
      var e, rest := s[..bitLen], s[bitLen..];
      CellsLength(rest, bitLen, w);
      assert s == e + rest;
      CellsOfStep(e, rest, bitLen, w);
      OneMoreCell(|CellsOf(rest, bitLen, w)|, bitLen, w, |rest|);
    } else {
      assert 0 <= w * |s|;
    }
  }

  lemma {:induction false} OneMoreCell(n: nat, bitLen: nat, w: nat, k: nat)
    requires n * bitLen <= w * k
    ensures (w + n) * bitLen <= w * (bitLen + k)
  {
    MulDist(w, n, bitLen);
    MulDist(bitLen, k, w);
  }

  lemma {:induction false} CellsFitOutput(n: nat, bitLen: nat, bits: nat)
    requires bitLen > 0 && n * bitLen <= bits
    ensures n <= bits / bitLen
  {
    var q := bits / bitLen;
    assert bits == bitLen * q + bits % bitLen;
    if q < n { MulGap(bitLen, q, n); assert false; }
  }

  /** The inner loops of ExpandArray: padding bytes, then the element. */
  method WriteCell(out: array<Byte>, j: nat, accValue: nat, accBits: nat, bitLen: nat, bytePad: nat, ghost e: seq<bool>)
    requires 8 <= bitLen == |e| && OnTop(accValue, accBits, e)
    requires j + Width(bitLen, bytePad) <= out.Length
    modifies out
    ensures out[..] == old(out[..])[..j] + Cell(e, Width(bitLen, bytePad)) + old(out[..])[j + Width(bitLen, bytePad)..]
  {
    var outWidth, bitLenMask := Width(bitLen, bytePad), Mask(bitLen);
    ghost var cell := Cell(e, outWidth);
    hide Cell;
    for x := 0 to bytePad
      invariant forall y :: 0 <= y < x ==> out[j + y] == cell[y]
      invariant out[..j] == old(out[..j]) && out[j + outWidth..] == old(out[j + outWidth..])
    {
      PaddingByte(e, outWidth, x);
      out[j + x] := 0;
    }
    for x := bytePad to outWidth
      invariant forall y :: 0 <= y < x ==> out[j + y] == cell[y]
      invariant out[..j] == old(out[..j]) && out[j + outWidth..] == old(out[j + outWidth..])
    {
      CellByte(accValue, accBits, e, outWidth, x);
      assert Stored(accValue, accBits, bitLen, 8 * (outWidth - x - 1)) == cell[x];
      out[j + x] := And(Shr(accValue, accBits + 8 * (outWidth - x - 1)),
                        And(Shr(bitLenMask, 8 * (outWidth - x - 1)), 0xFF));
    }
    assert out[j..j + outWidth] == cell;
    assert out[..] == out[..j] + out[j..j + outWidth] + out[j + outWidth..];
  }

  /** The output length ExpandArray asserts. */
  function ExpandedLen(inLen: nat, bitLen: nat, bytePad: nat): int
    requires bitLen > 0
  {
    8 * Width(bitLen, bytePad) * inLen / bitLen
  }

  lemma {:induction false} ExpandedFits(inp: seq<nat>, bitLen: nat, bytePad: nat)
    requires bitLen > 0
    ensures |Expanded(inp, bitLen, bytePad)| <= ExpandedLen(|inp|, bitLen, bytePad)
  {
    hide CellsOf, BitString, Width;
    var s, w := BitString(inp), Width(bitLen, bytePad);
    CellsLength(s, bitLen, w);
    Rescale(w, |inp|);
    CellsFitOutput(|CellsOf(s, bitLen, w)|, bitLen, 8 * w * |inp|);
  }

  lemma {:induction false} Rescale(w: nat, n: nat)
    ensures w * (8 * n) == 8 * w * n
  {}

  lemma {:induction false} ExpandedStarts(inp: seq<nat>, bitLen: nat, bytePad: nat)
    requires bitLen > 0
    ensures Expanded(inp, bitLen, bytePad)[0..] == CellsOf([] + BitString(inp[0..]), bitLen, Width(bitLen, bytePad))
  {
    hide CellsOf, BitString, Width;
    assert inp[0..] == inp && [] + BitString(inp) == BitString(inp);
  }

  lemma {:induction false} NothingPending()
    ensures Pending(0, [])
  {}

  /** Writes the cell for the oldest bitLen pending bits over the next part of out. */
  method StoreCell(out: array<Byte>, j: nat, accValue: nat, accBits: nat, bitLen: nat, bytePad: nat,
                   ghost all: seq<nat>, ghost before: seq<Byte>, ghost r: seq<bool>, ghost rest: seq<bool>)
    requires 8 <= bitLen && Pending(accValue, r) && |r| == accBits + bitLen
    requires j <= |all| <= |before| && all[j..] == CellsOf(r + rest, bitLen, Width(bitLen, bytePad))
    requires out[..] == all[..j] + before[j..]
    modifies out
    ensures var w := Width(bitLen, bytePad);
      && j + w <= |all| && out[..] == all[..j + w] + before[j + w..]
      && all[j + w..] == CellsOf(r[bitLen..] + rest, bitLen, w)
    ensures Pending(accValue, r[bitLen..])
  {
    hide CellsOf, Cell, Pending, Width, OnTop;
    var w := Width(bitLen, bytePad);
    TopBits(accValue, r, accBits, r[..bitLen]);
    NextCell(all, j, r, rest, bitLen, w);
    WriteCell(out, j, accValue, accBits, bitLen, bytePad, r[..bitLen]);
    Splice(all, j, w, before, out[..]);
    PendingSuffix(accValue, r, bitLen);
  }

  method ExpandArray(inp: seq<Byte>, out: array<Byte>, bitLen: nat, bytePad: nat)
    requires bitLen >= 8 && 32 >= 7 + bitLen
    requires out.Length == ExpandedLen(|inp|, bitLen, bytePad)
    modifies out
    ensures var e := Expanded(inp, bitLen, bytePad);
      |e| <= out.Length && out[..] == e + old(out[..])[|e|..]
  {
    hide Expanded, CellsOf, Cell, BitString, Width, Shl32, Or, ExpandedLen, Pending, Bits, Bit, OnTop, Mask;
    var outWidth := Width(bitLen, bytePad);
    var accBits: nat, accValue: nat, j: nat := 0, 0, 0;
    ghost var r: seq<bool> := [];
    ghost var all, before := Expanded(inp, bitLen, bytePad), out[..];
    ExpandedFits(inp, bitLen, bytePad);
    ExpandedStarts(inp, bitLen, bytePad);
    NothingPending();
    for i := 0 to |inp|
      invariant |r| == accBits < bitLen && Pending(accValue, r)
      invariant j <= |all| && all[j..] == CellsOf(r + BitString(inp[i..]), bitLen, outWidth)
      invariant out[..] == all[..j] + before[j..]
    {
      NextByte(inp, i, accValue, r);
      accValue := Or(Shl32(accValue, 8), inp[i]);
      accBits := accBits + 8;
      r := r + Bits(inp[i], 8);
      if accBits >= bitLen {
        accBits := accBits - bitLen;
        StoreCell(out, j, accValue, accBits, bitLen, bytePad, all, before, r, BitString(inp[i + 1..]));
        j := j + outWidth;
        r := r[bitLen..];
      }
    }
    EndOfInput(inp, r, bitLen, outWidth);
    assert all[j..] == [] && j == |all|;
    assert all[..j] == all;
  }

  lemma {:induction false} PendingSuffix(acc: nat, r: seq<bool>, k: nat)
    requires Pending(acc, r) && k <= |r|
    ensures Pending(acc, r[k..])
  {}

  lemma {:induction false} NextCell(all: seq<nat>, j: nat, r: seq<bool>, rest: seq<bool>, bitLen: nat, w: nat)
    requires 0 < bitLen <= 8 * w && bitLen <= |r|
    requires j <= |all| && all[j..] == CellsOf(r + rest, bitLen, w)
    ensures j + w <= |all| && all[j..j + w] == Cell(r[..bitLen], w)
    ensures all[j + w..] == CellsOf(r[bitLen..] + rest, bitLen, w)
  {
    hide CellsOf, Cell;
    assert r + rest == r[..bitLen] + (r[bitLen..] + rest);
    CellsOfStep(r[..bitLen], r[bitLen..] + rest, bitLen, w);
    var t := all[j..];
    assert all[j..j + w] == t[..w] && all[j + w..] == t[w..];
  }

  /** Replacing the w entries at j of a partly rewritten array. */
  lemma {:induction false} Splice(all: seq<nat>, j: nat, w: nat, before: seq<nat>, after: seq<nat>)
    requires j + w <= |all| <= |before|
    requires after == (all[..j] + before[j..])[..j] + all[j..j + w] + (all[..j] + before[j..])[j + w..]
    ensures after == all[..j + w] + before[j + w..]
  {}

  lemma {:induction false} TopBits(acc: nat, r: seq<bool>, a: nat, e: seq<bool>)
    requires Pending(acc, r) && a <= |r| && e == r[..|r| - a]
    ensures OnTop(acc, a, e)
  {
    forall i | 0 <= i < |e| ensures Bit(Shr(acc, a), i) == e[|e| - 1 - i] {
      BitOfShr(acc, a, i);
    }
  }

  lemma {:induction false} NextByte(inp: seq<Byte>, i: nat, acc: nat, r: seq<bool>)
    requires i < |inp| && Pending(acc, r) && |r| <= 24
    ensures r + BitString(inp[i..]) == r + Bits(inp[i], 8) + BitString(inp[i + 1..])
    ensures Pending(Or(Shl32(acc, 8), inp[i]), r + Bits(inp[i], 8))
  {
    hide Pending;
    assert inp[i..] == [inp[i]] + inp[i + 1..];
    BitStringConcat([inp[i]], inp[i + 1..]);
    assert BitString([inp[i]]) == Bits(inp[i], 8);
    Mask8();
    PushBits(acc, r, 8, inp[i]);
  }

  lemma {:induction false} EndOfInput(inp: seq<nat>, r: seq<bool>, bitLen: nat, w: nat)
    requires |r| < bitLen <= 8 * w
    ensures CellsOf(r + BitString(inp[|inp|..]), bitLen, w) == []
  {}

  // --- Compression ---------------------------------------------------------------

  lemma {:induction false} BitStringAt(bytes: seq<nat>, x: nat, q: nat)
    requires x < |bytes| && q < 8
    ensures BitString(bytes)[8 * x + 7 - q] == Bit(bytes[x], q)
    decreases |bytes|
  {
    if x < |bytes| - 1 { BitStringAt(bytes[..|bytes| - 1], x, q); }
  }

  /** The accumulator while a cell is read: the pending bits moved up by bitLen,
      below them the cell's bits from position lo up. */
  ghost predicate Reading(acc: nat, old': nat, s: seq<bool>, bitLen: nat, lo: nat)
    requires bitLen <= |s|
  {
    acc < WORD32 &&
    forall p: nat :: p < 32 ==>
      Bit(acc, p) == if p < bitLen then lo <= p && s[|s| - 1 - p] else Bit(old', p - bitLen)
  }

  lemma {:induction false} ReadingStarts(acc: nat, s: seq<bool>, bitLen: nat, lo: nat)
    requires acc < WORD32 && bitLen <= |s| && bitLen <= lo
    ensures Reading(Shl32(acc, bitLen), acc, s, bitLen, lo)
  {
    var acc' := Shl32(acc, bitLen);
    forall p: nat ensures Bit(acc', p) == (bitLen <= p < 32 && Bit(acc, p - bitLen)) {
      BitOfShl32(acc, bitLen, p);
    }
    WordFromBits(acc');
  }

  /** A masked byte moved into place. */
  function Placed(b: nat, bitLen: nat, t: nat): nat {
    Shl32(And(b, And(Shr(Mask(bitLen), t), 0xFF)), t)
  }

  lemma {:induction false} PlacedBit(b: nat, bitLen: nat, t: nat, p: nat)
    requires b < 256
    ensures Bit(Placed(b, bitLen, t), p) == (t <= p < 32 && p < bitLen && p < t + 8 && Bit(b, p - t))
  {
    var m := And(Shr(Mask(bitLen), t), 0xFF);
    var v := And(b, m);
    MaskedWord(b, m);
    BitOfShl32(v, t, p);
    if t <= p {
      var i := p - t;
      BitOfAnd(b, m, i);
      Mask8();
      BitOfAnd(Shr(Mask(bitLen), t), 0xFF, i);
      BitOfShr(Mask(bitLen), t, i);
      BitOfMask(bitLen, p);
      BitOfMask(8, i);
    }
  }

  lemma {:induction false} MaskedWord(b: nat, m: nat)
    requires b < 256
    ensures And(b, m) < WORD32
  {
    Mask8();
    forall i: nat | 8 <= i ensures !Bit(And(b, m), i) {
      BitOfAnd(b, m, i);
      HighBitsClear(b, 8, i);
    }
    LowBitsOnly(And(b, m), 8);
  }

  lemma {:induction false} ReadingStep(acc: nat, old': nat, cell: seq<Byte>, bitLen: nat, x: nat)
    requires x < |cell| && bitLen <= 8 * |cell|
    requires Reading(acc, old', BitString(cell), bitLen, 8 * (|cell| - x))
    ensures Reading(Or(acc, Placed(cell[x], bitLen, 8 * (|cell| - x - 1))), old', BitString(cell), bitLen,
      8 * (|cell| - x - 1))
  {
    hide Placed, BitString;
    var t, s := 8 * (|cell| - x - 1), BitString(cell);
    var acc' := Or(acc, Placed(cell[x], bitLen, t));
    forall p: nat
      ensures p < 32 ==> Bit(acc', p) == if p < bitLen then t <= p && s[|s| - 1 - p] else Bit(old', p - bitLen)
      ensures 32 <= p ==> !Bit(acc', p)
    {
      BitOfOr(acc, Placed(cell[x], bitLen, t), p);
      PlacedBit(cell[x], bitLen, t, p);
      if t <= p < t + 8 {
        BitStringAt(cell, x, p - t);
      }
      if 32 <= p { Mask32(); HighBitsClear(acc, 32, p); }
    }
    WordFromBits(acc');
  }

  lemma {:induction false} ReadingEnds(acc: nat, old': nat, r: seq<bool>, s: seq<bool>, bitLen: nat)
    requires bitLen <= |s| && |r| + bitLen <= 32
    requires Pending(old', r) && Reading(acc, old', s, bitLen, 0)
    ensures Pending(acc, r + s[|s| - bitLen..])
  {
    var u := s[|s| - bitLen..];
    assert |r + u| == |r| + bitLen;
  }

  /** The shift and inner loop of CompressArray. */
  method ReadCell(inp: seq<Byte>, j: nat, accValue: nat, bitLen: nat, bytePad: nat, ghost r: seq<bool>)
      returns (acc: nat)
    requires 8 <= bitLen && Pending(accValue, r) && |r| + bitLen <= 32
    requires j + Width(bitLen, bytePad) <= |inp|
    ensures var w := Width(bitLen, bytePad);
      Pending(acc, r + BitString(inp[j..j + w])[8 * w - bitLen..])
  {
    hide Reading, BitString, Shl32, And, Or, Shr, Mask, Pending;
    var inWidth, bitLenMask := Width(bitLen, bytePad), Mask(bitLen);
    ghost var cell := inp[j..j + inWidth];
    ghost var s := BitString(cell);
    PendingIsWord(accValue, r);
    ReadingStarts(accValue, s, bitLen, 8 * (inWidth - bytePad));
    acc := Shl32(accValue, bitLen);
    for x := bytePad to inWidth
      invariant Reading(acc, accValue, s, bitLen, 8 * (inWidth - x))
    {
      ReadingStep(acc, accValue, cell, bitLen, x);
      acc := Or(acc, Shl32(And(inp[j + x], And(Shr(bitLenMask, 8 * (inWidth - x - 1)), 0xFF)),
                           8 * (inWidth - x - 1)));
    }
    ReadingEnds(acc, accValue, r, s, bitLen);
  }

  lemma {:induction false} PendingIsWord(acc: nat, r: seq<bool>)
    requires Pending(acc, r)
    ensures acc < WORD32
  {}

  /** The output length CompressArray asserts. */
  function CompressedLen(inLen: nat, bitLen: nat, bytePad: nat): int
    requires bitLen > 0
  {
    bitLen * inLen / (8 * Width(bitLen, bytePad))
  }

  lemma {:induction false} ElementBitsLength(bytes: seq<nat>, bitLen: nat, w: nat, m: nat)
    requires 0 < bitLen <= 8 * w && |bytes| == m * w
    ensures |ElementBits(bytes, bitLen, w)| == m * bitLen
    decreases m
  {
    hide ElementBits, BitString;
    if m == 0 {
      NoElements(bytes, bitLen, w);
      assert bytes == [];
    } else {
      MulSucc(m - 1, w);
      MulSucc(m - 1, bitLen);
      AtLeast((m - 1) * w);
      var cell, rest := bytes[..w], bytes[w..];
      ElementBitsLength(rest, bitLen, w, m - 1);
      assert bytes == cell + rest;
      ElementBitsStep(cell, rest, bitLen, w);
    }
  }

  lemma {:induction false} AtLeast(n: nat)
    ensures 0 <= n
  {}

  lemma {:induction false} NoElements(bytes: seq<nat>, bitLen: nat, w: nat)
    requires 0 < bitLen <= 8 * w
    ensures |bytes| < w ==> ElementBits(bytes, bitLen, w) == []
  {}

  lemma {:induction false} CancelWidth(bits: nat, w: nat)
    requires w > 0
    ensures 8 * w > 0 && bits * w / (8 * w) == bits / 8
  {
    var q, r := bits / 8, bits % 8;
    assert bits == 8 * q + r;
    MulDist(8 * q, r, w);
    assert 8 * q * w == (8 * w) * q;
    MulGap(w, r, 8);
    RemainderUnique(bits * w, 8 * w, q, r * w);
  }

  lemma {:induction false} CompressedFits(inp: seq<nat>, bitLen: nat, bytePad: nat, m: nat)
    requires bitLen > 0 && |inp| == m * Width(bitLen, bytePad)
    ensures |Compressed(inp, bitLen, bytePad)| == CompressedLen(|inp|, bitLen, bytePad)
  {
    hide ElementBits, ByteString, Width;
    var w := Width(bitLen, bytePad);
    ElementBitsLength(inp, bitLen, w, m);
    assert bitLen * (m * w) == m * bitLen * w;
    CancelWidth(m * bitLen, w);
  }

  /** What remains to be written: the pending bits, then the unread cells. */
  ghost predicate Remaining(all: seq<nat>, i: nat, r: seq<bool>, unread: seq<nat>, bitLen: nat, w: nat)
    requires 0 < bitLen <= 8 * w
  {
    && i <= |all|
    && var t := r + ElementBits(unread, bitLen, w);
      all[i..] == ByteString(t[..|t| - |t| % 8])
  }

  lemma {:induction false} RemainingStarts(inp: seq<nat>, bitLen: nat, bytePad: nat)
    requires bitLen > 0
    ensures Remaining(Compressed(inp, bitLen, bytePad), 0, [], inp[0..], bitLen, Width(bitLen, bytePad))
  {
    hide ElementBits, ByteString, Width;
    var s := ElementBits(inp, bitLen, Width(bitLen, bytePad));
    assert [] + s == s && inp[0..] == inp;
  }

  lemma {:induction false} RemainingCell(all: seq<nat>, i: nat, r: seq<bool>, cell: seq<nat>, rest: seq<nat>,
      bitLen: nat, w: nat)
    requires 0 < bitLen <= 8 * w && |cell| == w
    requires Remaining(all, i, r, cell + rest, bitLen, w)
    ensures Remaining(all, i, r + BitString(cell)[8 * w - bitLen..], rest, bitLen, w)
  {
    hide ElementBits, ByteString, BitString;
    ElementBitsStep(cell, rest, bitLen, w);
    assert r + (BitString(cell)[8 * w - bitLen..] + ElementBits(rest, bitLen, w)) ==
        r + BitString(cell)[8 * w - bitLen..] + ElementBits(rest, bitLen, w);
  }

  /** A byte still to be written needs eight more bits, so a cell is left to read. */
  lemma {:induction false} CellLeft(all: seq<nat>, i: nat, r: seq<bool>, unread: seq<nat>, bitLen: nat, w: nat)
    requires 0 < bitLen <= 8 * w && |r| < 8 && i < |all|
    requires Remaining(all, i, r, unread, bitLen, w)
    ensures w <= |unread|
  {
    hide ByteString, ElementBits;
    NoElements(unread, bitLen, w);
  }

  lemma {:induction false} RemainingByte(all: seq<nat>, i: nat, r: seq<bool>, unread: seq<nat>, bitLen: nat, w: nat)
    requires 0 < bitLen <= 8 * w && 8 <= |r|
    requires Remaining(all, i, r, unread, bitLen, w)
    ensures i < |all| && all[i] == Num(r[..8])
    ensures Remaining(all, i + 1, r[8..], unread, bitLen, w)
  {
    hide ElementBits, ByteString, Num;
    var u := ElementBits(unread, bitLen, w);
    var t := r + u;
    assert r[8..] + u == t[8..] && r[..8] == t[..8];
    FirstByte(t);
    assert all[i..][1..] == all[i + 1..];
  }

  /** Writing the first byte of a bit string leaves the bytes of the rest. */
  lemma {:induction false} FirstByte(t: seq<bool>)
    requires 8 <= |t|
    ensures |t[8..]| % 8 == |t| % 8
    ensures ByteString(t[..|t| - |t| % 8]) == [Num(t[..8])] + ByteString(t[8..][..|t[8..]| - |t| % 8])
  {
    hide ByteString, Num;
    var s, u := t[..|t| - |t| % 8], t[8..][..|t[8..]| - |t| % 8];
    assert u == s[8..];
    forall x | 0 <= x < |ByteString(s)| ensures ByteString(s)[x] == ([Num(t[..8])] + ByteString(u))[x] {
      ByteAt(s, x);
      if x == 0 {
        assert s[0..8] == t[..8];
      } else {
        ByteAt(u, x - 1);
        assert u[8 * (x - 1)..8 * (x - 1) + 8] == s[8 * x..8 * x + 8];
      }
    }
  }

  /** The byte CompressArray stores is the oldest eight pending bits. */
  lemma {:induction false} TopByte(acc: nat, r: seq<bool>)
    requires Pending(acc, r) && 8 <= |r|
    ensures And(Shr(acc, |r| - 8), 0xFF) == Num(r[..8]) < 256
    ensures Pending(acc, r[8..])
  {
    Mask8();
    var v, n := And(Shr(acc, |r| - 8), 0xFF), Num(r[..8]);
    forall i: nat ensures Bit(v, i) == Bit(n, i) {
      BitOfAnd(Shr(acc, |r| - 8), 0xFF, i);
      BitOfShr(acc, |r| - 8, i);
      BitOfMask(8, i);
      NumBits(r[..8], i);
    }
    BitsExtensional(v, n);
    NumBound(r[..8]);
  }

  method CompressArray(inp: seq<Byte>, out: array<Byte>, bitLen: nat, bytePad: nat, ghost m: nat)
    requires bitLen >= 8 && 32 >= 7 + bitLen
    requires |inp| == m * Width(bitLen, bytePad)
    requires out.Length == CompressedLen(|inp|, bitLen, bytePad)
    modifies out
    ensures out[..] == Compressed(inp, bitLen, bytePad)
  {
    hide Compressed, Remaining, Pending, BitString, Width, Num, And, Shr, CompressedLen;
    var inWidth := Width(bitLen, bytePad);
    var accBits: nat, accValue: nat, j: nat := 0, 0, 0;
    ghost var r: seq<bool> := [];
    ghost var all := Compressed(inp, bitLen, bytePad);
    CompressedFits(inp, bitLen, bytePad, m);
    NothingPending();
    RemainingStarts(inp, bitLen, bytePad);
    for i := 0 to out.Length
      invariant |r| == accBits < bitLen && Pending(accValue, r)
      invariant j <= |inp| && Remaining(all, i, r, inp[j..], bitLen, inWidth)
      invariant out[..i] == all[..i]
    {
      if accBits < 8 {
        CellLeft(all, i, r, inp[j..], bitLen, inWidth);
        ghost var cell, rest := inp[j..j + inWidth], inp[j + inWidth..];
        assert inp[j..] == cell + rest;
        RemainingCell(all, i, r, cell, rest, bitLen, inWidth);
        accValue := ReadCell(inp, j, accValue, bitLen, bytePad, r);
        r := r + BitString(cell)[8 * inWidth - bitLen..];
        j := j + inWidth;
        accBits := accBits + bitLen;
      }
      TopByte(accValue, r);
      RemainingByte(all, i, r, inp[j..], bitLen, inWidth);
      accBits := accBits - 8;
      out[i] := And(Shr(accValue, accBits), 0xFF);
      r := r[8..];
      assert all[..i + 1] == all[..i] + [all[i]];
    }
    assert all[..|all|] == all;
  }
}
