/** Index lists of Equihash: the 4-byte big-endian form that rows carry, its
    comparison by memcmp, and the minimal form of src/equihash.cpp. */
module IndexCodec {
  import opened Words
  import opened Packing

  /** An eh_index. */
  type Index = i: nat | i < WORD32 witness 0

  /** EhIndexToArray: most significant byte first. */
  function IndexToArray(i: Index): (a: seq<Byte>)
    ensures |a| == 4
  {
    [i / 0x100_0000, i / 0x1_0000 % 256, i / 0x100 % 256, i % 256]
  }

  /** ArrayToEhIndex. */
  function ArrayToIndex(a: seq<Byte>): Index
    requires |a| == 4
  {
    var b0: nat, b1: nat, b2: nat, b3: nat := a[0], a[1], a[2], a[3];
    ((b0 * 256 + b1) * 256 + b2) * 256 + b3
  }

  lemma {:induction false} ArrayOfIndex(i: Index)
    ensures ArrayToIndex(IndexToArray(i)) == i
  {}

  lemma {:induction false} IndexOfArray(a: seq<Byte>)
    requires |a| == 4
    ensures IndexToArray(ArrayToIndex(a)) == a
  {
    var b0: nat, b1: nat, b2: nat, b3: nat := a[0], a[1], a[2], a[3];
    SplitBytes(b0, b1, b2, b3);
  }

  lemma {:induction false} SplitBytes(b0: nat, b1: nat, b2: nat, b3: nat)
    requires b0 < 256 && b1 < 256 && b2 < 256 && b3 < 256
    ensures var i := ((b0 * 256 + b1) * 256 + b2) * 256 + b3;
      i / 0x100_0000 == b0 && i / 0x1_0000 % 256 == b1 && i / 0x100 % 256 == b2 && i % 256 == b3
  {
    var p := (b0 * 256 + b1) * 256 + b2;
    var i := p * 256 + b3;
    assert i / 0x100 == p;
    assert i / 0x1_0000 == p / 256 == b0 * 256 + b1;
  }

  /** The index part of a row. */
  function Flat(indices: seq<Index>): (s: seq<Byte>)
    ensures |s| == 4 * |indices|
  {
    if indices == [] then [] else IndexToArray(indices[0]) + Flat(indices[1..])
  }

  function Unflat(s: seq<Byte>): (indices: seq<Index>)
    ensures |indices| == |s| / 4
  {
    if |s| < 4 then [] else [ArrayToIndex(s[..4])] + Unflat(s[4..])
  }

  lemma {:induction false} UnflatOfFlat(indices: seq<Index>)
    ensures Unflat(Flat(indices)) == indices
  {
    if indices != [] {
      ArrayOfIndex(indices[0]);
      UnflatOfFlat(indices[1..]);
      assert Flat(indices)[..4] == IndexToArray(indices[0]);
      assert Flat(indices)[4..] == Flat(indices[1..]);
    }
  }

  lemma {:induction false} FlatOfUnflat(s: seq<Byte>)
    requires |s| % 4 == 0
    ensures Flat(Unflat(s)) == s
  {
    if s != [] {
      IndexOfArray(s[..4]);
      FlatOfUnflat(s[4..]);
      assert Unflat(s)[1..] == Unflat(s[4..]);
      assert s == s[..4] + s[4..];
    }
  }

  // --- memcmp on index arrays is the order on index lists -------------------------

  /** memcmp(s, t, n) < 0 */
  predicate MemLess(s: seq<nat>, t: seq<nat>)
    requires |s| == |t|
  {
    s != [] && (s[0] < t[0] || (s[0] == t[0] && MemLess(s[1..], t[1..])))
  }

  /** memcmp: less at the first place where they differ. */
  lemma {:induction false} MemLessIs(s: seq<nat>, t: seq<nat>)
    requires |s| == |t|
    ensures MemLess(s, t) <==> exists k :: 0 <= k < |s| && s[..k] == t[..k] && s[k] < t[k]
  {
    if s != [] {
      MemLessIs(s[1..], t[1..]);
      if k :| 0 <= k < |s| && s[..k] == t[..k] && s[k] < t[k] {
        if k > 0 {
          assert s[0] == s[..k][0] == t[..k][0] == t[0];
          assert s[1..][..k - 1] == s[..k][1..] && t[1..][..k - 1] == t[..k][1..];
          assert s[1..][k - 1] == s[k] && t[1..][k - 1] == t[k];
        }
      }
      if MemLess(s, t) {
        if s[0] < t[0] {
          assert s[..0] == t[..0];
        } else {
          var j :| 0 <= j < |s[1..]| && s[1..][..j] == t[1..][..j] && s[1..][j] < t[1..][j];
          assert s[..j + 1] == [s[0]] + s[1..][..j] && t[..j + 1] == [t[0]] + t[1..][..j];
          assert s[j + 1] < t[j + 1];
        }
      }
    }
  }

  /** The big-endian form makes byte order and index order agree. */
  lemma {:induction false} MemLessFlat(a: seq<Index>, b: seq<Index>)
    requires |a| == |b|
    ensures MemLess(Flat(a), Flat(b)) == MemLess(a, b)
  {
    if a != [] {
      MemLessFlat(a[1..], b[1..]);
      MemLessFour(IndexToArray(a[0]), IndexToArray(b[0]), Flat(a[1..]), Flat(b[1..]));
      ArrayOfIndex(a[0]);
      ArrayOfIndex(b[0]);
    }
  }

  lemma {:induction false} MemLessFour(x: seq<Byte>, y: seq<Byte>, s: seq<Byte>, t: seq<Byte>)
    requires |x| == |y| == 4 && |s| == |t|
    ensures MemLess(x + s, y + t)
        <==> ArrayToIndex(x) < ArrayToIndex(y) || (ArrayToIndex(x) == ArrayToIndex(y) && MemLess(s, t))
  {
    hide MemLess, ArrayToIndex;
    PeelByte(x, y, 3, s, t);
    PeelByte(x, y, 2, s, t);
    PeelByte(x, y, 1, s, t);
    PeelByte(x, y, 0, s, t);
    assert x[4..] + s == s && y[4..] + t == t;
    assert x[0..] + s == x + s && y[0..] + t == y + t;
    NumberOrder(x, y, MemLess(s, t));
  }

  lemma {:induction false} PeelByte(x: seq<Byte>, y: seq<Byte>, k: nat, s: seq<Byte>, t: seq<Byte>)
    requires |x| == |y| == 4 && |s| == |t| && k < 4
    ensures MemLess(x[k..] + s, y[k..] + t)
        <==> x[k] < y[k] || (x[k] == y[k] && MemLess(x[k + 1..] + s, y[k + 1..] + t))
  {
    assert (x[k..] + s)[1..] == x[k + 1..] + s;
    assert (y[k..] + t)[1..] == y[k + 1..] + t;
  }

  lemma {:induction false} NumberOrder(x: seq<Byte>, y: seq<Byte>, m: bool)
    requires |x| == |y| == 4
    ensures (x[0] < y[0] || (x[0] == y[0] && (x[1] < y[1] || (x[1] == y[1] &&
             (x[2] < y[2] || (x[2] == y[2] && (x[3] < y[3] || (x[3] == y[3] && m))))))))
        <==> ArrayToIndex(x) < ArrayToIndex(y) || (ArrayToIndex(x) == ArrayToIndex(y) && m)
  {
    var x0: nat, x1: nat, x2: nat, x3: nat := x[0], x[1], x[2], x[3];
    var y0: nat, y1: nat, y2: nat, y3: nat := y[0], y[1], y[2], y[3];
    PairOrder(x0, x1, y0, y1);
    PairOrder(x0 * 256 + x1, x2, y0 * 256 + y1, y2);
    PairOrder((x0 * 256 + x1) * 256 + x2, x3, (y0 * 256 + y1) * 256 + y2, y3);
  }

  lemma {:induction false} PairOrder(p: nat, b: nat, q: nat, c: nat)
    requires b < 256 && c < 256
    ensures p * 256 + b < q * 256 + c <==> p < q || (p == q && b < c)
    ensures p * 256 + b == q * 256 + c <==> p == q && b == c
  {}

  /** memcmp orders any two different arrays one way. */
  lemma {:induction false} MemLessTotal(s: seq<nat>, t: seq<nat>)
    requires |s| == |t|
    ensures !(MemLess(s, t) && MemLess(t, s))
    ensures s != t ==> MemLess(s, t) || MemLess(t, s)
    ensures !MemLess(s, s)
  {
    if s != [] {
      MemLessTotal(s[1..], t[1..]);
      if s[1..] == t[1..] && s[0] == t[0] {
        assert s == [s[0]] + s[1..] == t;
      }
    }
  }

  // --- The minimal form ----------------------------------------------------------

  function BytePad(cBitLen: nat): nat
    requires cBitLen + 1 <= 32
  {
    4 - (cBitLen + 1 + 7) / 8
  }

  /** What GetMinimalFromIndices computes. */
  function Minimal(indices: seq<Index>, cBitLen: nat): seq<nat>
    requires cBitLen + 1 <= 32
  {
    Compressed(Flat(indices), cBitLen + 1, BytePad(cBitLen))
  }

  ghost predicate IndicesFit(indices: seq<Index>, bitLen: nat) {
    forall k :: 0 <= k < |indices| ==> indices[k] <= Mask(bitLen)
  }

  lemma {:induction false} IndexBits(i: Index)
    ensures BitString(IndexToArray(i)) == Bits(i, 32)
  {
    var a, s := IndexToArray(i), BitString(IndexToArray(i));
    ShrBytes(i);
    forall p | 0 <= p < 32 ensures s[p] == Bits(i, 32)[p] {
      var x, q := p / 8, 7 - p % 8;
      BitStringAt(a, x, q);
      Mask8();
      BitOfMod(Shr(i, 24 - 8 * x), 256, 8, q);
      BitOfShr(i, 24 - 8 * x, q);
    }
  }

  lemma {:induction false} ShrBytes(i: Index)
    ensures Shr(i, 0) == i && Shr(i, 8) == i / 0x100 && Shr(i, 16) == i / 0x1_0000 && Shr(i, 24) == i / 0x100_0000
  {
    ShrByte(i, 0); ShrByte(i, 8); ShrByte(i, 16);
  }

  lemma {:induction false} ShrByte(i: nat, n: nat)
    ensures Shr(i, n + 8) == Shr(i, n) / 256
    decreases n
  {
    if n == 0 {
      assert Shr(i, 8) == Shr(i / 2, 7);
      assert Shr(i / 2, 7) == Shr(i / 4, 6);
      assert Shr(i / 4, 6) == Shr(i / 8, 5);
      assert Shr(i / 8, 5) == Shr(i / 16, 4);
      assert Shr(i / 16, 4) == Shr(i / 32, 3);
      assert Shr(i / 32, 3) == Shr(i / 64, 2);
      assert Shr(i / 64, 2) == Shr(i / 128, 1);
      assert Shr(i / 128, 1) == Shr(i / 256, 0);
    } else {
      ShrByte(i / 2, n - 1);
    }
  }

  lemma {:induction false} FlatFits(indices: seq<Index>, bitLen: nat)
    requires 0 < bitLen <= 32 && IndicesFit(indices, bitLen)
    ensures CellsFit(Flat(indices), bitLen, 4)
    ensures |ElementBits(Flat(indices), bitLen, 4)| == |indices| * bitLen
  {
    if indices != [] {
      hide BitString, Bits, IndexToArray, ElementBits;
      var i, s := indices[0], Flat(indices);
      FlatFits(indices[1..], bitLen);
      assert s[..4] == IndexToArray(i) && s[4..] == Flat(indices[1..]);
      HighZeros(i, bitLen);
      ElementBitsStep(IndexToArray(i), Flat(indices[1..]), bitLen, 4);
      MulSucc(|indices| - 1, bitLen);
    } else {
      assert ElementBits([], bitLen, 4) == [];
    }
  }

  lemma {:induction false} HighZeros(i: Index, bitLen: nat)
    requires 0 < bitLen <= 32 && i <= Mask(bitLen)
    ensures BitString(IndexToArray(i))[..32 - bitLen] == Repeat(false, 32 - bitLen)
  {
    IndexBits(i);
    forall p | 0 <= p < 32 - bitLen ensures !Bits(i, 32)[p] { HighBitsClear(i, bitLen, 31 - p); }
  }

  /** Packing loses no index below 2^(cBitLen+1). */
  lemma {:induction false} IndicesOfMinimal(indices: seq<Index>, cBitLen: nat)
    requires cBitLen + 1 <= 32 && IndicesFit(indices, cBitLen + 1) && |indices| * (cBitLen + 1) % 8 == 0
    ensures var e := Expanded(Minimal(indices, cBitLen), cBitLen + 1, BytePad(cBitLen));
      IsBytes(e) && Unflat(e) == indices
  {
    FlatFits(indices, cBitLen + 1);
    ExpandUndoesCompress(Flat(indices), cBitLen + 1, BytePad(cBitLen));
    UnflatOfFlat(indices);
  }

  lemma {:induction false} CellsAreBytes(s: seq<bool>, bitLen: nat, w: nat)
    requires 0 < bitLen <= 8 * w
    ensures IsBytes(CellsOf(s, bitLen, w))
    ensures |CellsOf(s, bitLen, w)| * bitLen == w * (|s| - |s| % bitLen)
    decreases |s|
  {
    hide CellsOf, Cell;
    if |s| < bitLen {
      NoCells(s, bitLen, w);
      RemainderUnique(|s|, bitLen, 0, |s|);
    } else {
      var e, rest := s[..bitLen], s[bitLen..];
      CellsAreBytes(rest, bitLen, w);
      assert s == e + rest;
      CellsOfStep(e, rest, bitLen, w);
      CellBits(e, w);
      ModShift(|s|, bitLen);
      CellCount(w, |CellsOf(rest, bitLen, w)|, bitLen, |rest| - |rest| % bitLen);
    }
  }

  lemma {:induction false} CellCount(w: nat, k: nat, bitLen: nat, n: nat)
    requires k * bitLen == w * n
    ensures (w + k) * bitLen == w * (bitLen + n)
  {
    MulDist(w, k, bitLen);
    MulDist(bitLen, n, w);
  }

  lemma {:induction false} NoCells(s: seq<bool>, bitLen: nat, w: nat)
    requires |s| < bitLen <= 8 * w
    ensures CellsOf(s, bitLen, w) == []
  {}

  /** What GetIndicesFromMinimal computes. */
  function Unpacked(minimal: seq<Byte>, cBitLen: nat): seq<Index>
    requires cBitLen + 1 <= 32
  {
    CellsAreBytes(BitString(minimal), cBitLen + 1, Width(cBitLen + 1, BytePad(cBitLen)));
    Unflat(Expanded(minimal, cBitLen + 1, BytePad(cBitLen)))
  }

  lemma {:induction false} ExpandedWhole(minimal: seq<Byte>, cBitLen: nat, n: nat)
    requires cBitLen + 1 <= 32 && 8 * |minimal| == n * (cBitLen + 1)
    ensures var e := Expanded(minimal, cBitLen + 1, BytePad(cBitLen));
      IsBytes(e) && |e| == 4 * n && ExpandedLen(|minimal|, cBitLen + 1, BytePad(cBitLen)) == 4 * n
    ensures 8 * 4 * |minimal| / (cBitLen + 1) == 4 * n
  {
    hide CellsOf, BitString;
    var b, bits := cBitLen + 1, 8 * |minimal|;
    assert b * n == n * b;
    RemainderUnique(bits, b, n, 0);
    CellsAreBytes(BitString(minimal), b, 4);
    var k := |CellsOf(BitString(minimal), b, 4)|;
    assert k * b == 4 * (n * b) == b * (4 * n);
    RemainderUnique(k * b, b, 4 * n, 0);
    assert b * k == k * b;
    RemainderUnique(k * b, b, k, 0);
  }

  /** Unpacking loses no bit of a minimal form of whole indices. */
  lemma {:induction false} MinimalOfUnpacked(minimal: seq<Byte>, cBitLen: nat, n: nat)
    requires cBitLen + 1 <= 32 && 8 * |minimal| == n * (cBitLen + 1)
    ensures Minimal(Unpacked(minimal, cBitLen), cBitLen) == minimal
    ensures |Unpacked(minimal, cBitLen)| == n
  {
    hide Expanded, Compressed, Unflat, Flat;
    ExpandedWhole(minimal, cBitLen, n);
    FlatOfUnflat(Expanded(minimal, cBitLen + 1, BytePad(cBitLen)));
    assert (cBitLen + 1) * n == n * (cBitLen + 1);
    RemainderUnique(8 * |minimal|, cBitLen + 1, n, 0);
    CompressUndoesExpand(minimal, cBitLen + 1, BytePad(cBitLen));
  }

  lemma {:induction false} UnpackedCellsFit(s: seq<bool>, bitLen: nat)
    requires 0 < bitLen <= 32
    ensures IsBytes(CellsOf(s, bitLen, 4)) && IndicesFit(Unflat(CellsOf(s, bitLen, 4)), bitLen)
    decreases |s|
  {
    CellsAreBytes(s, bitLen, 4);
    hide CellsOf, Cell, Unflat;
    if |s| < bitLen {
      NoCells(s, bitLen, 4);
      NothingToUnflat();
    } else {
      var e, rest := s[..bitLen], s[bitLen..];
      UnpackedCellsFit(rest, bitLen);
      assert s == e + rest;
      CellsOfStep(e, rest, bitLen, 4);
      CellBits(e, 4);
      UnflatStep(Cell(e, 4), CellsOf(rest, bitLen, 4));
      CellFits(e);
    }
  }

  lemma {:induction false} NothingToUnflat()
    ensures Unflat([]) == []
  {}

  lemma {:induction false} UnflatStep(a: seq<Byte>, s: seq<Byte>)
    requires |a| == 4
    ensures Unflat(a + s) == [ArrayToIndex(a)] + Unflat(s)
  {
    assert (a + s)[..4] == a && (a + s)[4..] == s;
  }

  lemma {:induction false} CellFits(e: seq<bool>)
    requires |e| <= 32 && IsBytes(Cell(e, 4))
    ensures ArrayToIndex(Cell(e, 4)) <= Mask(|e|)
  {
    hide Cell, ArrayToIndex, IndexToArray, BitString, Mask;
    var i := ArrayToIndex(Cell(e, 4));
    IndexOfArray(Cell(e, 4));
    IndexBits(i);
    CellBits(e, 4);
    assert (Repeat(false, 32 - |e|) + e)[..32 - |e|] == Repeat(false, 32 - |e|);
    LeadingZeros(i, |e|);
  }

  lemma {:induction false} LeadingZeros(i: Index, n: nat)
    requires n <= 32 && Bits(i, 32)[..32 - n] == Repeat(false, 32 - n)
    ensures i <= Mask(n)
  {
    hide Bits, Bit, Mask, Repeat;
    forall p: nat | n <= p ensures !Bit(i, p) {
      if p < 32 {
        ZeroAt(i, n, p);
      } else {
        Mask32();
        HighBitsClear(i, 32, p);
      }
    }
    LowBitsOnly(i, n);
  }

  lemma {:induction false} ZeroAt(i: Index, n: nat, p: nat)
    requires n <= p < 32 && Bits(i, 32)[..32 - n] == Repeat(false, 32 - n)
    ensures !Bit(i, p)
  {
    hide Bit;
    assert Bits(i, 32)[..32 - n][31 - p] == Repeat(false, 32 - n)[31 - p];
  }

  /** Unpacked indices are below 2^(cBitLen+1). */
  lemma {:induction false} UnpackedFits(minimal: seq<Byte>, cBitLen: nat)
    requires cBitLen + 1 <= 32
    ensures IndicesFit(Unpacked(minimal, cBitLen), cBitLen + 1)
  {
    UnpackedCellsFit(BitString(minimal), cBitLen + 1);
  }

  // --- The procedures ---------------------------------------------------------------

  method GetIndicesFromMinimal(minimal: seq<Byte>, cBitLen: nat, ghost n: nat) returns (ret: seq<Index>)
    requires 8 <= cBitLen + 1 <= 25 && 8 * |minimal| == n * (cBitLen + 1)
    ensures ret == Unpacked(minimal, cBitLen)
  {
    hide Expanded, Unflat, ArrayToIndex, ExpandedLen, BytePad, Unpacked;
    ExpandedWhole(minimal, cBitLen, n);
    var lenIndices := 8 * 4 * |minimal| / (cBitLen + 1);
    var array' := new Byte[lenIndices](_ => 0);
    ExpandArray(minimal, array', cBitLen + 1, BytePad(cBitLen));
    ghost var e := Expanded(minimal, cBitLen + 1, BytePad(cBitLen));
    assert array'[..] == e;
    ret := ReadIndices(array'[..]);
    UnpackedIs(minimal, cBitLen);
  }

  /** The loop of GetIndicesFromMinimal. */
  method ReadIndices(array': seq<Byte>) returns (ret: seq<Index>)
    requires |array'| % 4 == 0
    ensures ret == Unflat(array')
  {
    hide Unflat, ArrayToIndex;
    ret := [];
    var i := 0;
    assert array'[0..] == array';
    while i < |array'|
      invariant i % 4 == 0 && i <= |array'|
      invariant Unflat(array') == ret + Unflat(array'[i..])
    {
      assert array'[i..] == array'[i..i + 4] + array'[i + 4..];
      UnflatStep(array'[i..i + 4], array'[i + 4..]);
      ret := ret + [ArrayToIndex(array'[i..i + 4])];
      i := i + 4;
    }
    NothingToUnflat();
  }

  lemma {:induction false} UnpackedIs(minimal: seq<Byte>, cBitLen: nat)
    requires cBitLen + 1 <= 32 && IsBytes(Expanded(minimal, cBitLen + 1, BytePad(cBitLen)))
    ensures Unpacked(minimal, cBitLen) == Unflat(Expanded(minimal, cBitLen + 1, BytePad(cBitLen)))
  {}

  method GetMinimalFromIndices(indices: seq<Index>, cBitLen: nat) returns (ret: array<Byte>)
    requires 8 <= cBitLen + 1 <= 25
    ensures ret[..] == Minimal(indices, cBitLen)
  {
    hide Compressed, Flat, IndexToArray;
    var lenIndices := 4 * |indices|;
    var minLen := (cBitLen + 1) * lenIndices / (8 * 4);
    var bytes: seq<Byte> := [];
    FlatStart(indices);
    for i := 0 to |indices|
      invariant Flat(indices) == bytes + Flat(indices[i..])
    {
      FlatStep(indices, i);
      bytes := bytes + IndexToArray(indices[i]);
    }
    FlatEnd(indices);
    assert bytes == Flat(indices);
    ret := new Byte[minLen](_ => 0);
    CompressArray(bytes, ret, cBitLen + 1, BytePad(cBitLen), |indices|);
  }

  lemma {:induction false} FlatStart(indices: seq<Index>)
    ensures Flat(indices) == [] + Flat(indices[0..])
  {
    assert indices[0..] == indices;
  }

  lemma {:induction false} FlatStep(indices: seq<Index>, i: nat)
    requires i < |indices|
    ensures forall s: seq<Byte> :: s + Flat(indices[i..]) == s + IndexToArray(indices[i]) + Flat(indices[i + 1..])
  {
    assert indices[i..][1..] == indices[i + 1..];
  }

  lemma {:induction false} FlatEnd(indices: seq<Index>)
    ensures Flat(indices[|indices|..]) == []
  {}
}
