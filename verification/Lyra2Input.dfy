/** The input block of LYRA2 (src/Lyra2.c): password, salt and parameters with 10*1
    padding, and why no two inputs share one. */
module Lyra2Input {
  import opened Words
  import opened Powers

  datatype Input = Input(kLen: nat, pwd: seq<Byte>, salt: seq<Byte>, timeCost: nat, nRows: nat, nCols: nat)

  predicate Fits(i: Input) {
    && i.kLen < WORD64 && |i.pwd| < WORD64 && |i.salt| < WORD64
    && i.timeCost < WORD64 && i.nRows < WORD64 && i.nCols < WORD64
  }

  /** n bytes of a number, least significant first. */
  function LittleEndian(v: nat, n: nat): (s: seq<Byte>)
    ensures |s| == n
  {
    if n == 0 then [] else [v % 256] + LittleEndian(v / 256, n - 1)
  }

  lemma {:induction false} LittleEndianInjective(v: nat, w: nat, n: nat)
    requires v < Pow(256, n) && w < Pow(256, n) && LittleEndian(v, n) == LittleEndian(w, n)
    ensures v == w
  {
    if n > 0 {
      assert LittleEndian(v, n)[1..] == LittleEndian(v / 256, n - 1);
      assert LittleEndian(w, n)[1..] == LittleEndian(w / 256, n - 1);
      assert LittleEndian(v, n)[0] == v % 256 && LittleEndian(w, n)[0] == w % 256;
      LittleEndianInjective(v / 256, w / 256, n - 1);
    }
  }

  /** A number of 64 bits as the code copies it. */
  function Le64(v: nat): (s: seq<Byte>)
    ensures |s| == 8
  {
    LittleEndian(v, 8)
  }

  lemma {:induction false} Le64Injective(v: nat, w: nat)
    requires v < WORD64 && w < WORD64 && Le64(v) == Le64(w)
    ensures v == w
  {
    assert Pow(256, 2) == 65536;
    assert Pow(256, 4) == 0x1_0000_0000;
    assert Pow(256, 8) == 256 * 256 * Pow(256, 6) == 256 * 256 * 256 * 256 * Pow(256, 4);
    LittleEndianInjective(v, w, 8);
  }

  function Basil(i: Input): (s: seq<Byte>)
    ensures |s| == 48
  {
    Le64(i.kLen) + Le64(|i.pwd|) + Le64(|i.salt|) + Le64(i.timeCost) + Le64(i.nRows) + Le64(i.nCols)
  }

  /** Blocks of 64 bytes that hold len bytes and the padding. */
  function BlockCount(len: nat): (n: nat)
    ensures 64 * n > len
  {
    len / 64 + 1
  }

  /** b ^ 1 */
  function Flip(b: Byte): Byte { if b % 2 == 0 then b + 1 else b - 1 }

  /** Only the last bit changes. */
  lemma {:induction false} FlipBits(b: Byte, k: nat)
    ensures Bit(Flip(b), k) == (Bit(b, k) != (k == 0))
  {
    assert Flip(b) / 2 == b / 2;
  }

  function FlipLast(s: seq<Byte>): seq<Byte>
    requires s != []
  {
    s[|s| - 1 := Flip(s[|s| - 1])]
  }

  function Padded(m: seq<Byte>): seq<Byte> {
    FlipLast(m + [0x80] + Repeat(0, 64 * BlockCount(|m|) - |m| - 1))
  }

  function Message(i: Input): seq<Byte> { i.pwd + i.salt + Basil(i) }

  // --- No two inputs share a block ------------------------------------------------------------

  /** The padding can be removed. */
  lemma {:induction false} PaddedInjective(m: seq<Byte>, n: seq<Byte>)
    requires Padded(m) == Padded(n)
    ensures m == n
  {
    var a := m + [0x80] + Repeat(0, 64 * BlockCount(|m|) - |m| - 1);
    var b := n + [0x80] + Repeat(0, 64 * BlockCount(|n|) - |n| - 1);
    FlipLastInjective(a, b);
    StopAt(m, 64 * BlockCount(|m|) - |m| - 1);
    StopAt(n, 64 * BlockCount(|n|) - |n| - 1);
    assert m == a[..|m|] && n == b[..|n|];
  }

  /** The stop byte is the last that is not zero. */
  lemma {:induction false} StopAt(m: seq<Byte>, z: nat)
    ensures var a := m + [0x80] + Repeat(0, z);
      a[|m|] == 0x80 && forall k :: |m| < k < |a| ==> a[k] == 0
  {}

  lemma {:induction false} FlipLastInjective(a: seq<Byte>, b: seq<Byte>)
    requires a != [] && b != [] && FlipLast(a) == FlipLast(b)
    ensures a == b
  {
    var k := |a| - 1;
    assert |FlipLast(a)| == |a| && |FlipLast(b)| == |b|;
    assert FlipLast(a)[k] == Flip(a[k]) && FlipLast(b)[k] == Flip(b[k]);
    FlipInjective(a[k], b[k]);
    assert forall i :: 0 <= i < k ==> a[i] == FlipLast(a)[i] && b[i] == FlipLast(b)[i];
  }

  lemma {:induction false} FlipInjective(x: Byte, y: Byte)
    requires Flip(x) == Flip(y)
    ensures x == y
  {}

  lemma {:induction false} Cut(s: seq<Byte>, t: seq<Byte>, u: seq<Byte>, v: seq<Byte>)
    requires s + t == u + v && (|t| == |v| || |s| == |u|)
    ensures s == u && t == v
  {
    assert (s + t)[..|s|] == s && (u + v)[..|u|] == u;
    assert (s + t)[|s|..] == t && (u + v)[|u|..] == v;
  }

  lemma {:induction false} BasilInjective(i: Input, j: Input)
    requires Fits(i) && Fits(j) && Basil(i) == Basil(j)
    ensures |i.pwd| == |j.pwd| && |i.salt| == |j.salt|
    ensures i.kLen == j.kLen && i.timeCost == j.timeCost && i.nRows == j.nRows && i.nCols == j.nCols
  {
    hide Le64;
    var x, y := Basil(i), Basil(j);
    assert Le64(i.kLen) == x[0..8] && Le64(j.kLen) == y[0..8];
    assert Le64(|i.pwd|) == x[8..16] && Le64(|j.pwd|) == y[8..16];
    assert Le64(|i.salt|) == x[16..24] && Le64(|j.salt|) == y[16..24];
    assert Le64(i.timeCost) == x[24..32] && Le64(j.timeCost) == y[24..32];
    assert Le64(i.nRows) == x[32..40] && Le64(j.nRows) == y[32..40];
    assert Le64(i.nCols) == x[40..48] && Le64(j.nCols) == y[40..48];
    Le64Injective(i.kLen, j.kLen);
    Le64Injective(|i.pwd|, |j.pwd|);
    Le64Injective(|i.salt|, |j.salt|);
    Le64Injective(i.timeCost, j.timeCost);
    Le64Injective(i.nRows, j.nRows);
    Le64Injective(i.nCols, j.nCols);
  }

  /** Different passwords, salts or parameters give different padded inputs. */
  lemma {:induction false} InputInjective(i: Input, j: Input)
    requires Fits(i) && Fits(j) && Padded(Message(i)) == Padded(Message(j))
    ensures i == j
  {
    hide Basil, Padded;
    PaddedInjective(Message(i), Message(j));
    Cut(i.pwd + i.salt, Basil(i), j.pwd + j.salt, Basil(j));
    BasilInjective(i, j);
    Cut(i.pwd, i.salt, j.pwd, j.salt);
  }

  // --- The code -----------------------------------------------------------------------------------

  /** memcpy(ptrByte, data, |data|), returning the advanced pointer. */
  method Append(mem: array<Byte>, ptrByte: nat, data: seq<Byte>) returns (next: nat)
    requires ptrByte + |data| <= mem.Length
    modifies mem
    ensures next == ptrByte + |data| && mem[..] == old(mem[..ptrByte]) + data + old(mem[ptrByte + |data|..])
  {
    forall k | 0 <= k < |data| {
      mem[ptrByte + k] := data[k];
    }
    next := ptrByte + |data|;
  }

  /** memset(mem, 0, size) */
  method Clear(mem: array<Byte>, size: nat)
    requires size <= mem.Length
    modifies mem
    ensures mem[..size] == Repeat(0, size)
  {
    forall k | 0 <= k < size {
      mem[k] := 0;
    }
  }

  /** A prefix grows, the zeros after it shrink. */
  method AppendTo(mem: array<Byte>, ptrByte: nat, data: seq<Byte>, size: nat, ghost front: seq<Byte>)
      returns (next: nat)
    requires ptrByte == |front| && ptrByte + |data| <= size <= mem.Length
    requires mem[..size] == front + Repeat(0, size - ptrByte)
    modifies mem
    ensures next == ptrByte + |data| && mem[..size] == front + data + Repeat(0, size - next)
  {
    ghost var before := mem[..];
    assert before[..size][ptrByte + |data|..] == Repeat(0, size - ptrByte - |data|) by {
      assert before[..size] == front + Repeat(0, size - ptrByte);
    }
    assert before[..ptrByte] == front by { assert before[..size][..ptrByte] == front; }
    next := Append(mem, ptrByte, data);
    assert mem[..size] == before[..ptrByte] + data + before[..size][ptrByte + |data|..];
  }

  /** The start of LYRA2: the input is laid out at the front of the matrix, which must be
      large enough for it. */
  method WriteInput(mem: array<Byte>, i: Input) returns (nBlocksInput: nat)
    requires mem.Length >= 64 * BlockCount(|i.pwd| + |i.salt| + 48)
    modifies mem
    ensures 64 * nBlocksInput == |Padded(Message(i))| <= mem.Length
    ensures mem[..64 * nBlocksInput] == Padded(Message(i))
  {
    hide Basil, Padded, Flip, Repeat;
    nBlocksInput := (|i.salt| + |i.pwd| + 6 * 8) / 64 + 1;
    var size := 64 * nBlocksInput;
    Clear(mem, size);
    assert [] + Repeat(0, size - 0) == Repeat(0, size);
    var ptrByte := AppendTo(mem, 0, i.pwd, size, []);
    assert [] + i.pwd == i.pwd;
    ptrByte := AppendTo(mem, ptrByte, i.salt, size, i.pwd);
    ptrByte := WriteBasil(mem, ptrByte, i, size, i.pwd + i.salt);
    ptrByte := AppendTo(mem, ptrByte, [0x80], size, Message(i));
    PaddedIs(Message(i), size);
    FlipAt(mem, size);
  }

  /** The six parameters, 8 bytes each. */
  method WriteBasil(mem: array<Byte>, at: nat, i: Input, size: nat, ghost front: seq<Byte>) returns (ptrByte: nat)
    requires at == |front| && at + 48 <= size <= mem.Length && mem[..size] == front + Repeat(0, size - at)
    modifies mem
    ensures ptrByte == at + 48 && mem[..size] == front + Basil(i) + Repeat(0, size - ptrByte)
  {
    hide Le64, Repeat;
    ghost var f1 := front + Le64(i.kLen);
    ghost var f2 := f1 + Le64(|i.pwd|);
    ghost var f3 := f2 + Le64(|i.salt|);
    ghost var f4 := f3 + Le64(i.timeCost);
    ghost var f5 := f4 + Le64(i.nRows);
    ptrByte := AppendTo(mem, at, Le64(i.kLen), size, front);
    ptrByte := AppendTo(mem, ptrByte, Le64(|i.pwd|), size, f1);
    ptrByte := AppendTo(mem, ptrByte, Le64(|i.salt|), size, f2);
    ptrByte := AppendTo(mem, ptrByte, Le64(i.timeCost), size, f3);
    ptrByte := AppendTo(mem, ptrByte, Le64(i.nRows), size, f4);
    ptrByte := AppendTo(mem, ptrByte, Le64(i.nCols), size, f5);
    assert f5 + Le64(i.nCols) == front + Basil(i);
  }

  lemma {:induction false} PaddedIs(m: seq<Byte>, size: nat)
    requires size == 64 * BlockCount(|m|)
    ensures Padded(m) == FlipLast(m + [0x80] + Repeat(0, size - |m| - 1)) && |Padded(m)| == size
  {}

  /** The last byte of the padding. */
  method FlipAt(mem: array<Byte>, size: nat)
    requires 0 < size <= mem.Length
    modifies mem
    ensures mem[..size] == FlipLast(old(mem[..size]))
  {
    hide Flip;
    ghost var before := mem[..size];
    mem[size - 1] := Flip(mem[size - 1]);
    assert mem[..size] == before[size - 1 := Flip(before[size - 1])];
  }
}
