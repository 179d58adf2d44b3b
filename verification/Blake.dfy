/** BLAKE-224/256 and BLAKE-384/512 (src/blake.c): buffering, the bit counter and its
    adjustment in the last blocks. The compression function is arbitrary. */
module Blake {
  import opened Words

  type Octet = bv8

  /** Low word, high word of the count of hashed bits. */
  type Counter = (nat, nat)

  /** big selects the 64-bit functions; F compresses one block under a counter value. */
  datatype Config<!H> = Config(big: bool, F: (H, seq<Octet>, Counter) -> H)

  // --- Sizes: a block has 64 or 128 bytes, a word 4 or 8 ---------------------------------------

  function Bytes(big: bool, k: nat): nat { if big then 128 * k else 64 * k }
  function BitsOf(big: bool, k: nat): nat { if big then 1024 * k else 512 * k }
  function WordSize(big: bool): nat { if big then 0x1_0000_0000_0000_0000 else 0x1_0000_0000 }
  function Low(big: bool, x: nat): nat { if big then x % 0x1_0000_0000_0000_0000 else x % 0x1_0000_0000 }
  function High(big: bool, x: nat): nat { if big then x / 0x1_0000_0000_0000_0000 else x / 0x1_0000_0000 }

  /** Eight bits to a byte; two words, of half the length field each, hold a count. */
  lemma {:induction false} Sizes(big: bool, k: nat, x: nat)
    ensures BitsOf(big, k) == 8 * Bytes(big, k) && Bytes(big, 1) == 8 * LengthBytes(big)
    ensures LengthBytes(big) == if big then 16 else 8
    ensures WordSize(big) == if big then WORD64 else WORD32
    ensures MaxLast(big) + 2 + 8 * LengthBytes(big) == BitsOf(big, 1)
    ensures Low(big, x) < WordSize(big) && x == High(big, x) * WordSize(big) + Low(big, x)
  {}

  function Split(big: bool, x: nat): Counter { (Low(big, x), Low(big, High(big, x))) }

  /** What every compression does to the counter first. */
  function IncT(big: bool, t: Counter): Counter {
    var t0 := Low(big, t.0 + BitsOf(big, 1));
    (t0, if t0 < BitsOf(big, 1) then Low(big, t.1 + 1) else t.1)
  }

  lemma {:induction false} IncSplit(big: bool, k: nat)
    ensures IncT(big, Split(big, BitsOf(big, k))) == Split(big, BitsOf(big, k + 1))
  {
    if big {
      CarrySplit(0x1_0000_0000_0000_0000, 1024 * k, 1024);
    } else {
      CarrySplit(0x1_0000_0000, 512 * k, 512);
    }
  }

  /** Adding to a number in words of size m. */
  lemma {:induction false} CarrySplit(m: nat, x: nat, inc: nat)
    requires 1 < m && inc < m
    ensures (x + inc) % m == (x % m + inc) % m
    ensures (x + inc) / m == x / m + (if (x % m + inc) % m < inc then 1 else 0)
    ensures (x / m + 1) % m == (x / m % m + 1) % m
  {
    ModAdd(m, x, inc);
    ModAdd(m, x / m, 1);
  }

  lemma {:induction false} ModAdd(m: nat, x: nat, inc: nat)
    requires inc < m
    ensures (x + inc) % m == (x % m + inc) % m
    ensures (x + inc) / m == x / m + (if (x % m + inc) % m < inc then 1 else 0)
  {
    var q, r := x / m, x % m;
    assert x == m * q + r;
    if r + inc < m {
      RemainderUnique(x + inc, m, q, r + inc);
      RemainderUnique(r + inc, m, 0, r + inc);
    } else {
      MulSucc(q, m);
      RemainderUnique(x + inc, m, q + 1, r + inc - m);
      RemainderUnique(r + inc, m, 1, r + inc - m);
    }
  }

  // --- Blocks -------------------------------------------------------------------------------------

  datatype Core<H> = Core(h: H, t: Counter)

  function Block<H>(s: Core<H>, block: seq<Octet>, c: Config<H>): Core<H> {
    var t := IncT(c.big, s.t);
    Core(c.F(s.h, block, t), t)
  }

  /** k blocks from the front of d. */
  function Blocks<H>(s: Core<H>, d: seq<Octet>, k: nat, c: Config<H>): Core<H>
    requires Bytes(c.big, k) <= |d|
  {
    if k == 0 then s
    else Block(Blocks(s, d, k - 1, c), d[Bytes(c.big, k - 1)..Bytes(c.big, k)], c)
  }

  lemma {:induction false} BlocksPrefix<H>(s: Core<H>, d: seq<Octet>, d': seq<Octet>, k: nat, c: Config<H>)
    requires Bytes(c.big, k) <= |d| && d <= d'
    ensures Blocks(s, d', k, c) == Blocks(s, d, k, c)
  {
    hide Block;
    if k > 0 {
      BlocksPrefix(s, d, d', k - 1, c);
      assert d'[Bytes(c.big, k - 1)..Bytes(c.big, k)] == d[Bytes(c.big, k - 1)..Bytes(c.big, k)];
    }
  }

  /** Going on where an earlier call stopped. */
  lemma {:induction false} BlocksJoin<H>(s: Core<H>, d: seq<Octet>, k: nat, j: nat, c: Config<H>)
    requires Bytes(c.big, k + j) <= |d|
    ensures Blocks(Blocks(s, d, k, c), d[Bytes(c.big, k)..], j, c) == Blocks(s, d, k + j, c)
  {
    hide Block;
    if j > 0 {
      BlocksJoin(s, d, k, j - 1, c);
      var e := d[Bytes(c.big, k)..];
      assert e[Bytes(c.big, j - 1)..Bytes(c.big, j)] == d[Bytes(c.big, k + j - 1)..Bytes(c.big, k + j)];
    }
  }

  // --- Section 2.1 of the BLAKE proposal --------------------------------------------------------

  /** The counter of block i of a message of L bits: the message bits hashed with it, or
      zero for a block of padding only. */
  function Count(big: bool, L: nat, i: nat): nat {
    if BitsOf(big, i) >= L then 0 else if L <= BitsOf(big, i + 1) then L else BitsOf(big, i + 1)
  }

  function PaddedBlocks<H>(h0: H, p: seq<Octet>, L: nat, k: nat, c: Config<H>): H
    requires Bytes(c.big, k) <= |p|
  {
    if k == 0 then h0
    else c.F(PaddedBlocks(h0, p, L, k - 1, c), p[Bytes(c.big, k - 1)..Bytes(c.big, k)],
             Split(c.big, Count(c.big, L, k - 1)))
  }

  /** The first n bits of ub, then a one, then zeros. */
  function StopByte(ub: Octet, n: nat): Octet
    requires n < 8
  {
    (ub & !((0xFF as bv8) >> n)) | ((0x80 as bv8) >> n)
  }

  /** w bytes, most significant first. */
  function BigEndian(v: nat, w: nat): (s: seq<Octet>)
    ensures |s| == w
  {
    if w == 0 then [] else BigEndian(v / 256, w - 1) + [(v % 256) as bv8]
  }

  function LengthBytes(big: bool): nat { if big then 16 else 8 }

  /** Bits of the last block that leave room for a stop bit, a final bit and the length. */
  function MaxLast(big: bool): nat { if big then 894 else 446 }

  /** The last low bit before the length tells the long digest from the short one. */
  function Marked(s: seq<Octet>, long: bool): (r: seq<Octet>)
    requires s != []
    ensures |r| == |s|
  {
    if long then s[|s| - 1 := s[|s| - 1] | 1] else s
  }

  /** What follows k whole blocks and the bytes left, up to the length. */
  function Ending(big: bool, left: seq<Octet>, ub: Octet, n: nat, long: bool): seq<Octet>
    requires n < 8 && |left| < Bytes(big, 1)
  {
    var m := left + [StopByte(ub, n)];
    var room := Bytes(big, 1) - LengthBytes(big);
    if 8 * |left| + n <= MaxLast(big) then Marked(m + Repeat(0, room - |m|), long)
    else m + Repeat(0, Bytes(big, 1) - |m|) + Marked(Repeat(0, room), long)
  }

  /** The padded form of a message of whole bytes and n bits: k blocks and the rest. */
  function Padded(big: bool, d: seq<Octet>, k: nat, ub: Octet, n: nat, long: bool): seq<Octet>
    requires n < 8 && Bytes(big, k) <= |d| < Bytes(big, k + 1)
  {
    var t := Split(big, 8 * |d| + n);
    var w := LengthBytes(big) / 2;
    d[..Bytes(big, k)] + Ending(big, d[Bytes(big, k)..], ub, n, long) + (BigEndian(t.1, w) + BigEndian(t.0, w))
  }

  // --- Counters in the last blocks ---------------------------------------------------------------

  /** The counter set so that the next compression sees zero. */
  function BeforeZero(big: bool): Counter { (WordSize(big) - BitsOf(big, 1), WordSize(big) - 1) }

  /** The adjustment of close for a last block with bitLen message bits. */
  function Adjusted(big: bool, t: Counter, bitLen: nat): Counter
    requires bitLen <= BitsOf(big, 1) && (t.0 == 0 || t.0 >= BitsOf(big, 1))
  {
    if bitLen == 0 then BeforeZero(big)
    else if t.0 == 0 then (WordSize(big) - BitsOf(big, 1) + bitLen, Low(big, t.1 + WordSize(big) - 1))
    else (t.0 - (BitsOf(big, 1) - bitLen), t.1)
  }

  lemma {:induction false} ZeroNext(big: bool)
    ensures IncT(big, BeforeZero(big)) == Split(big, 0)
  {}

  /** The low word counts whole blocks. */
  lemma {:induction false} LowMultiple(big: bool, k: nat) returns (q: nat)
    ensures Low(big, BitsOf(big, k)) == BitsOf(big, q) && BitsOf(big, q) <= WordSize(big) - BitsOf(big, 1)
    ensures Low(big, BitsOf(big, k)) == 0 || Low(big, BitsOf(big, k)) >= BitsOf(big, 1)
  {
    if big {
      q := k % 0x40_0000_0000_0000;
      assert k == 0x40_0000_0000_0000 * (k / 0x40_0000_0000_0000) + q;
      assert 1024 * k == 0x1_0000_0000_0000_0000 * (k / 0x40_0000_0000_0000) + 1024 * q;
    } else {
      q := k % 0x80_0000;
      assert k == 0x80_0000 * (k / 0x80_0000) + q;
      assert 512 * k == 0x1_0000_0000 * (k / 0x80_0000) + 512 * q;
    }
  }

  /** The sum of the counter and the bits of the last block needs no carry. */
  lemma {:induction false} SplitNoCarry(big: bool, k: nat, b: nat)
    requires b < BitsOf(big, 1)
    ensures Split(big, BitsOf(big, k) + b) == (Low(big, BitsOf(big, k)) + b, Split(big, BitsOf(big, k)).1)
  {
    var q := LowMultiple(big, k);
    if big {
      NoCarry(0x1_0000_0000_0000_0000, 1024 * k, b);
    } else {
      NoCarry(0x1_0000_0000, 512 * k, b);
    }
  }

  lemma {:induction false} NoCarry(m: nat, x: nat, b: nat)
    requires m > 0 && x % m + b < m
    ensures (x + b) % m == x % m + b && (x + b) / m == x / m
  {
    assert x == m * (x / m) + x % m;
    RemainderUnique(x + b, m, x / m, x % m + b);
  }

  /** After k whole blocks the adjusted counter makes the next compression see the bits of
      the whole message, or zero if the block holds none of them. */
  lemma {:induction false} AdjustedNext(big: bool, k: nat, bitLen: nat)
    requires bitLen < BitsOf(big, 1)
    ensures var t := Split(big, BitsOf(big, k));
      (t.0 == 0 || t.0 >= BitsOf(big, 1)) &&
      IncT(big, Adjusted(big, t, bitLen)) == Split(big, Count(big, BitsOf(big, k) + bitLen, k))
  {
    var t := Split(big, BitsOf(big, k));
    var q := LowMultiple(big, k);
    if bitLen == 0 {
      ZeroNext(big);
    } else {
      SplitNoCarry(big, k, bitLen);
      HighRange(big, BitsOf(big, k));
      if t.0 == 0 {
        BorrowNext(big, t.1, bitLen);
      } else {
        DirectNext(big, t, bitLen);
      }
    }
  }

  lemma {:induction false} HighRange(big: bool, x: nat)
    ensures Split(big, x).1 < WordSize(big) && Split(big, x).0 < WordSize(big)
  {}

  lemma {:induction false} BorrowNext(big: bool, t1: nat, bitLen: nat)
    requires t1 < WordSize(big) && bitLen < BitsOf(big, 1)
    ensures IncT(big, (WordSize(big) - BitsOf(big, 1) + bitLen, Low(big, t1 + WordSize(big) - 1))) == (bitLen, t1)
  {}

  lemma {:induction false} DirectNext(big: bool, t: Counter, bitLen: nat)
    requires BitsOf(big, 1) <= t.0 <= WordSize(big) - BitsOf(big, 1) && bitLen < BitsOf(big, 1)
    ensures IncT(big, (t.0 - (BitsOf(big, 1) - bitLen), t.1)) == (t.0 + bitLen, t.1)
  {}

  // --- The specification on whole blocks is the plain one --------------------------------------------

  lemma {:induction false} WholeBlocks<H>(h0: H, d: seq<Octet>, p: seq<Octet>, L: nat, k: nat, c: Config<H>)
    requires Bytes(c.big, k) <= |d| && Bytes(c.big, k) <= |p| && d[..Bytes(c.big, k)] == p[..Bytes(c.big, k)]
    requires BitsOf(c.big, k) <= L
    ensures Blocks(Core(h0, (0, 0)), d, k, c) == Core(PaddedBlocks(h0, p, L, k, c), Split(c.big, BitsOf(c.big, k)))
  {
    hide IncT, Split;
    ZeroSplit(c.big);
    if k > 0 {
      var b := Bytes(c.big, k - 1);
      assert d[..b] == d[..Bytes(c.big, k)][..b] && p[..b] == p[..Bytes(c.big, k)][..b];
      WholeBlocks(h0, d, p, L, k - 1, c);
      assert d[b..Bytes(c.big, k)] == d[..Bytes(c.big, k)][b..] && p[b..Bytes(c.big, k)] == p[..Bytes(c.big, k)][b..];
      IncSplit(c.big, k - 1);
    }
  }

  lemma {:induction false} ZeroSplit(big: bool)
    ensures Split(big, BitsOf(big, 0)) == (0, 0) && Split(big, 0) == (0, 0)
  {}

  // --- The stop byte -------------------------------------------------------------------------------------

  /** (ub & -z) | z with z = 0x80 >> n */
  function CodeStop(ub: Octet, n: nat): Octet
    requires n < 8
  {
    var z := (0x80 as bv8) >> n;
    (ub & (0 - z)) | z
  }

  lemma {:induction false} StopByteIs(ub: Octet, n: nat)
    requires n < 8
    ensures CodeStop(ub, n) == StopByte(ub, n)
  {
    if n == 0 {} else if n == 1 {} else if n == 2 {} else if n == 3 {}
    else if n == 4 {} else if n == 5 {} else if n == 6 {} else { assert n == 7; }
  }

  // --- The code --------------------------------------------------------------------------------------------

  /** Two calls in a row: what the second finds in the buffer, and where it ends. */
  lemma {:induction false} StreamJoin<H>(s: Core<H>, d: seq<Octet>, k: nat, data: seq<Octet>, j: nat, c: Config<H>)
    requires Bytes(c.big, k) <= |d|
    requires Bytes(c.big, j) <= |d[Bytes(c.big, k)..] + data|
    ensures Bytes(c.big, k + j) <= |d + data|
    ensures Blocks(Blocks(s, d, k, c), d[Bytes(c.big, k)..] + data, j, c) == Blocks(s, d + data, k + j, c)
    ensures (d[Bytes(c.big, k)..] + data)[Bytes(c.big, j)..] == (d + data)[Bytes(c.big, k + j)..]
  {
    hide Blocks;
    var b := Bytes(c.big, k);
    assert (d + data)[b..] == d[b..] + data;
    BlocksJoin(s, d + data, k, j, c);
    BlocksPrefix(s, d, d + data, k, c);
  }

  class BlakeContext<H> {
    const c: Config<H>
    var h: H
    var T0: nat
    var T1: nat
    const buf: array<Octet>
    var ptr: nat

    ghost function State(): Core<H>
      reads this
    {
      Core(h, (T0, T1))
    }

    ghost predicate Valid()
      reads this, buf
    {
      buf.Length == Bytes(c.big, 1) && ptr < buf.Length
    }

    /** Message d has been fed from the initial state h0: k blocks of it are compressed and
        the rest is in the buffer. */
    ghost predicate Fed(h0: H, d: seq<Octet>, k: nat)
      reads this, buf
    {
      && Valid() && Bytes(c.big, k) <= |d| && ptr == |d| - Bytes(c.big, k)
      && State() == Blocks(Core(h0, (0, 0)), d, k, c) && buf[..ptr] == d[Bytes(c.big, k)..]
    }

    /** blake32_init, blake64_init */
    constructor (c: Config<H>, iv: H)
      ensures Fed(iv, [], 0) && this.c == c && fresh(buf)
    {
      this.c, h, T0, T1, ptr := c, iv, 0, 0, 0;
      var size := Bytes(c.big, 1);
      buf := new Octet[size](_ => 0);
    }

    /** The counter and COMPRESS, for a full buffer. */
    method Compress()
      requires buf.Length == Bytes(c.big, 1)
      modifies `h, `T0, `T1
      ensures State() == Block(old(State()), buf[..], c)
    {
      T0 := Low(c.big, T0 + BitsOf(c.big, 1));
      if T0 < BitsOf(c.big, 1) {
        T1 := Low(c.big, T1 + 1);
      }
      h := c.F(h, buf[..], (T0, T1));
    }

    /** memcpy(buf + at, data, |data|) */
    method Copy(at: nat, data: seq<Octet>)
      requires at + |data| <= buf.Length
      modifies buf
      ensures buf[..] == old(buf[..at]) + data + old(buf[at + |data|..])
    {
      forall i | 0 <= i < |data| {
        buf[at + i] := data[i];
      }
    }

    /** blake32 and blake64: the buffered bytes and the data are consumed block by block,
        so however a message is split into calls, all of it has been fed. */
    method Update(data: seq<Octet>, ghost h0: H, ghost d: seq<Octet>, ghost k: nat) returns (ghost k': nat)
      requires Fed(h0, d, k)
      modifies this, buf
      ensures Fed(h0, d + data, k')
    {
      hide Blocks;
      ghost var s0 := State();
      ghost var j := Consume(data);
      StreamJoin(Core(h0, (0, 0)), d, k, data, j, c);
      k' := k + j;
    }

    /** The body of blake32 and blake64, from any counter. */
    method Consume(data: seq<Octet>) returns (ghost k: nat)
      requires Valid()
      modifies this, buf
      ensures Valid()
      ensures var all := old(buf[..ptr]) + data;
        && Bytes(c.big, k) <= |all| && ptr == |all| - Bytes(c.big, k)
        && State() == Blocks(old(State()), all, k, c) && buf[..ptr] == all[Bytes(c.big, k)..]
    {
      hide Block;
      ghost var all, p0, s0 := buf[..ptr] + data, ptr, State();
      k := 0;
      if |data| < buf.Length - ptr {
        Copy(ptr, data);
        ptr := ptr + |data|;
        return;
      }
      var pos := 0;
      while pos < |data|
        invariant Valid() && pos <= |data| && Bytes(c.big, k) <= p0 + pos && ptr == p0 + pos - Bytes(c.big, k)
        invariant State() == Blocks(s0, all, k, c) && buf[..ptr] == all[Bytes(c.big, k)..p0 + pos]
      {
        pos, k := Piece(data, pos, s0, all, p0, k);
      }
    }

    /** One pass of the loop: fill the buffer, and compress it when full. */
    method Piece(data: seq<Octet>, pos: nat, ghost s0: Core<H>, ghost all: seq<Octet>, ghost p0: nat, ghost k: nat)
      returns (pos': nat, ghost k': nat)
      requires Valid() && pos < |data| && |all| == p0 + |data| && all[p0..] == data
      requires Bytes(c.big, k) <= p0 + pos && ptr == p0 + pos - Bytes(c.big, k)
      requires State() == Blocks(s0, all, k, c) && buf[..ptr] == all[Bytes(c.big, k)..p0 + pos]
      modifies this, buf
      ensures Valid() && pos < pos' <= |data| && Bytes(c.big, k') <= p0 + pos' && ptr == p0 + pos' - Bytes(c.big, k')
      ensures State() == Blocks(s0, all, k', c) && buf[..ptr] == all[Bytes(c.big, k')..p0 + pos']
    {
      hide Block;
      var clen := buf.Length - ptr;
      if clen > |data| - pos {
        clen := |data| - pos;
      }
      Copy(ptr, data[pos..pos + clen]);
      ptr := ptr + clen;
      pos', k' := pos + clen, k;
      assert all[Bytes(c.big, k)..p0 + pos'] == all[Bytes(c.big, k)..p0 + pos] + data[pos..pos'];
      assert buf[..ptr] == all[Bytes(c.big, k)..p0 + pos'];
      if ptr == buf.Length {
        assert buf[..] == all[Bytes(c.big, k)..Bytes(c.big, k + 1)];
        Compress();
        ptr := 0;
        k' := k + 1;
      }
    }

    /** sph_enc32be or sph_enc64be of both words. */
    method EncodeLength(th: nat, tl: nat, ghost L: nat) returns (length: seq<Octet>)
      requires Split(c.big, L) == (tl, th)
      ensures length == LengthField(c.big, L)
    {
      hide Split, BigEndian;
      var w := LengthBytes(c.big) / 2;
      length := BigEndian(th, w) + BigEndian(tl, w);
    }

    /** The buffer u when the length still fits, its first bytes arbitrary. */
    method OneLast(ub: Octet, n: nat, long: bool, u0: seq<Octet>, at: nat, length: seq<Octet>) returns (u: seq<Octet>)
      requires n < 8 && |u0| == Bytes(c.big, 1) && at < Room(c.big) && |length| == LengthBytes(c.big)
      ensures |u| == Bytes(c.big, 1) && u[at..] == Marked(Stopped(ub, n, Room(c.big) - at), long) + length
    {
      hide CodeStop, StopByte;
      StopByteIs(ub, n);
      var room := Room(c.big);
      ghost var rest := Stopped(ub, n, room - at);
      u := u0[..at] + [CodeStop(ub, n)] + Repeat(0, room - at - 1);
      assert u[at..] == rest;
      if long {
        u := u[room - 1 := u[room - 1] | 1];
        assert u[at..] == rest[|rest| - 1 := rest[|rest| - 1] | 1];
      }
      assert u[at..] == Marked(rest, long);
      ghost var body := u;
      u := u + length;
      assert u[at..] == body[at..] + length;
    }

    /** The two buffers when the length needs a block of its own. */
    method TwoLast(ub: Octet, n: nat, long: bool, u0: seq<Octet>, at: nat, length: seq<Octet>)
      returns (u: seq<Octet>, v: seq<Octet>)
      requires n < 8 && |u0| == Bytes(c.big, 1) && at < Bytes(c.big, 1) && |length| == LengthBytes(c.big)
      ensures |u| == Bytes(c.big, 1) && u[at..] == Stopped(ub, n, Bytes(c.big, 1) - at)
      ensures v == Marked(Repeat(0, Room(c.big)), long) + length
    {
      hide CodeStop, StopByte;
      StopByteIs(ub, n);
      u := u0[..at] + [CodeStop(ub, n)] + Repeat(0, Bytes(c.big, 1) - at - 1);
      var room := Room(c.big);
      v := Repeat(0, room);
      if long {
        v := v[room - 1 := 1];
        OneMark(room);
      }
      v := v + length;
    }

    static lemma {:induction false} OneMark(room: nat)
      requires room > 0
      ensures Marked(Repeat(0, room), true) == Repeat(0, room)[room - 1 := 1]
    {}

    /** One block given in pieces: the buffered bytes and the data fill it exactly. */
    method LastBlock(data: seq<Octet>, ghost block: seq<Octet>)
      requires Valid() && ptr + |data| == Bytes(c.big, 1) && block == buf[..ptr] + data
      modifies this, buf
      ensures Valid() && ptr == 0 && State() == Block(old(State()), block, c)
    {
      hide Block;
      ghost var s0 := State();
      ghost var k := Consume(data);
      assert k == 1;
      assert Blocks(s0, block, 0, c) == s0;
      assert block[Bytes(c.big, 0)..Bytes(c.big, 1)] == block;
    }

    /** The counter change of close. */
    method Adjust(n: nat, bitLen: nat)
      requires bitLen == 8 * ptr + n && bitLen <= BitsOf(c.big, 1) && (T0 == 0 || T0 >= BitsOf(c.big, 1))
      modifies `T0, `T1
      ensures (T0, T1) == Adjusted(c.big, old((T0, T1)), bitLen)
    {
      if ptr == 0 && n == 0 {
        T0 := WordSize(c.big) - BitsOf(c.big, 1);
        T1 := WordSize(c.big) - 1;
      } else if T0 == 0 {
        T0 := WordSize(c.big) - BitsOf(c.big, 1) + bitLen;
        T1 := Low(c.big, T1 + WordSize(c.big) - 1);
      } else {
        T0 := T0 - (BitsOf(c.big, 1) - bitLen);
      }
    }

    /** blake32_close and blake64_close, before the words of h are written out: the state is
        the one the proposal specifies for the padded message, with its counters. */
    method Close(ub: Octet, n: nat, long: bool, u0: seq<Octet>, ghost h0: H, ghost d: seq<Octet>, ghost k: nat)
      returns (ghost blocks: nat)
      requires Fed(h0, d, k) && n < 8 && |u0| == Bytes(c.big, 1)
      modifies this, buf
      ensures var p := Padded(c.big, d, k, ub, n, long);
        Bytes(c.big, blocks) == |p| && h == PaddedBlocks(h0, p, 8 * |d| + n, blocks, c)
    {
      hide Block, Blocks, IncT, Split, PaddedBlocks, Adjusted, Count, Marked, Fed, LengthField, Stopped, Padded;
      FedParts(h0, d, k);
      ghost var pre, left, L := d[..Bytes(c.big, k)], d[Bytes(c.big, k)..], 8 * |d| + n;
      ghost var p := Padded(c.big, d, k, ub, n, long);
      PaddedPrefix(c.big, d, k, ub, n, long);
      var bitLen := 8 * ptr + n;
      CounterBefore(h0, d, p, k, n, c);
      var at := ptr;
      var length := EncodeLength(T1, T0 + bitLen, L);
      Adjust(n, bitLen);
      ghost var s1 := State();
      if bitLen <= MaxLast(c.big) {
        var u := OneLast(ub, n, long, u0, at, length);
        LastBlock(u[at..], left + u[at..]);
        PaddedOne(c.big, d, k, ub, n, long);
        LastStep(h0, p, pre, left + u[at..], [], L, k, s1, c);
        blocks := k + 1;
      } else {
        var u, v := TwoLast(ub, n, long, u0, at, length);
        LastBlock(u[at..], left + u[at..]);
        PaddedTwo(c.big, d, k, ub, n, long);
        LastStep(h0, p, pre, left + u[at..], v, L, k, s1, c);
        T0 := WordSize(c.big) - BitsOf(c.big, 1);
        T1 := WordSize(c.big) - 1;
        ghost var s2 := State();
        assert buf[..ptr] + v == v;
        LastBlock(v, v);
        ZeroNext(c.big);
        assert p == (pre + (left + u[at..])) + v + [];
        LastStep(h0, p, pre + (left + u[at..]), v, [], L, k + 1, s2, c);
        blocks := k + 2;
      }
    }

    lemma {:induction false} FedParts(h0: H, d: seq<Octet>, k: nat)
      requires Fed(h0, d, k)
      ensures Valid() && Bytes(c.big, k) <= |d| < Bytes(c.big, k + 1) && ptr == |d| - Bytes(c.big, k)
      ensures buf[..ptr] == d[Bytes(c.big, k)..] && State() == Blocks(Core(h0, (0, 0)), d, k, c)
    {
      hide Blocks;
    }
  }

  /** The state before the last blocks in terms of the specification, the length words, and
      the counter close will set. */
  lemma {:induction false} CounterBefore<H>(h0: H, d: seq<Octet>, p: seq<Octet>, k: nat, n: nat, c: Config<H>)
    requires Bytes(c.big, k) <= |d| < Bytes(c.big, k + 1) && n < 8 && d[..Bytes(c.big, k)] <= p
    ensures var L := 8 * |d| + n;
      var t := Split(c.big, BitsOf(c.big, k));
      var b := 8 * (|d| - Bytes(c.big, k)) + n;
      && Blocks(Core(h0, (0, 0)), d, k, c) == Core(PaddedBlocks(h0, p, L, k, c), t)
      && Split(c.big, L) == (t.0 + b, t.1) && b < BitsOf(c.big, 1) && (t.0 == 0 || t.0 >= BitsOf(c.big, 1))
      && IncT(c.big, Adjusted(c.big, t, b)) == Split(c.big, Count(c.big, L, k)) && Count(c.big, L, k + 1) == 0
  {
    hide Blocks, PaddedBlocks, IncT, Adjusted, Low, High;
    var b := 8 * (|d| - Bytes(c.big, k)) + n;
    assert BitsOf(c.big, k) + b == 8 * |d| + n;
    WholeBlocks(h0, d, p, 8 * |d| + n, k, c);
    SplitNoCarry(c.big, k, b);
    AdjustedNext(c.big, k, b);
  }

  lemma {:induction false} LastStep<H>(h0: H, p: seq<Octet>, pre: seq<Octet>, block: seq<Octet>, post: seq<Octet>,
      L: nat, k: nat, s: Core<H>, c: Config<H>)
    requires p == pre + block + post && |pre| == Bytes(c.big, k) && |block| == Bytes(c.big, 1)
    requires s.h == PaddedBlocks(h0, p, L, k, c) && IncT(c.big, s.t) == Split(c.big, Count(c.big, L, k))
    ensures |p| >= Bytes(c.big, k + 1) && Block(s, block, c).h == PaddedBlocks(h0, p, L, k + 1, c)
  {
    hide IncT, Split, Count;
    assert p[Bytes(c.big, k)..Bytes(c.big, k + 1)] == block;
  }

  lemma {:induction false} MarkedTail(left: seq<Octet>, rest: seq<Octet>, long: bool)
    requires rest != []
    ensures Marked(left + rest, long) == left + Marked(rest, long)
  {}

  lemma {:induction false} PaddedPrefix(big: bool, d: seq<Octet>, k: nat, ub: Octet, n: nat, long: bool)
    requires n < 8 && Bytes(big, k) <= |d| < Bytes(big, k + 1)
    ensures d[..Bytes(big, k)] <= Padded(big, d, k, ub, n, long)
  {
    hide Ending, BigEndian, Split;
  }

  function LengthField(big: bool, L: nat): (s: seq<Octet>)
    ensures |s| == LengthBytes(big)
  {
    var t, w := Split(big, L), LengthBytes(big) / 2;
    BigEndian(t.1, w) + BigEndian(t.0, w)
  }

  function Room(big: bool): nat { Bytes(big, 1) - LengthBytes(big) }

  function Stopped(ub: Octet, n: nat, size: nat): (s: seq<Octet>)
    requires n < 8 && size > 0
    ensures |s| == size
  {
    [StopByte(ub, n)] + Repeat(0, size - 1)
  }

  /** The padded message when one more block suffices. */
  lemma {:induction false} PaddedOne(big: bool, d: seq<Octet>, k: nat, ub: Octet, n: nat, long: bool)
    requires n < 8 && Bytes(big, k) <= |d| < Bytes(big, k + 1) && 8 * (|d| - Bytes(big, k)) + n <= MaxLast(big)
    ensures var left := d[Bytes(big, k)..];
      && |left| < Room(big)
      && Padded(big, d, k, ub, n, long) == d[..Bytes(big, k)] +
        (left + (Marked(Stopped(ub, n, Room(big) - |left|), long) + LengthField(big, 8 * |d| + n)))
  {
    hide LengthField, StopByte;
    var left := d[Bytes(big, k)..];
    var rest := Stopped(ub, n, Room(big) - |left|);
    assert left + [StopByte(ub, n)] + Repeat(0, Room(big) - |left| - 1) == left + rest;
    MarkedTail(left, rest, long);
    PaddedIs(big, d, k, ub, n, long);
  }

  /** The padded message when two more blocks are needed. */
  lemma {:induction false} PaddedTwo(big: bool, d: seq<Octet>, k: nat, ub: Octet, n: nat, long: bool)
    requires n < 8 && Bytes(big, k) <= |d| < Bytes(big, k + 1) && 8 * (|d| - Bytes(big, k)) + n > MaxLast(big)
    ensures var left := d[Bytes(big, k)..];
      Padded(big, d, k, ub, n, long) == d[..Bytes(big, k)] + (left + Stopped(ub, n, Bytes(big, 1) - |left|)) +
        (Marked(Repeat(0, Room(big)), long) + LengthField(big, 8 * |d| + n))
  {
    hide LengthField, StopByte;
    var left := d[Bytes(big, k)..];
    assert left + [StopByte(ub, n)] + Repeat(0, Bytes(big, 1) - |left| - 1) ==
      left + Stopped(ub, n, Bytes(big, 1) - |left|);
    PaddedIs(big, d, k, ub, n, long);
  }

  lemma {:induction false} PaddedIs(big: bool, d: seq<Octet>, k: nat, ub: Octet, n: nat, long: bool)
    requires n < 8 && Bytes(big, k) <= |d| < Bytes(big, k + 1)
    ensures Padded(big, d, k, ub, n, long) ==
      d[..Bytes(big, k)] + Ending(big, d[Bytes(big, k)..], ub, n, long) + LengthField(big, 8 * |d| + n)
  {
    hide Split, BigEndian, Ending;
  }
}
