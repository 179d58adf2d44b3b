/** The Fugue context of src/fugue.c: buffering of input bytes, the core loop entered
    through a switch, and the entry of the close functions. */
module FugueStream {
  import opened Fugue
  import opened Words

  type Octet = bv8

  /** An unsigned 64-bit sum. */
  function Wrap64(x: nat): (r: nat)
    ensures r < WORD64
  {
    x % WORD64
  }

  /** It differs from the sum by a multiple of 2^64. */
  lemma {:induction false} WrapIs(x: nat) returns (q: nat)
    ensures x == q * WORD64 + Wrap64(x)
  {
    q := x / WORD64;
  }

  lemma {:induction false} WrapAdd(a: nat, b: nat)
    ensures Wrap64(Wrap64(a) + b) == Wrap64(a + b)
  {}

  // --- Bytes and words ------------------------------------------------------------------

  function Push(p: Word, b: Octet): Word { (p << 8) | (b as bv32) }

  /** Bytes shifted into a word, first byte highest. */
  function Pack(s: seq<Octet>): Word {
    if s == [] then 0 else Push(Pack(s[..|s| - 1]), s[|s| - 1])
  }

  function Dec32be(a: Octet, b: Octet, c: Octet, d: Octet): Word {
    ((a as bv32) << 24) | ((b as bv32) << 16) | ((c as bv32) << 8) | (d as bv32)
  }

  lemma {:induction false} PushFour(a: Octet, b: Octet, c: Octet, d: Octet)
    ensures Push(Push(Push(Push(0, a), b), c), d) == Dec32be(a, b, c, d)
  {}

  lemma {:induction false} PackFour(s: seq<Octet>)
    requires |s| == 4
    ensures Pack(s) == Dec32be(s[0], s[1], s[2], s[3])
  {
    hide Push, Dec32be;
    PushFour(s[0], s[1], s[2], s[3]);
    assert s[..3] == s[..2] + [s[2]] && s[..2] == s[..1] + [s[1]] && s[..1] == [] + [s[0]];
    PackPush(s[..3], s[3]);
    PackPush(s[..2], s[2]);
    PackPush(s[..1], s[1]);
    PackPush([], s[0]);
    assert s == s[..3] + [s[3]];
  }

  lemma {:induction false} PackPush(s: seq<Octet>, b: Octet)
    ensures Pack(s + [b]) == Push(Pack(s), b)
  {
    assert (s + [b])[..|s|] == s;
  }

  function Enc64be(v: nat): (r: seq<Octet>)
    requires v < WORD64
    ensures |r| == 8
  {
    [ByteOf(v / 0x100_0000_0000_0000), ByteOf(v / 0x1_0000_0000_0000), ByteOf(v / 0x100_0000_0000),
     ByteOf(v / 0x1_0000_0000), ByteOf(v / 0x100_0000), ByteOf(v / 0x1_0000), ByteOf(v / 0x100), ByteOf(v)]
  }

  function ByteOf(v: nat): Octet { (v % 256) as bv8 }

  // --- What a message does to the state -----------------------------------------------------

  /** The state after the first k words of message m, rotated at every word. */
  function Absorb(S0: seq<Word>, m: seq<Octet>, smix: Smix, n: nat, k: nat): (r: seq<Word>)
    requires Fits(S0, n) && 4 * k <= |m|
    ensures |r| == |S0|
  {
    if k == 0 then S0 else Round(Absorb(S0, m, smix, n, k - 1), Pack(m[4 * k - 4..4 * k]), smix, n)
  }

  lemma {:induction false} AbsorbPrefix(S0: seq<Word>, m: seq<Octet>, m': seq<Octet>, smix: Smix, n: nat, k: nat)
    requires Fits(S0, n) && 4 * k <= |m| && m <= m'
    ensures Absorb(S0, m', smix, n, k) == Absorb(S0, m, smix, n, k)
  {
    hide Round;
    if k > 0 {
      AbsorbPrefix(S0, m, m', smix, n, k - 1);
      assert m'[4 * k - 4..4 * k] == m[4 * k - 4..4 * k];
    }
  }

  /** The top nb bits of ub. */
  function TopBits(ub: Octet, nb: nat): Octet
    requires nb < 8
  {
    ub & !((0xFF as bv8) >> nb)
  }

  /** The bits kept of the last byte. */
  lemma {:induction false} TopBitsIs(ub: Octet)
    ensures TopBits(ub, 0) == 0 && TopBits(ub, 1) == ub & 0x80 && TopBits(ub, 2) == ub & 0xC0
    ensures TopBits(ub, 3) == ub & 0xE0 && TopBits(ub, 4) == ub & 0xF0 && TopBits(ub, 5) == ub & 0xF8
    ensures TopBits(ub, 6) == ub & 0xFC && TopBits(ub, 7) == ub & 0xFE
  {}

  /** The bits of the last, incomplete byte and zeros up to a full word. */
  function Tail(len: nat, ub: Octet, nb: nat): seq<Octet>
    requires nb < 8
  {
    if len % 4 == 0 && nb == 0 then [] else [TopBits(ub, nb)] + Repeat(0, 3 - len % 4)
  }

  /** A message of |m| bytes and nb bits, padded, with its length in bits. */
  function Padded(m: seq<Octet>, ub: Octet, nb: nat): seq<Octet>
    requires nb < 8
  {
    m + (Tail(|m|, ub, nb) + Enc64be(Wrap64(8 * |m| + nb)))
  }

  lemma {:induction false} PaddedWords(m: seq<Octet>, ub: Octet, nb: nat) returns (w: nat)
    requires nb < 8
    ensures |Padded(m, ub, nb)| == 4 * w && |Padded(m, ub, nb)| / 4 == w
  {
    hide Enc64be, TopBits;
    w := |Padded(m, ub, nb)| / 4;
    var r := |m| % 4;
    assert |m| == 4 * (|m| / 4) + r;
    assert |Tail(|m|, ub, nb)| == if r == 0 && nb == 0 then 0 else 4 - r;
  }

  // --- The context ------------------------------------------------------------------------------

  class FugueContext {
    const n: nat
    const smix: Smix
    const S: array<Word>
    var partial: Word
    var partialLen: nat
    var roundShift: nat
    var bitCount: nat

    /** k words of message m have been absorbed after starting from S0. */
    ghost predicate Absorbed(S0: seq<Word>, m: seq<Octet>, k: nat)
      reads `roundShift, S
    {
      && Fits(S0, n) && S.Length == |S0| && 4 * k <= |m| && roundShift < Cases(n)
      && ROR(S[..], Rotation(n, roundShift)) == Absorb(S0, m, smix, n, k)
    }

    /** The context has been fed message m after starting from S0; k words of it are in
        the state and the rest, up to a whole word, is pending. */
    ghost predicate Fed(S0: seq<Word>, m: seq<Octet>, k: nat)
      reads this, S
    {
      && Absorbed(S0, m, k) && |m| <= 4 * k + 4 && 4 * k <= |m|
      && partialLen == |m| - 4 * k && partial == Pack(m[4 * k..]) && bitCount == Wrap64(8 * |m|)
    }

    lemma {:induction false} AbsorbedPrefix(S0: seq<Word>, m: seq<Octet>, m': seq<Octet>, k: nat)
      requires Absorbed(S0, m, k) && m <= m'
      ensures Absorbed(S0, m', k)
    {
      hide ROR, Absorb;
      AbsorbPrefix(S0, m, m', smix, n, k);
    }

    /** fugue_init: zLen zero words, then the initial value. */
    constructor (n: nat, smix: Smix, zLen: nat, iv: seq<Word>)
      requires 2 <= n <= 4 && zLen + |iv| == (if n == 2 then 30 else 36)
      ensures Fed(seq(zLen, _ => 0) + iv, [], 0) && fresh(S)
    {
      this.n, this.smix := n, smix;
      var zeros := seq(zLen, _ => 0);
      var size := zLen + |iv|;
      S := new Word[size](i requires 0 <= i < size => (zeros + iv)[i]);
      partial, partialLen, roundShift, bitCount := 0, 0, 0, 0;
      new;
      assert S[..] == zeros + iv;
      RorFull(S[..]);
    }

    /** Shifts the bytes of data[pos..end] into p. */
    method PushBytes(p0: Word, data: seq<Octet>, pos: nat, end: nat, ghost before: seq<Octet>) returns (p: Word)
      requires pos <= end <= |data| && p0 == Pack(before)
      ensures p == Pack(before + data[pos..end])
    {
      hide Push;
      p := p0;
      assert before + data[pos..pos] == before;
      for i := pos to end
        invariant p == Pack(before + data[pos..i])
      {
        assert before + data[pos..i + 1] == (before + data[pos..i]) + [data[i]];
        PackPush(before + data[pos..i], data[i]);
        p := Push(p, data[i]);
      }
    }

    /** fugue2_core, fugue3_core and fugue4_core. */
    method Core(data: seq<Octet>, ghost S0: seq<Word>, ghost m: seq<Octet>, ghost k: nat) returns (ghost k': nat)
      requires Fed(S0, m, k)
      modifies this, S
      ensures Fed(S0, m + data, k')
      ensures data != [] ==> 4 * k' < |m + data|
    {
      hide Absorbed, Pack, Wrap64;
      ghost var all := m + data;
      WrapAdd(8 * |m|, 8 * |data|);
      bitCount := Wrap64(bitCount + 8 * |data|);
      var p, plen := partial, partialLen;
      var pos := 0;
      if plen < 4 {
        var count := 4 - plen;
        if |data| < count {
          count := |data|;
        }
        plen := plen + count;
        p := PushBytes(p, data, 0, count, m[4 * k..]);
        assert m[4 * k..] + data[0..count] == all[4 * k..4 * k + plen];
        pos := count;
        if pos == |data| {
          partial, partialLen := p, plen;
          assert all[4 * k..] == all[4 * k..4 * k + plen];
          AbsorbedPrefix(S0, m, all, k);
          return k;
        }
      } else {
        assert m[4 * k..] == all[4 * k..4 * k + 4];
      }
      AbsorbedPrefix(S0, m, all, k);
      var rest;
      rest, k' := Words(p, data, pos, S0, all, k);
      assert all[4 * k'..] == [] + data[rest..|data|];
      EmptyPack();
      p := PushBytes(0, data, rest, |data|, []);
      partial, partialLen := p, |data| - rest;
    }

    static lemma {:induction false} EmptyPack()
      ensures Pack([]) == 0
    {}

    /** The loop of the core, entered at case roundShift with word p, and left when at most
        four bytes remain. */
    method Words(p0: Word, data: seq<Octet>, pos: nat, ghost S0: seq<Word>, ghost all: seq<Octet>, ghost k: nat)
      returns (rest: nat, ghost k': nat)
      requires Absorbed(S0, all, k)
      requires pos <= |data| <= |all| && all[|all| - |data|..] == data && |all| - |data| + pos == 4 * k + 4
      requires p0 == Pack(all[4 * k..4 * k + 4])
      modifies `roundShift, S
      ensures rest <= |data| <= rest + 4 && |all| - |data| + rest == 4 * k'
      ensures pos < |data| ==> rest < |data|
      ensures Absorbed(S0, all, k')
    {
      hide Case, ROR, Round, Pack, Dec32be;
      var s, p := S[..], p0;
      var rshift: nat := roundShift;
      rest, k' := pos, k;
      while true
        invariant Fits(s, n) && rshift < Cases(n)
        invariant rest <= |data| && |all| - |data| + rest == 4 * k' + 4 && p == Pack(all[4 * k'..4 * k' + 4])
        invariant ROR(s, Rotation(n, rshift)) == Absorb(S0, all, smix, n, k')
        invariant pos < |data| ==> rest < |data|
        decreases |data| - rest
      {
        CaseIsRound(s, p, smix, n, rshift);
        s := Case(s, p, smix, n, rshift);
        k' := k' + 1;
        rshift := NextCase(n, rshift);
        if |data| - rest <= 4 {
          break;
        }
        p := Dec32be(data[rest], data[rest + 1], data[rest + 2], data[rest + 3]);
        assert all[4 * k'..4 * k' + 4] == data[rest..rest + 4];
        PackFour(data[rest..rest + 4]);
        rest := rest + 4;
      }
      roundShift := rshift;
      forall i | 0 <= i < |s| {
        S[i] := s[i];
      }
      assert S[..] == s;
    }

    /** The last bytes fed: padding of the last word, and the length. The bytes of the local
        buffer that are not written are arbitrary. */
    method LastBytes(ub: Octet, nb: nat, buf0: seq<Octet>, ghost len: nat) returns (buf: seq<Octet>, plen: nat)
      requires nb < 8 && |buf0| == 16 && partialLen <= 4 && partialLen % 4 == len % 4
      ensures |buf| == 16 && plen <= 4
      ensures buf[plen..] == Tail(len, ub, nb) + Enc64be(Wrap64(bitCount + nb)) + buf0[12..]
    {
      hide TopBits, Enc64be, Wrap64, Tail;
      ghost var length := Enc64be(Wrap64(bitCount + nb));
      plen := partialLen;
      TailIs(len, plen, ub, nb);
      buf := buf0[..4] + Enc64be(Wrap64(bitCount + nb)) + buf0[12..];
      assert buf[4..] == length + buf0[12..];
      if plen == 0 && nb == 0 {
        plen := 4;
      } else if plen < 4 || nb != 0 {
        if plen == 4 {
          plen := 0;
        }
        buf := buf[plen := TopBits(ub, nb)];
        for u := plen + 1 to 4
          invariant |buf| == 16 && buf[plen] == TopBits(ub, nb) && buf[4..] == length + buf0[12..]
          invariant forall i :: plen < i < u ==> buf[i] == 0
        {
          buf := buf[u := 0];
        }
        PaddedWord(buf, plen, TopBits(ub, nb));
      }
    }

    static lemma {:induction false} TailIs(len: nat, plen: nat, ub: Octet, nb: nat)
      requires nb < 8 && plen <= 4 && plen % 4 == len % 4
      ensures Tail(len, ub, nb) == if plen % 4 == 0 && nb == 0 then []
        else [TopBits(ub, nb)] + Repeat(0, 3 - (if plen == 4 then 0 else plen))
    {}

    static lemma {:induction false} PaddedWord(buf: seq<Octet>, plen: nat, b: Octet)
      requires |buf| == 16 && plen < 4 && buf[plen] == b && forall i :: plen < i < 4 ==> buf[i] == 0
      ensures buf[plen..] == [b] + Repeat(0, 3 - plen) + buf[4..]
    {
      assert buf[plen..4] == [b] + Repeat(0, 3 - plen);
      assert buf[plen..] == buf[plen..4] + buf[4..];
    }

    /** CLOSE_ENTRY: pads, appends the length, and rotates the state into place. */
    method CloseEntry(ub: Octet, nb: nat, buf0: seq<Octet>, ghost S0: seq<Word>, ghost m: seq<Octet>, ghost k: nat)
      returns (T: seq<Word>)
      requires Fed(S0, m, k) && nb < 8 && |buf0| == 16
      modifies this, S
      ensures 4 * (|Padded(m, ub, nb)| / 4) <= |Padded(m, ub, nb)|
      ensures T == Absorb(S0, Padded(m, ub, nb), smix, n, |Padded(m, ub, nb)| / 4)
    {
      hide ROR, Pack, Absorb, TopBits, Enc64be, Tail, Absorbed, Wrap64;
      WrapAdd(8 * |m|, nb);
      var buf, plen := LastBytes(ub, nb, buf0, |m|);
      ghost var full := Padded(m, ub, nb);
      ghost var w := PaddedWords(m, ub, nb);
      assert m + buf[plen..] == full + buf0[12..];
      ghost var k' := Core(buf[plen..], S0, m, k);
      assert k' == w;
      RotatedState(S0, full, m + buf[plen..], w);
      var rms := Rotation(n, roundShift);
      var s := S.Length;
      T := S[s - rms..] + S[..s - rms];
      RorIs(S[..], rms);
      assert S[s - rms..] == S[..][s - rms..] && S[..s - rms] == S[..][..s - rms];
    }

    lemma {:induction false} RotatedState(S0: seq<Word>, m: seq<Octet>, m': seq<Octet>, k: nat)
      requires Absorbed(S0, m', k) && m <= m' && 4 * k <= |m|
      ensures Fits(S0, n) && roundShift < Cases(n) && Rotation(n, roundShift) <= S.Length
      ensures ROR(S[..], Rotation(n, roundShift)) == Absorb(S0, m, smix, n, k)
    {
      hide ROR, Absorb;
      AbsorbPrefix(S0, m, m', smix, n, k);
    }

    static lemma {:induction false} RorIs(S: seq<Word>, r: nat)
      requires r <= |S|
      ensures ROR(S, r) == S[|S| - r..] + S[..|S| - r]
    {}
  }
}
