/** BLAKE2s (src/blake2s-ref.c): incremental hashing against section 3.3 of RFC 7693. The
    compression function is arbitrary. */
module Blake2s {
  import opened Words

  const BLOCKBYTES: nat := 64
  const OUTBYTES: nat := 32
  const KEYBYTES: nat := 32
  const W: nat := 0x1_0000_0000

  /** A byte counter as two 32-bit words, low word first. */
  type Counter = (nat, nat)

  function Split(t: nat): Counter { (t % W, t / W % W) }

  type Digest = s: seq<Byte> | |s| == 32 witness seq(32, _ => 0)

  /** F of the RFC; the initial state for a digest and a key length; and the words of a
      state as bytes, least significant first. */
  datatype Config<!H> = Config(
    F: (H, seq<Byte>, Counter, bool) -> H, init: (nat, nat) -> H, bytes: H -> Digest)

  // --- Section 3.3 of RFC 7693 ---------------------------------------------------------------

  /** The number of blocks of len bytes of data; one for none. */
  function BlockCount(len: nat): (dd: nat)
    ensures dd >= 1 && (len > 0 ==> BLOCKBYTES * (dd - 1) < len <= BLOCKBYTES * dd) && (len == 0 ==> dd == 1)
  {
    if len == 0 then 1 else (len + 63) / 64
  }

  /** The state after the first k blocks, none of them last. */
  function Chain<H>(h0: H, d: seq<Byte>, k: nat, c: Config<H>): H
    requires BLOCKBYTES * k <= |d|
  {
    if k == 0 then h0
    else c.F(Chain(h0, d, k - 1, c), d[64 * (k - 1)..64 * k], Split(64 * k), false)
  }

  /** The final state over data d, the key block included. */
  function Final<H>(h0: H, d: seq<Byte>, c: Config<H>): H {
    var dd := BlockCount(|d|);
    var last := d[64 * (dd - 1)..];
    c.F(Chain(h0, d, dd - 1, c), last + Repeat(0, 64 - |last|), Split(|d|), true)
  }

  /** Key and data as blocks see them: the key, if any, fills a block of its own. */
  function Keyed(key: seq<Byte>, data: seq<Byte>): seq<Byte>
    requires |key| <= KEYBYTES
  {
    if key == [] then data else key + Repeat(0, 64 - |key|) + data
  }

  lemma {:induction false} ChainPrefix<H>(h0: H, d: seq<Byte>, d': seq<Byte>, k: nat, c: Config<H>)
    requires 64 * k <= |d| && d <= d'
    ensures Chain(h0, d', k, c) == Chain(h0, d, k, c)
  {
    if k > 0 {
      ChainPrefix(h0, d, d', k - 1, c);
      assert d'[64 * (k - 1)..64 * k] == d[64 * (k - 1)..64 * k];
    }
  }

  /** Two-word addition with carry. */
  lemma {:induction false} SplitAdd(t: nat, inc: nat)
    requires inc < W
    ensures var low := (Split(t).0 + inc) % W;
      Split(t + inc) == (low, (Split(t).1 + (if low < inc then 1 else 0)) % W)
  {
    var q, r := t / W, t % W;
    assert t == W * q + r;
    if r + inc < W {
      assert (t + inc) / W == q;
    } else {
      assert t + inc == W * (q + 1) + (r + inc - W);
      assert (t + inc) / W == q + 1;
    }
  }

  // --- The code -------------------------------------------------------------------------------

  class Blake2sState<H> {
    const c: Config<H>
    var h: H
    var t: Counter
    var f0: bool
    const buf: array<Byte>
    var buflen: nat
    var outlen: nat

    /** k blocks of data d are in the state, which started from h0. */
    ghost predicate Absorbed(h0: H, d: seq<Byte>, k: nat)
      reads `h, `t, `f0
    {
      !f0 && 64 * k <= |d| && h == Chain(h0, d, k, c) && t == Split(64 * k)
    }

    /** Data d has been fed after starting from h0: k blocks are in the state, and the last
        block, complete or not, waits in the buffer. */
    ghost predicate Fed(h0: H, d: seq<Byte>, k: nat)
      reads this, buf
    {
      && buf.Length == BLOCKBYTES && Absorbed(h0, d, k) && k + 1 == BlockCount(|d|) && 64 * k <= |d|
      && buflen == |d| - 64 * k && buflen <= 64 && buf[..buflen] == d[64 * k..]
    }

    /** blake2s_init0 and blake2s_init_param, with the parameter block of sequential mode. */
    constructor (c: Config<H>, outlen: nat, keylen: nat)
      ensures Fed(c.init(outlen, keylen), [], 0) && this.c == c && this.outlen == outlen && fresh(buf)
    {
      this.c, this.outlen := c, outlen;
      h, t, f0, buflen := c.init(outlen, keylen), (0, 0), false, 0;
      buf := new Byte[64](_ => 0);
    }

    method IncrementCounter(inc: nat)
      requires inc < W
      modifies `t
      ensures forall n: nat :: old(t) == Split(n) ==> t == Split(n + inc)
    {
      t := ((t.0 + inc) % W, t.1);
      t := (t.0, (t.1 + (if t.0 < inc then 1 else 0)) % W);
      forall n: nat | old(t) == Split(n) ensures t == Split(n + inc) { SplitAdd(n, inc); }
    }

    /** memcpy(buf + at, data, |data|) */
    method Copy(at: nat, data: seq<Byte>)
      requires at + |data| <= buf.Length
      modifies buf
      ensures buf[..] == old(buf[..at]) + data + old(buf[at + |data|..])
    {
      forall i | 0 <= i < |data| {
        buf[at + i] := data[i];
      }
    }

    method Compress(block: seq<Byte>)
      modifies `h
      ensures h == c.F(old(h), block, t, f0)
    {
      h := c.F(h, block, t, f0);
    }

    /** One more block, not the last. */
    method Absorb(block: seq<Byte>, ghost h0: H, ghost d: seq<Byte>, ghost k: nat)
      requires Absorbed(h0, d, k) && 64 * k + 64 <= |d| && block == d[64 * k..64 * k + 64]
      modifies `h, `t
      ensures Absorbed(h0, d, k + 1)
    {
      hide Split;
      IncrementCounter(64);
      Compress(block);
      assert block == d[64 * (k + 1 - 1)..64 * (k + 1)];
    }

    lemma {:induction false} AbsorbedPrefix(h0: H, d: seq<Byte>, d': seq<Byte>, k: nat)
      requires Absorbed(h0, d, k) && d <= d'
      ensures Absorbed(h0, d', k)
    {
      hide Split;
      ChainPrefix(h0, d, d', k, c);
    }

    /** blake2s_update */
    method Update(data: seq<Byte>, ghost h0: H, ghost d: seq<Byte>, ghost k: nat) returns (ghost k': nat)
      requires Fed(h0, d, k)
      modifies this, buf
      ensures Fed(h0, d + data, k') && outlen == old(outlen)
    {
      hide Absorbed, BlockCount;
      ghost var all := d + data;
      k' := k;
      AbsorbedPrefix(h0, d, all, k);
      if |data| > 0 {
        var pos := 0;
        CountBounds(|d|, k + 1);
        if |data| > 64 - buflen {
          pos, k' := FillBlock(data, h0, d, k);
        } else {
          Rest(d, data, 64 * k, 0);
        }
        Copy(buflen, data[pos..]);
        buflen := buflen + (|data| - pos);
        CountIs(|all|, k' + 1);
      } else {
        assert all == d;
      }
    }

    /** The buffer is completed, and whole blocks follow while more data remains. */
    method FillBlock(data: seq<Byte>, ghost h0: H, ghost d: seq<Byte>, ghost k: nat) returns (pos: nat, ghost k': nat)
      requires Absorbed(h0, d + data, k) && buf.Length == 64 && 64 * k <= |d|
      requires buflen == |d| - 64 * k && buflen <= 64 && buf[..buflen] == d[64 * k..] && |data| > 64 - buflen
      modifies this, buf
      ensures Absorbed(h0, d + data, k') && outlen == old(outlen) && buflen == 0
      ensures pos < |data| <= pos + 64 && 64 * k' == |d| + pos && data[pos..] == (d + data)[64 * k'..]
    {
      hide Absorbed;
      var left := buflen;
      var fill := 64 - left;
      buflen := 0;
      Copy(left, data[..fill]);
      Joined(d, data, 64 * k, fill);
      assert buf[..] == (d + data)[64 * k..64 * k + 64];
      Absorb(buf[..], h0, d + data, k);
      pos, k' := Blocks(data, fill, h0, d + data, k + 1);
    }

    static lemma {:induction false} CountBounds(len: nat, dd: nat)
      requires dd == BlockCount(len)
      ensures 64 * dd >= len && (len > 0 ==> 64 * (dd - 1) < len)
    {}

    static lemma {:induction false} Joined(d: seq<Byte>, data: seq<Byte>, at: nat, fill: nat)
      requires at <= |d| && fill <= |data|
      ensures (d + data)[at..|d| + fill] == d[at..] + data[..fill]
    {}

    static lemma {:induction false} Rest(d: seq<Byte>, data: seq<Byte>, at: nat, pos: nat)
      requires pos <= |data| && ((at == |d| + pos) || (at <= |d| && pos == 0))
      ensures (d + data)[at..] == if at <= |d| then d[at..] + data[pos..] else data[pos..]
    {}

    /** The inner loop of blake2s_update: whole blocks straight from the input, leaving at
        least one byte. */
    method Blocks(data: seq<Byte>, pos0: nat, ghost h0: H, ghost all: seq<Byte>, ghost k: nat)
      returns (pos: nat, ghost k': nat)
      requires Absorbed(h0, all, k) && pos0 < |data| <= |all| && all[|all| - |data|..] == data
      requires 64 * k == |all| - |data| + pos0
      modifies `h, `t
      ensures Absorbed(h0, all, k') && pos0 <= pos < |data| <= pos + 64 && 64 * k' == |all| - |data| + pos
    {
      hide Absorbed;
      pos, k' := pos0, k;
      while |data| - pos > 64
        invariant pos0 <= pos < |data| && 64 * k' == |all| - |data| + pos && Absorbed(h0, all, k')
        decreases |data| - pos
      {
        assert data[pos..pos + 64] == all[64 * k'..64 * k' + 64];
        Absorb(data[pos..pos + 64], h0, all, k');
        pos, k' := pos + 64, k' + 1;
      }
    }

    static lemma {:induction false} CountIs(len: nat, dd: nat)
      requires dd >= 1 && 64 * (dd - 1) < len <= 64 * dd
      ensures BlockCount(len) == dd
    {}

    /** blake2s_final. It fails for a short output buffer and when called again. */
    method Finish(outlen: nat, ghost h0: H, ghost d: seq<Byte>, ghost k: nat) returns (rc: int, out: seq<Byte>)
      requires (f0 || Fed(h0, d, k)) && buf.Length == 64 && outlen <= OUTBYTES
      modifies this, buf
      ensures rc == 0 <==> outlen >= old(this.outlen) && !old(f0)
      ensures rc == 0 ==> f0 && out == c.bytes(Final(h0, d, c))[..outlen]
      ensures rc != 0 ==> rc == -1 && out == [] && h == old(h) && t == old(t) && buf[..] == old(buf[..])
    {
      hide Split, BlockCount;
      if outlen < this.outlen {
        return -1, [];
      }
      if f0 {
        return -1, [];
      }
      IncrementCounter(buflen);
      f0 := true;
      Copy(buflen, Repeat(0, 64 - buflen));
      assert buf[..] == d[64 * k..] + Repeat(0, 64 - buflen);
      Compress(buf[..]);
      rc, out := 0, c.bytes(h)[..outlen];
    }
  }

  /** blake2s: the whole hash in one call. */
  method Hash<H>(c: Config<H>, outlen: nat, data: seq<Byte>, key: seq<Byte>) returns (rc: int, out: seq<Byte>)
    ensures rc == 0 <==> 0 < outlen <= 32 && |key| <= 32
    ensures rc == 0 ==> out == c.bytes(Final(c.init(outlen, |key|), Keyed(key, data), c))[..outlen]
  {
    if outlen == 0 || outlen > OUTBYTES || |key| > KEYBYTES {
      return -1, [];
    }
    var S := new Blake2sState(c, outlen, |key|);
    ghost var h0, d, k := c.init(outlen, |key|), [], 0;
    if |key| > 0 {
      var block := key + Repeat(0, 64 - |key|);
      k := S.Update(block, h0, [], 0);
      d := [] + block;
    }
    k := S.Update(data, h0, d, k);
    d := d + data;
    assert d == Keyed(key, data);
    rc, out := S.Finish(outlen, h0, d, k);
  }
}
