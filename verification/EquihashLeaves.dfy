/** Which bytes of a hash output a leaf of src/equihash.cpp holds: the leaves cut from one
    output hold all of it, in order. */
module EquihashLeaves {
  import opened Words
  import opened Octets
  import opened Packing
  import opened IndexCodec
  import opened EquihashRows
  import opened EquihashSolver

  /** The sizes of the four parameter sets, as the template computes them. */
  lemma {:induction false} InstantiatedSizes(generate: nat -> seq<Byte>)
    ensures var e := Env(Params(96, 3), generate);
      e.perHash == 5 && e.p.collisionBitLength == 24 && e.c == 3 && e.p.hashLength == 12
    ensures var e := Env(Params(200, 9), generate);
      e.perHash == 2 && e.p.collisionBitLength == 20 && e.c == 3 && e.p.hashLength == 30
    ensures var e := Env(Params(96, 5), generate);
      e.perHash == 5 && e.p.collisionBitLength == 16 && e.c == 2 && e.p.hashLength == 12
    ensures var e := Env(Params(48, 5), generate);
      e.perHash == 10 && e.p.collisionBitLength == 8 && e.c == 1 && e.p.hashLength == 6
  {}

  function FromBits8(s: seq<bv8>): (t: seq<nat>)
    ensures |t| == |s|
  {
    seq(|s|, i requires 0 <= i < |s| => s[i] as nat)
  }

  lemma {:induction false} BitsBack(s: seq<nat>)
    requires IsBytes(s)
    ensures FromBits8(ToBits8(s)) == s
  {
    forall i | 0 <= i < |s| ensures FromBits8(ToBits8(s))[i] == s[i] {
      ByteBack(s[i]);
    }
  }

  /** The bytes a leaf was expanded from. */
  function Source(env: Env, i: nat): seq<nat>
    requires env.Ok()
  {
    Compressed(FromBits8(Leaf(env, i)), env.p.collisionBitLength, 0)
  }

  /** They are the bytes that output i / perHash of the hash holds at place i % perHash. */
  lemma {:induction false} LeafSource(env: Env, g: nat, i: nat)
    requires env.Ok() && i < env.perHash
    ensures i * env.p.n / 8 <= (i + 1) * env.p.n / 8 <= |env.generate(g)|
    ensures Source(env, g * env.perHash + i) == env.generate(g)[i * env.p.n / 8..(i + 1) * env.p.n / 8]
  {
    hide Expanded, Compressed, FromBits8, ToBits8, Leaf;
    LeafOfSlot(env, g, i);
    SliceInRange(env.p.n, env.perHash, i);
    SliceEnd(env.p.n, i);
    var slice := env.generate(g)[i * env.p.n / 8..i * env.p.n / 8 + env.p.n / 8];
    LeafLength(env.p, slice);
    BitsBack(Expanded(slice, env.p.collisionBitLength, 0));
    WholeSlices(env.p);
    CompressUndoesExpand(slice, env.p.collisionBitLength, 0);
  }

  /** The bits above the element in every cell of a leaf are zero. */
  lemma {:induction false} LeafCellsFit(env: Env, i: nat)
    requires env.Ok()
    ensures CellsFit(FromBits8(Leaf(env, i)), env.p.collisionBitLength, env.c)
  {
    hide Expanded, CellsOf, CellsFit, FromBits8, ToBits8;
    PerHashPositive(env.p.n);
    var j := i % env.perHash;
    SliceInRange(env.p.n, env.perHash, j);
    var slice := env.generate(i / env.perHash)[j * env.p.n / 8..j * env.p.n / 8 + env.p.n / 8];
    LeafLength(env.p, slice);
    BitsBack(Expanded(slice, env.p.collisionBitLength, 0));
    ExpandedCellsFit(slice, env.p.collisionBitLength, env.c);
  }

  lemma {:induction false} ExpandedCellsFit(slice: seq<Byte>, bitLen: nat, w: nat)
    requires 0 < bitLen && w == Packing.Width(bitLen, 0)
    ensures CellsFit(Expanded(slice, bitLen, 0), bitLen, w)
  {
    CellsOfFit(BitString(slice), bitLen, w);
  }

  lemma {:induction false} CellsOfFit(s: seq<bool>, bitLen: nat, w: nat)
    requires 0 < bitLen <= 8 * w
    ensures CellsFit(CellsOf(s, bitLen, w), bitLen, w)
    decreases |s|
  {
    hide Cell, BitString;
    if |s| >= bitLen {
      var cell, rest := Cell(s[..bitLen], w), CellsOf(s[bitLen..], bitLen, w);
      CellsOfFit(s[bitLen..], bitLen, w);
      CellBits(s[..bitLen], w);
      assert (cell + rest)[..w] == cell && (cell + rest)[w..] == rest;
    }
  }

  lemma {:induction false} SliceEnd(n: nat, i: nat)
    requires n % 8 == 0
    ensures (i + 1) * n / 8 == i * n / 8 + n / 8
  {
    var m := n / 8;
    assert i * n == 8 * (i * m) && (i + 1) * n == 8 * (i * m + m);
  }

  lemma {:induction false} WholeSlices(p: Params)
    requires p.Supported()
    ensures 8 * (p.n / 8) % p.collisionBitLength == 0
  {
    RemainderUnique(p.n, p.collisionBitLength, p.k + 1, 0);
  }

  /** The first m leaves of an output, one after the other. */
  function Sources(env: Env, g: nat, m: nat): seq<nat>
    requires env.Ok()
  {
    if m == 0 then [] else Sources(env, g, m - 1) + Source(env, g * env.perHash + (m - 1))
  }

  /** No byte of an output is lost or used twice. */
  lemma {:induction false} LeavesFillHash(env: Env, g: nat)
    requires env.Ok()
    ensures Sources(env, g, env.perHash) == env.generate(g)
  {
    hide Source;
    LeavesFill(env, g, env.perHash);
    var all := env.generate(g);
    assert all[..|all|] == all;
  }

  lemma {:induction false} LeavesFill(env: Env, g: nat, m: nat)
    requires env.Ok() && m <= env.perHash
    ensures m * env.p.n / 8 <= |env.generate(g)|
    ensures Sources(env, g, m) == env.generate(g)[..m * env.p.n / 8]
  {
    hide Source;
    if m > 0 {
      LeavesFill(env, g, m - 1);
      LeafSource(env, g, m - 1);
    }
  }
}
