/** Rows of the Equihash tables (StepRow, FullStepRow), the leaf hashes, and what
    a solution is, stated without any algorithm. */
module EquihashRows {
  import opened Words
  import opened Packing
  import opened IndexCodec

  // --- Parameters ---------------------------------------------------------------

  datatype Params = Params(n: nat, k: nat) {
    const collisionBitLength: nat := n / (k + 1)
    const collisionByteLength: nat := (collisionBitLength + 7) / 8
    const hashLength: nat := (k + 1) * collisionByteLength

    /** The static assertions of the template, the run-time assertions of
        ExpandArray, and what the instantiated parameter sets have in common. */
    predicate Supported() {
      && 3 <= k && 0 < n <= 512 && n % 8 == 0
      && n == (k + 1) * collisionBitLength
      && 8 <= collisionBitLength && collisionBitLength + 1 <= 25
    }
  }

  lemma {:induction false} InstantiatedParametersSupported()
    ensures Params(96, 3).Supported() && Params(200, 9).Supported()
    ensures Params(96, 5).Supported() && Params(48, 5).Supported()
  {}

  /** The hash state is seen only through GenerateHash, an arbitrary function. */
  datatype Env = Env(p: Params, generate: nat -> seq<Byte>) {
    const c: nat := p.collisionByteLength
    const perHash: nat := if p.n == 0 then 0 else 512 / p.n
    /** Rounds before the last collision. */
    const last: nat := if p.k == 0 then 0 else p.k - 1

    ghost predicate Ok() {
      && p.Supported()
      && forall g: nat :: |generate(g)| == perHash * p.n / 8
    }
  }

  // --- Rows -----------------------------------------------------------------------

  datatype Row = Row(hash: seq<bv8>, indices: seq<Index>)

  function ToBits8(s: seq<nat>): (t: seq<bv8>)
    requires IsBytes(s)
    ensures |t| == |s|
  {
    seq(|s|, i requires 0 <= i < |s| => s[i] as bv8)
  }

  /** The i-th slice of a hash output, expanded to whole bytes per collision step. */
  function LeafAt(env: Env, tmpHash: seq<Byte>, i: nat): (h: seq<bv8>)
    requires env.p.Supported() && i < env.perHash && |tmpHash| == env.perHash * env.p.n / 8
    ensures |h| == env.p.hashLength
  {
    SliceInRange(env.p.n, env.perHash, i);
    var slice := tmpHash[i * env.p.n / 8..i * env.p.n / 8 + env.p.n / 8];
    LeafLength(env.p, slice);
    ToBits8(Expanded(slice, env.p.collisionBitLength, 0))
  }

  lemma {:induction false} SliceInRange(n: nat, perHash: nat, i: nat)
    requires n % 8 == 0 && i < perHash
    ensures 0 <= i * n / 8 && i * n / 8 + n / 8 <= perHash * n / 8
  {
    var m := n / 8;
    assert i * n == 8 * (i * m) && perHash * n == 8 * (perHash * m);
    MulMono(i + 1, perHash, m);
    MulSucc(i, m);
  }

  lemma {:induction false} LeafLength(p: Params, slice: seq<Byte>)
    requires p.Supported() && |slice| == p.n / 8
    ensures IsBytes(Expanded(slice, p.collisionBitLength, 0))
    ensures |Expanded(slice, p.collisionBitLength, 0)| == p.hashLength
  {
    hide CellsOf, BitString;
    var b := p.collisionBitLength;
    CellsAreBytes(BitString(slice), b, p.collisionByteLength);
    CellCount(|CellsOf(BitString(slice), b, p.collisionByteLength)|, p.collisionByteLength, p.k + 1, b, p.n);
  }

  lemma {:induction false} CellCount(len: nat, w: nat, q: nat, b: nat, n: nat)
    requires b > 0 && n == q * b && len * b == w * (n - n % b)
    ensures len == q * w
  {
    RemainderUnique(n, b, q, 0);
    Regroup(w, q, b);
    CancelRight(len, q * w, b);
  }

  lemma {:induction false} Regroup(x: nat, y: nat, b: nat)
    ensures x * (y * b) == (y * x) * b
  {}

  lemma {:induction false} CancelRight(x: nat, y: nat, b: nat)
    requires b > 0 && x * b == y * b
    ensures x == y
  {
    if x < y { MulMono(x + 1, y, b); MulSucc(x, b); }
    if y < x { MulMono(y + 1, x, b); MulSucc(y, b); }
  }

  /** Hash bytes of leaf i; solver and validator locate them by division. */
  function Leaf(env: Env, i: nat): (h: seq<bv8>)
    requires env.Ok()
    ensures |h| == env.p.hashLength
  {
    PerHashPositive(env.p.n);
    LeafAt(env, env.generate(i / env.perHash), i % env.perHash)
  }

  lemma {:induction false} PerHashPositive(n: nat)
    requires 0 < n <= 512
    ensures 512 / n > 0
  {}

  function XorBytes(a: seq<bv8>, b: seq<bv8>): (x: seq<bv8>)
    requires |a| == |b|
    ensures |x| == |a|
    ensures forall i :: 0 <= i < |a| ==> x[i] == a[i] ^ b[i]
  {
    seq(|a|, i requires 0 <= i < |a| => a[i] ^ b[i])
  }

  predicate AllZero(s: seq<bv8>) { forall i :: 0 <= i < |s| ==> s[i] == 0 }

  /** IndicesBefore: memcmp on the index bytes. */
  predicate IndicesBefore(a: Row, b: Row)
    requires |a.indices| == |b.indices|
  {
    MemLess(Flat(a.indices), Flat(b.indices))
  }

  predicate HasCollision(a: Row, b: Row, len: nat)
    requires len <= |a.hash| && len <= |b.hash|
  {
    a.hash[..len] == b.hash[..len]
  }

  predicate DistinctIndices(a: Row, b: Row) {
    forall i, j :: 0 <= i < |a.indices| && 0 <= j < |b.indices| ==> a.indices[i] != b.indices[j]
  }

  /** The merging constructor of FullStepRow: xor, trim, smaller list first. */
  function Merge(a: Row, b: Row, trim: nat): Row
    requires |a.hash| == |b.hash| && trim <= |a.hash| && |a.indices| == |b.indices|
  {
    Row(XorBytes(a.hash, b.hash)[trim..],
        if IndicesBefore(a, b) then a.indices + b.indices else b.indices + a.indices)
  }

  // --- What a solution is ------------------------------------------------------------

  /** a is a multiple of 2^r. */
  predicate Aligned(a: nat, r: nat) {
    r == 0 || (a % 2 == 0 && Aligned(a / 2, r - 1))
  }

  /** Hash bytes consumed after r levels. */
  function Off(env: Env, r: nat): nat {
    if r == 0 then 0 else Off(env, r - 1) + env.c
  }

  /** Xor of the hashes of a list of leaves. */
  function XorOf(env: Env, idx: seq<Index>): (x: seq<bv8>)
    requires env.Ok()
    ensures |x| == env.p.hashLength
  {
    if idx == [] then Repeat(0, env.p.hashLength)
    else XorBytes(Leaf(env, idx[0]), XorOf(env, idx[1..]))
  }

  ghost predicate Distinct(idx: seq<Index>) {
    forall i, j :: 0 <= i < j < |idx| ==> idx[i] != idx[j]
  }

  ghost predicate BlockOk(env: Env, block: seq<Index>, r: nat)
    requires env.Ok()
  {
    && |block| == Pow2(r) && Off(env, r) <= env.p.hashLength
    && AllZero(XorOf(env, block)[..Off(env, r)])
    && (r > 0 ==> MemLess(block[..Pow2(r - 1)], block[Pow2(r - 1)..]))
  }

  /** Independent definition of a solution: 2^k pairwise distinct indices, every
      aligned block of 2^r of them cancelling on its first r collision steps with
      its left half first, and everything cancelling at the root. */
  ghost predicate Solution(env: Env, idx: seq<Index>)
    requires env.Ok()
  {
    && |idx| == Pow2(env.p.k)
    && Distinct(idx)
    && (forall r: nat, a: nat :: 1 <= r <= env.p.k && Aligned(a, r) && a + Pow2(r) <= |idx| ==>
          BlockOk(env, idx[a..a + Pow2(r)], r))
    && AllZero(XorOf(env, idx))
  }
}
