/** Merged mining: CAuxPow::check of src/core.cpp, and why one parent coinbase can vouch
    for one block of a chain only. */
module AuxPow {
  import opened Merkle
  import opened Words
  import opened Modular

  type Hash256 = s: seq<Byte> | |s| == 32 witness seq(32, _ => 0)

  function Zero(): (z: Hash256)
    ensures forall k :: 0 <= k < 32 ==> z[k] == 0
  {
    seq(32, _ => 0)
  }

  const MERGED_MINING_HEADER: seq<Byte> := [0xfa, 0xbe, 0x6d, 0x6d]

  /** CPureBlockHeader, as far as it matters here. */
  datatype Parent = Parent(chainId: int, vectorFormat: bool, vectorRep: seq<Byte>, hashMerkleRoot: Hash256)

  datatype CAuxPow = CAuxPow(
    txHash: Hash256, nIndex: int, vMerkleBranch: seq<Hash256>, vChainMerkleBranch: seq<Hash256>, nChainIndex: int,
    parent: Parent, vectorFormat: bool, vectorRep: seq<Byte>, scriptSig: seq<Byte>)

  /** The pair hashes of the two chain families, and StrictChainId. */
  datatype Params = Params(pair: Pair<Hash256>, keccak: Pair<Hash256>, strict: bool)

  lemma {:induction false} HeaderIs()
    ensures MERGED_MINING_HEADER == [0xfa, 0xbe, 'm' as nat, 'm' as nat]
  {}

  // --- Searching -------------------------------------------------------------------------

  predicate Occurs(hay: seq<Byte>, needle: seq<Byte>, k: nat) {
    k + |needle| <= |hay| && hay[k..k + |needle|] == needle
  }

  /** std::search: the first occurrence at or after start, or the end. */
  function First(hay: seq<Byte>, needle: seq<Byte>, start: nat): (k: nat)
    ensures k < |hay| && needle != [] ==> start <= k && Occurs(hay, needle, k)
    ensures needle != [] && k >= |hay| ==> forall j :: start <= j ==> !Occurs(hay, needle, j)
    ensures needle != [] ==> forall j :: start <= j < k ==> !Occurs(hay, needle, j)
    decreases |hay| - start
  {
    if start + |needle| > |hay| then |hay|
    else if hay[start..start + |needle|] == needle then start
    else First(hay, needle, start + 1)
  }

  method Search(hay: seq<Byte>, needle: seq<Byte>, start: nat) returns (k: nat)
    ensures k == First(hay, needle, start)
  {
    k := start;
    while k + |needle| <= |hay|
      invariant First(hay, needle, start) == First(hay, needle, k)
      decreases |hay| - k
    {
      if hay[k..k + |needle|] == needle {
        return;
      }
      k := k + 1;
    }
    k := |hay|;
  }

  // --- Integers ----------------------------------------------------------------------------

  /** A 32-bit int stored least significant byte first. */
  function Int32(s: seq<Byte>): int
    requires |s| == 4
  {
    var u: nat := s[0] as nat + 0x100 * (s[1] as nat) + 0x1_0000 * (s[2] as nat) + 0x100_0000 * (s[3] as nat);
    if u < 0x8000_0000 then u else u - 0x1_0000_0000
  }

  lemma {:induction false} Pow2Less(g: nat, h: nat)
    requires g < h
    ensures Pow2(g) < Pow2(h)
  {
    if g + 1 < h {
      Pow2Less(g, h - 1);
    }
  }

  /** The four bytes as a number modulo 2^32, in the range of an int. */
  lemma {:induction false} Int32Is(s: seq<Byte>)
    requires |s| == 4
    ensures -0x8000_0000 <= Int32(s) < 0x8000_0000
    ensures var a: nat, b: nat, c: nat, d: nat := s[0], s[1], s[2], s[3];
      Int32(s) % WORD32 == a + 256 * (b + 256 * (c + 256 * d))
  {}

  /** getExpectedIndex, in unsigned 32-bit arithmetic. */
  function ExpectedIndex(nNonce: int, nChainId: int, h: nat): (r: nat)
    ensures r < Pow2(h)
  {
    var rand := nNonce % 0x1_0000_0000;
    var rand1 := (rand * 1103515245 + 12345) % 0x1_0000_0000;
    var rand2 := (rand1 + nChainId) % 0x1_0000_0000;
    var rand3 := (rand2 * 1103515245 + 12345) % 0x1_0000_0000;
    rand3 % Pow2(h)
  }

  const MULTIPLIER: int := 1103515245
  const INCREMENT: int := 12345

  /** Two steps of the generator x -> a * x + b, the chain id added in between; the 32-bit
      wrap-around in every step does not show. */
  lemma {:induction false} ExpectedIndexIs(nNonce: int, nChainId: int, h: nat)
    requires h <= 32
    ensures ExpectedIndex(nNonce, nChainId, h) ==
      (MULTIPLIER * (MULTIPLIER * nNonce + INCREMENT + nChainId) + INCREMENT) % Pow2(h)
  {
    hide Pow2;
    var w := Pow2(h);
    Word32();
    var rand := nNonce % WORD32;
    PowerMod(nNonce, h, 32);
    StepMod(rand, nNonce, h);
    var x1 := MULTIPLIER * rand + INCREMENT;
    var y1 := MULTIPLIER * nNonce + INCREMENT;
    var rand1 := x1 % WORD32;
    PowerMod(x1, h, 32);
    SameModAdd(rand1, y1, nChainId, w);
    var rand2 := (rand1 + nChainId) % WORD32;
    PowerMod(rand1 + nChainId, h, 32);
    StepMod(rand2, y1 + nChainId, h);
    PowerMod(MULTIPLIER * rand2 + INCREMENT, h, 32);
  }

  lemma {:induction false} StepMod(x: int, y: int, h: nat)
    requires x % Pow2(h) == y % Pow2(h)
    ensures (MULTIPLIER * x + INCREMENT) % Pow2(h) == (MULTIPLIER * y + INCREMENT) % Pow2(h)
  {
    hide Pow2;
    SameModTimes(x, y, MULTIPLIER, Pow2(h));
    SameModAdd(MULTIPLIER * x, MULTIPLIER * y, INCREMENT, Pow2(h));
  }

  /** For one nonce two chains share a slot if and only if their ids agree in the last h
      bits: every one of 2^h consecutive chain ids has a slot of its own. */
  lemma {:induction false} SlotsDiffer(nNonce: int, chain1: int, chain2: int, h: nat)
    requires h <= 32
    ensures ExpectedIndex(nNonce, chain1, h) == ExpectedIndex(nNonce, chain2, h) <==>
      chain1 % Pow2(h) == chain2 % Pow2(h)
  {
    hide ExpectedIndex, Pow2;
    var w, y := Pow2(h), MULTIPLIER * nNonce + INCREMENT;
    ExpectedIndexIs(nNonce, chain1, h);
    ExpectedIndexIs(nNonce, chain2, h);
    AddCancels(MULTIPLIER * (y + chain1), MULTIPLIER * (y + chain2), INCREMENT, w);
    OddCancels(y + chain1, y + chain2, MULTIPLIER, h);
    AddCancels(chain1, chain2, y, w);
  }

  lemma {:induction false} AddCancels(x: int, y: int, c: int, w: nat)
    requires w > 0
    ensures (x + c) % w == (y + c) % w <==> x % w == y % w
  {
    if (x + c) % w == (y + c) % w { SameModAdd(x + c, y + c, -c, w); }
    if x % w == y % w { SameModAdd(x, y, c, w); }
  }

  function Reverse(s: seq<Byte>): (r: seq<Byte>)
    ensures |r| == |s| && forall k :: 0 <= k < |s| ==> r[k] == s[|s| - 1 - k]
  {
    seq(|s|, k requires 0 <= k < |s| => s[|s| - 1 - k])
  }

  lemma {:induction false} ReverseInjective(s: seq<Byte>, t: seq<Byte>)
    requires |s| == |t| && Reverse(s) == Reverse(t)
    ensures s == t
  {
    forall k | 0 <= k < |s| ensures s[k] == t[k] {
      assert Reverse(s)[|s| - 1 - k] == s[k] && Reverse(t)[|s| - 1 - k] == t[k];
    }
  }

  // --- What is accepted -----------------------------------------------------------------------

  function CheckBranch(hash: Hash256, branch: seq<Hash256>, nIndex: int, pair: Pair<Hash256>): Hash256 {
    if nIndex == -1 then Zero() else Climb(hash, branch, nIndex, pair)
  }

  function ScriptOf(a: CAuxPow): seq<Byte> { if a.vectorFormat then a.vectorRep else a.scriptSig }

  /** The coinbase transaction is in the parent block. */
  predicate InParent(a: CAuxPow, p: Params) {
    if a.parent.vectorFormat then
      var root := CheckBranch(a.txHash, a.vMerkleBranch, a.nIndex, p.keccak);
      |a.parent.vectorRep| <= 1000 && First(a.parent.vectorRep, root, 0) < |a.parent.vectorRep|
    else
      CheckBranch(a.txHash, a.vMerkleBranch, a.nIndex, p.pair) == a.parent.hashMerkleRoot
  }

  /** The root is at position pc of the script, after the only header if there is one,
      else near the start. */
  predicate Placed(script: seq<Byte>, pc: nat) {
    var head := First(script, MERGED_MINING_HEADER, 0);
    if head < |script| then
      First(script, MERGED_MINING_HEADER, head + 1) == |script| && head + 4 == pc
    else pc <= 20
  }

  /** The bytes after the root give the size of the tree and the slot of the chain. */
  predicate Slotted(script: seq<Byte>, pc: nat, nChainId: int, nChainIndex: int, height: nat) {
    && pc + 40 <= |script|
    && Int32(script[pc + 32..pc + 36]) == Pow2(height)
    && nChainIndex == ExpectedIndex(Int32(script[pc + 36..pc + 40]), nChainId, height)
  }

  predicate Accepts(a: CAuxPow, hashAuxBlock: Hash256, nChainId: int, p: Params) {
    var script := ScriptOf(a);
    var root := Reverse(CheckBranch(hashAuxBlock, a.vChainMerkleBranch, a.nChainIndex, p.pair));
    var pc := First(script, root, 0);
    && a.nIndex == 0
    && !(p.strict && a.parent.chainId == nChainId)
    && |a.vChainMerkleBranch| <= 30
    && InParent(a, p)
    && (a.vectorFormat ==> |a.vectorRep| <= 1000)
    && pc < |script| && Placed(script, pc)
    && Slotted(script, pc, nChainId, a.nChainIndex, |a.vChainMerkleBranch|)
  }

  /** CAuxPow::check */
  method Check(a: CAuxPow, hashAuxBlock: Hash256, nChainId: int, p: Params) returns (ok: bool)
    ensures ok <==> Accepts(a, hashAuxBlock, nChainId, p)
  {
    hide First, Int32, ExpectedIndex, Reverse;
    if a.nIndex != 0 {
      return false;
    }
    if p.strict && a.parent.chainId == nChainId {
      return false;
    }
    if |a.vChainMerkleBranch| > 30 {
      return false;
    }
    var nRootHash := CBlock.CheckMerkleBranch(hashAuxBlock, a.vChainMerkleBranch, a.nChainIndex, p.pair, Zero());
    var vchRootHash := Reverse(nRootHash);
    var inParent := CheckParent(a, p);
    if !inParent {
      return false;
    }
    if a.vectorFormat && |a.vectorRep| > 1000 {
      return false;
    }
    var script := if a.vectorFormat then a.vectorRep else a.scriptSig;
    var pcHead := Search(script, MERGED_MINING_HEADER, 0);
    var pc := Search(script, vchRootHash, 0);
    if pc >= |script| {
      return false;
    }
    if pcHead < |script| {
      var again := Search(script, MERGED_MINING_HEADER, pcHead + 1);
      if again != |script| {
        return false;
      }
      if pcHead + |MERGED_MINING_HEADER| != pc {
        return false;
      }
    } else if pc > 20 {
      return false;
    }
    ok := CheckSlot(script, pc, nChainId, a.nChainIndex, |a.vChainMerkleBranch|);
  }

  method CheckParent(a: CAuxPow, p: Params) returns (ok: bool)
    ensures ok <==> InParent(a, p)
  {
    hide First;
    if a.parent.vectorFormat {
      if |a.parent.vectorRep| > 1000 {
        return false;
      }
      var root := CBlock.CheckMerkleBranch(a.txHash, a.vMerkleBranch, a.nIndex, p.keccak, Zero());
      var pc := Search(a.parent.vectorRep, root, 0);
      ok := pc < |a.parent.vectorRep|;
    } else {
      var root := CBlock.CheckMerkleBranch(a.txHash, a.vMerkleBranch, a.nIndex, p.pair, Zero());
      ok := root == a.parent.hashMerkleRoot;
    }
  }

  method CheckSlot(script: seq<Byte>, pc: nat, nChainId: int, nChainIndex: int, height: nat) returns (ok: bool)
    requires pc <= |script|
    ensures ok <==> Slotted(script, pc, nChainId, nChainIndex, height)
  {
    hide Int32, ExpectedIndex;
    var at := pc + 32;
    if |script| - at < 8 {
      return false;
    }
    var nSize := Int32(script[at..at + 4]);
    if nSize != Pow2(height) {
      return false;
    }
    var nNonce := Int32(script[at + 4..at + 8]);
    ok := nChainIndex == ExpectedIndex(nNonce, nChainId, height);
  }

  // --- One block per parent coinbase -----------------------------------------------------------

  lemma {:induction false} Pow2Injective(g: nat, h: nat)
    requires Pow2(g) == Pow2(h)
    ensures g == h
  {
    if g < h { Pow2Less(g, h); } else if h < g { Pow2Less(h, g); }
  }

  /** Two proofs with one root at one place of one script: the tree has one height, the
      chain one slot, and the block hash and the branch are the same, unless the two
      climbs to the root show a collision of the pair hash. */
  ghost predicate OneBlock(a: CAuxPow, b: CAuxPow, x: Hash256, y: Hash256, p: Params) {
    && |a.vChainMerkleBranch| == |b.vChainMerkleBranch| && a.nChainIndex == b.nChainIndex
    && (NoCollision(x, y, a.vChainMerkleBranch, b.vChainMerkleBranch, a.nChainIndex, p.pair) ==>
          x == y && a.vChainMerkleBranch == b.vChainMerkleBranch)
  }

  function PlaceOf(a: CAuxPow, hashAuxBlock: Hash256, p: Params): nat {
    First(ScriptOf(a), Reverse(CheckBranch(hashAuxBlock, a.vChainMerkleBranch, a.nChainIndex, p.pair)), 0)
  }

  lemma {:induction false} OnePlace(a: CAuxPow, b: CAuxPow, x: Hash256, y: Hash256, nChainId: int, p: Params)
    requires ScriptOf(a) == ScriptOf(b) && Accepts(a, x, nChainId, p) && Accepts(b, y, nChainId, p)
    requires PlaceOf(a, x, p) == PlaceOf(b, y, p)
    ensures OneBlock(a, b, x, y, p)
  {
    hide Int32, ExpectedIndex, Reverse, Climb, InParent, First, Pow2, NoCollision;
    var u := CheckBranch(x, a.vChainMerkleBranch, a.nChainIndex, p.pair);
    var v := CheckBranch(y, b.vChainMerkleBranch, b.nChainIndex, p.pair);
    ReverseInjective(u, v);
    Pow2Injective(|a.vChainMerkleBranch|, |b.vChainMerkleBranch|);
    if NoCollision(x, y, a.vChainMerkleBranch, b.vChainMerkleBranch, a.nChainIndex, p.pair) {
      ClimbUnique(x, y, a.vChainMerkleBranch, b.vChainMerkleBranch, a.nChainIndex, p.pair);
    }
  }

  /** A parent coinbase script with the merged-mining header vouches for one block hash of
      a chain only, by one branch and at one slot, whoever presents it. */
  lemma {:induction false} OneBlockPerCoinbase(a: CAuxPow, b: CAuxPow, x: Hash256, y: Hash256, nChainId: int, p: Params)
    requires ScriptOf(a) == ScriptOf(b) && First(ScriptOf(a), MERGED_MINING_HEADER, 0) < |ScriptOf(a)|
    requires Accepts(a, x, nChainId, p) && Accepts(b, y, nChainId, p)
    ensures OneBlock(a, b, x, y, p)
  {
    hide First, Slotted, InParent, OneBlock, CheckBranch, Reverse;
    OnePlace(a, b, x, y, nChainId, p);
  }

  // --- Without the header ------------------------------------------------------------------------

  /** A place of the script where 32 bytes can be taken for the root of a tree of height h. */
  predicate Slot(s: seq<Byte>, pc: nat, h: nat) {
    pc <= 20 && pc + 40 <= |s| && First(s, s[pc..pc + 32], 0) == pc && Int32(s[pc + 32..pc + 36]) == Pow2(h)
  }

  ghost predicate AtMostOneSlot(s: seq<Byte>) {
    forall pc: nat, h: nat, pc': nat, h': nat :: Slot(s, pc, h) && Slot(s, pc', h') ==> pc == pc'
  }

  lemma {:induction false} AcceptedSlot(a: CAuxPow, x: Hash256, nChainId: int, p: Params)
    requires First(ScriptOf(a), MERGED_MINING_HEADER, 0) >= |ScriptOf(a)| && Accepts(a, x, nChainId, p)
    ensures Slot(ScriptOf(a), PlaceOf(a, x, p), |a.vChainMerkleBranch|)
  {
    hide Int32, ExpectedIndex, Reverse, CheckBranch, InParent, First, Pow2;
  }

  /** Without the header, a script with no more than one such place still vouches for one
      block hash only. */
  lemma {:induction false} OneSlot(a: CAuxPow, b: CAuxPow, x: Hash256, y: Hash256, nChainId: int, p: Params)
    requires ScriptOf(a) == ScriptOf(b) && First(ScriptOf(a), MERGED_MINING_HEADER, 0) >= |ScriptOf(a)|
    requires AtMostOneSlot(ScriptOf(a))
    requires Accepts(a, x, nChainId, p) && Accepts(b, y, nChainId, p)
    ensures OneBlock(a, b, x, y, p)
  {
    hide Slot, First, Accepts, OneBlock, PlaceOf;
    AcceptedSlot(a, x, nChainId, p);
    AcceptedSlot(b, y, nChainId, p);
    OnePlace(a, b, x, y, nChainId, p);
  }

  /** The block hash that a place for a tree of one leaf vouches for. */
  function RootAt(s: seq<Byte>, pc: nat): Hash256
    requires pc + 32 <= |s|
  {
    Reverse(s[pc..pc + 32])
  }

  lemma {:induction false} RootsDiffer(s: seq<Byte>, pc: nat, pc': nat)
    requires pc + 32 <= |s| && pc' + 32 <= |s|
    requires First(s, s[pc..pc + 32], 0) == pc && First(s, s[pc'..pc' + 32], 0) == pc' && pc != pc'
    ensures RootAt(s, pc) != RootAt(s, pc')
  {
    hide First, Reverse;
    if RootAt(s, pc) == RootAt(s, pc') {
      ReverseInjective(s[pc..pc + 32], s[pc'..pc' + 32]);
    }
  }

  /** What every proof must meet whatever block it is for. */
  predicate Presentable(a: CAuxPow, nChainId: int, p: Params) {
    a.nIndex == 0 && !(p.strict && a.parent.chainId == nChainId) && InParent(a, p)
    && (a.vectorFormat ==> |a.vectorRep| <= 1000)
  }

  /** A place for a tree of one leaf vouches for the hash found there. */
  lemma {:induction false} SlotAccepts(a: CAuxPow, nChainId: int, p: Params, pc: nat)
    requires Presentable(a, nChainId, p) && a.vChainMerkleBranch == [] && a.nChainIndex == 0
    requires First(ScriptOf(a), MERGED_MINING_HEADER, 0) >= |ScriptOf(a)| && Slot(ScriptOf(a), pc, 0)
    ensures Accepts(a, RootAt(ScriptOf(a), pc), nChainId, p)
  {
    hide First, ExpectedIndex, InParent, Int32;
    var s := ScriptOf(a);
    assert Reverse(RootAt(s, pc)) == s[pc..pc + 32];
    assert Pow2(0) == 1;
  }

  /** For trees of one leaf the condition is exact: the script vouches for one block hash
      only if and only if it has no more than one place for it. */
  lemma {:induction false} OneLeafExact(a: CAuxPow, nChainId: int, p: Params)
    requires Presentable(a, nChainId, p) && a.vChainMerkleBranch == [] && a.nChainIndex == 0
    requires First(ScriptOf(a), MERGED_MINING_HEADER, 0) >= |ScriptOf(a)|
    ensures (forall x: Hash256, y: Hash256 :: Accepts(a, x, nChainId, p) && Accepts(a, y, nChainId, p) ==> x == y)
      <==> forall pc: nat, pc': nat :: Slot(ScriptOf(a), pc, 0) && Slot(ScriptOf(a), pc', 0) ==> pc == pc'
  {
    hide First, Accepts, Slot, Presentable, RootAt, PlaceOf, OneBlock;
    var s := ScriptOf(a);
    if pc: nat, pc': nat :| Slot(s, pc, 0) && Slot(s, pc', 0) && pc != pc' {
      TwoSlots(a, nChainId, p, pc, pc');
    } else {
      forall x: Hash256, y: Hash256 | Accepts(a, x, nChainId, p) && Accepts(a, y, nChainId, p) ensures x == y {
        AcceptedSlot(a, x, nChainId, p);
        AcceptedSlot(a, y, nChainId, p);
        OnePlace(a, a, x, y, nChainId, p);
        LeavesDoNotCollide(a, x, y, p);
      }
    }
  }

  lemma {:induction false} LeavesDoNotCollide(a: CAuxPow, x: Hash256, y: Hash256, p: Params)
    requires a.vChainMerkleBranch == [] && OneBlock(a, a, x, y, p)
    ensures x == y
  {}

  /** Two places for a tree of one leaf always vouch for two block hashes. */
  lemma {:induction false} TwoSlots(a: CAuxPow, nChainId: int, p: Params, pc: nat, pc': nat)
    requires Presentable(a, nChainId, p) && a.vChainMerkleBranch == [] && a.nChainIndex == 0
    requires First(ScriptOf(a), MERGED_MINING_HEADER, 0) >= |ScriptOf(a)|
    requires Slot(ScriptOf(a), pc, 0) && Slot(ScriptOf(a), pc', 0) && pc != pc'
    ensures var x, y := RootAt(ScriptOf(a), pc), RootAt(ScriptOf(a), pc');
      x != y && Accepts(a, x, nChainId, p) && Accepts(a, y, nChainId, p)
  {
    hide First, Accepts, RootAt, Presentable, Int32;
    RootsDiffer(ScriptOf(a), pc, pc');
    SlotAccepts(a, nChainId, p, pc);
    SlotAccepts(a, nChainId, p, pc');
  }

  /** A coinbase script without a header in which two roots are found. */
  function TwoRoots(): (s: seq<Byte>)
    ensures |s| == 48
  {
    [7] + Repeat(0, 31) + [1, 0, 0, 0] + Repeat(0, 4) + [1, 0, 0, 0] + Repeat(0, 4)
  }

  lemma {:induction false} FirstIs(hay: seq<Byte>, needle: seq<Byte>, k: nat)
    requires needle != [] && Occurs(hay, needle, k) && forall j :: 0 <= j < k ==> !Occurs(hay, needle, j)
    ensures First(hay, needle, 0) == k
  {
    hide First;
    var f := First(hay, needle, 0);
    assert !(f < k) && !(f > k);
  }

  lemma {:induction false} NoHeader(s: seq<Byte>)
    requires forall k :: 0 <= k < |s| ==> s[k] != 0xfa
    ensures First(s, MERGED_MINING_HEADER, 0) >= |s|
  {
    hide First;
    OccursHas(s, MERGED_MINING_HEADER, First(s, MERGED_MINING_HEADER, 0), 0);
  }

  lemma {:induction false} OccursHas(hay: seq<Byte>, needle: seq<Byte>, k: nat, i: nat)
    requires i < |needle|
    ensures Occurs(hay, needle, k) ==> hay[k + i] == needle[i]
  {
    if Occurs(hay, needle, k) {
      assert hay[k..k + |needle|][i] == hay[k + i];
    }
  }

  lemma {:induction false} RootsFound()
    ensures var s := TwoRoots();
      && First(s, s[0..32], 0) == 0 && First(s, s[8..40], 0) == 8 && First(s, MERGED_MINING_HEADER, 0) >= |s|
      && s[0..32] != s[8..40] && s[32..36] == [1, 0, 0, 0] && s[40..44] == [1, 0, 0, 0]
  {
    hide First;
    var s := TwoRoots();
    var r := s[8..40];
    FirstIs(s, s[0..32], 0);
    assert r[24] == 1 && r[0] == 0 && s[0] == 7;
    forall j | 0 <= j < 8 ensures !Occurs(s, r, j) { OccursHas(s, r, j, 24); }
    FirstIs(s, r, 8);
    NoHeader(s);
    assert s[0..32][0] == 7;
  }

  /** The rule that the root starts in the first 20 bytes leaves room for two such places. */
  lemma {:induction false} TwoBlocksWithoutHeader(a: CAuxPow, nChainId: int, p: Params) returns (x: Hash256, y: Hash256)
    requires Presentable(a, nChainId, p) && a.vChainMerkleBranch == [] && a.nChainIndex == 0
    requires ScriptOf(a) == TwoRoots()
    ensures x != y && Accepts(a, x, nChainId, p) && Accepts(a, y, nChainId, p)
  {
    hide First, Presentable, Accepts, TwoRoots;
    var s := TwoRoots();
    RootsFound();
    assert Pow2(0) == 1;
    TwoSlots(a, nChainId, p, 0, 8);
    x, y := RootAt(s, 0), RootAt(s, 8);
  }
}
