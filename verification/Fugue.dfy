/** The rounds of Fugue-224/256, -384 and -512 (src/fugue.c): the core functions rename
    registers instead of rotating the state. Here both forms and their agreement. */
module Fugue {
  type Word = bv32

  /** The nonlinear mixing of four words, an arbitrary function. */
  type Smix = (Word, Word, Word, Word) -> (Word, Word, Word, Word)

  // --- Macros -------------------------------------------------------------------------

  function XorWord(a: Word, b: Word): Word { a ^ b }

  /** S[dst] ^= S[src] */
  function Xor(S: seq<Word>, dst: nat, src: nat): (r: seq<Word>)
    requires dst < |S| && src < |S|
    ensures |r| == |S|
  {
    S[dst := XorWord(S[dst], S[src])]
  }

  function TIX2(S: seq<Word>, q: Word, x00: nat, x01: nat, x08: nat, x10: nat, x24: nat): (r: seq<Word>)
    requires x00 < |S| && x01 < |S| && x08 < |S| && x10 < |S| && x24 < |S|
    ensures |r| == |S|
  {
    var S1 := Xor(S, x10, x00)[x00 := q];
    Xor(Xor(S1, x08, x00), x01, x24)
  }

  function TIX3(S: seq<Word>, q: Word, x00: nat, x01: nat, x04: nat, x08: nat, x16: nat, x27: nat,
      x30: nat): (r: seq<Word>)
    requires x00 < |S| && x01 < |S| && x04 < |S| && x08 < |S| && x16 < |S| && x27 < |S| && x30 < |S|
    ensures |r| == |S|
  {
    var S1 := Xor(S, x16, x00)[x00 := q];
    Xor(Xor(Xor(S1, x08, x00), x01, x27), x04, x30)
  }

  function TIX4(S: seq<Word>, q: Word, x00: nat, x01: nat, x04: nat, x07: nat, x08: nat, x22: nat, x24: nat,
                x27: nat, x30: nat): (r: seq<Word>)
    requires x00 < |S| && x01 < |S| && x04 < |S| && x07 < |S| && x08 < |S| && x22 < |S| && x24 < |S|
    requires x27 < |S| && x30 < |S|
    ensures |r| == |S|
  {
    var S1 := Xor(S, x22, x00)[x00 := q];
    Xor(Xor(Xor(Xor(S1, x08, x00), x01, x24), x04, x27), x07, x30)
  }

  /** CMIX30 and CMIX36, which differ only in the names of their parameters. */
  function CMIX(S: seq<Word>, x00: nat, x01: nat, x02: nat, x04: nat, x05: nat, x06: nat, y0: nat, y1: nat,
                y2: nat): (r: seq<Word>)
    requires x00 < |S| && x01 < |S| && x02 < |S| && x04 < |S| && x05 < |S| && x06 < |S|
    requires y0 < |S| && y1 < |S| && y2 < |S|
    ensures |r| == |S|
  {
    var S1 := Xor(Xor(Xor(S, x00, x04), x01, x05), x02, x06);
    Xor(Xor(Xor(S1, y0, x04), y1, x05), y2, x06)
  }

  function SMIX(S: seq<Word>, smix: Smix, x0: nat, x1: nat, x2: nat, x3: nat): (r: seq<Word>)
    requires x0 < |S| && x1 < |S| && x2 < |S| && x3 < |S|
    ensures |r| == |S|
  {
    var m := smix(S[x0], S[x1], S[x2], S[x3]);
    S[x0 := m.0][x1 := m.1][x2 := m.2][x3 := m.3]
  }

  // --- The rounds as written -----------------------------------------------------------------

  /** The switch of fugue2_core. */
  function Case2(S: seq<Word>, q: Word, smix: Smix, k: nat): (r: seq<Word>)
    requires |S| == 30
    ensures |r| == 30
  {
    if k == 0 then
      var S1 := TIX2(S, q, 0, 1, 8, 10, 24);
      var S2 := CMIX(S1, 27, 28, 29, 1, 2, 3, 12, 13, 14);
      var S3 := SMIX(S2, smix, 27, 28, 29, 0);
      var S4 := CMIX(S3, 24, 25, 26, 28, 29, 0, 9, 10, 11);
      SMIX(S4, smix, 24, 25, 26, 27)
    else if k == 1 then
      var S1 := TIX2(S, q, 24, 25, 2, 4, 18);
      var S2 := CMIX(S1, 21, 22, 23, 25, 26, 27, 6, 7, 8);
      var S3 := SMIX(S2, smix, 21, 22, 23, 24);
      var S4 := CMIX(S3, 18, 19, 20, 22, 23, 24, 3, 4, 5);
      SMIX(S4, smix, 18, 19, 20, 21)
    else if k == 2 then
      var S1 := TIX2(S, q, 18, 19, 26, 28, 12);
      var S2 := CMIX(S1, 15, 16, 17, 19, 20, 21, 0, 1, 2);
      var S3 := SMIX(S2, smix, 15, 16, 17, 18);
      var S4 := CMIX(S3, 12, 13, 14, 16, 17, 18, 27, 28, 29);
      SMIX(S4, smix, 12, 13, 14, 15)
    else if k == 3 then
      var S1 := TIX2(S, q, 12, 13, 20, 22, 6);
      var S2 := CMIX(S1, 9, 10, 11, 13, 14, 15, 24, 25, 26);
      var S3 := SMIX(S2, smix, 9, 10, 11, 12);
      var S4 := CMIX(S3, 6, 7, 8, 10, 11, 12, 21, 22, 23);
      SMIX(S4, smix, 6, 7, 8, 9)
    else
      var S1 := TIX2(S, q, 6, 7, 14, 16, 0);
      var S2 := CMIX(S1, 3, 4, 5, 7, 8, 9, 18, 19, 20);
      var S3 := SMIX(S2, smix, 3, 4, 5, 6);
      var S4 := CMIX(S3, 0, 1, 2, 4, 5, 6, 15, 16, 17);
      SMIX(S4, smix, 0, 1, 2, 3)
  }

  /** The switch of fugue3_core. */
  function Case3(S: seq<Word>, q: Word, smix: Smix, k: nat): (r: seq<Word>)
    requires |S| == 36
    ensures |r| == 36
  {
    if k == 0 then
      var S1 := TIX3(S, q, 0, 1, 4, 8, 16, 27, 30);
      var S2 := CMIX(S1, 33, 34, 35, 1, 2, 3, 15, 16, 17);
      var S3 := SMIX(S2, smix, 33, 34, 35, 0);
      var S4 := CMIX(S3, 30, 31, 32, 34, 35, 0, 12, 13, 14);
      var S5 := SMIX(S4, smix, 30, 31, 32, 33);
      var S6 := CMIX(S5, 27, 28, 29, 31, 32, 33, 9, 10, 11);
      SMIX(S6, smix, 27, 28, 29, 30)
    else if k == 1 then
      var S1 := TIX3(S, q, 27, 28, 31, 35, 7, 18, 21);
      var S2 := CMIX(S1, 24, 25, 26, 28, 29, 30, 6, 7, 8);
      var S3 := SMIX(S2, smix, 24, 25, 26, 27);
      var S4 := CMIX(S3, 21, 22, 23, 25, 26, 27, 3, 4, 5);
      var S5 := SMIX(S4, smix, 21, 22, 23, 24);
      var S6 := CMIX(S5, 18, 19, 20, 22, 23, 24, 0, 1, 2);
      SMIX(S6, smix, 18, 19, 20, 21)
    else if k == 2 then
      var S1 := TIX3(S, q, 18, 19, 22, 26, 34, 9, 12);
      var S2 := CMIX(S1, 15, 16, 17, 19, 20, 21, 33, 34, 35);
      var S3 := SMIX(S2, smix, 15, 16, 17, 18);
      var S4 := CMIX(S3, 12, 13, 14, 16, 17, 18, 30, 31, 32);
      var S5 := SMIX(S4, smix, 12, 13, 14, 15);
      var S6 := CMIX(S5, 9, 10, 11, 13, 14, 15, 27, 28, 29);
      SMIX(S6, smix, 9, 10, 11, 12)
    else
      var S1 := TIX3(S, q, 9, 10, 13, 17, 25, 0, 3);
      var S2 := CMIX(S1, 6, 7, 8, 10, 11, 12, 24, 25, 26);
      var S3 := SMIX(S2, smix, 6, 7, 8, 9);
      var S4 := CMIX(S3, 3, 4, 5, 7, 8, 9, 21, 22, 23);
      var S5 := SMIX(S4, smix, 3, 4, 5, 6);
      var S6 := CMIX(S5, 0, 1, 2, 4, 5, 6, 18, 19, 20);
      SMIX(S6, smix, 0, 1, 2, 3)
  }

  /** The switch of fugue4_core. */
  function Case4(S: seq<Word>, q: Word, smix: Smix, k: nat): (r: seq<Word>)
    requires |S| == 36
    ensures |r| == 36
  {
    if k == 0 then
      var S1 := TIX4(S, q, 0, 1, 4, 7, 8, 22, 24, 27, 30);
      var S2 := CMIX(S1, 33, 34, 35, 1, 2, 3, 15, 16, 17);
      var S3 := SMIX(S2, smix, 33, 34, 35, 0);
      var S4 := CMIX(S3, 30, 31, 32, 34, 35, 0, 12, 13, 14);
      var S5 := SMIX(S4, smix, 30, 31, 32, 33);
      var S6 := CMIX(S5, 27, 28, 29, 31, 32, 33, 9, 10, 11);
      var S7 := SMIX(S6, smix, 27, 28, 29, 30);
      var S8 := CMIX(S7, 24, 25, 26, 28, 29, 30, 6, 7, 8);
      SMIX(S8, smix, 24, 25, 26, 27)
    else if k == 1 then
      var S1 := TIX4(S, q, 24, 25, 28, 31, 32, 10, 12, 15, 18);
      var S2 := CMIX(S1, 21, 22, 23, 25, 26, 27, 3, 4, 5);
      var S3 := SMIX(S2, smix, 21, 22, 23, 24);
      var S4 := CMIX(S3, 18, 19, 20, 22, 23, 24, 0, 1, 2);
      var S5 := SMIX(S4, smix, 18, 19, 20, 21);
      var S6 := CMIX(S5, 15, 16, 17, 19, 20, 21, 33, 34, 35);
      var S7 := SMIX(S6, smix, 15, 16, 17, 18);
      var S8 := CMIX(S7, 12, 13, 14, 16, 17, 18, 30, 31, 32);
      SMIX(S8, smix, 12, 13, 14, 15)
    else
      var S1 := TIX4(S, q, 12, 13, 16, 19, 20, 34, 0, 3, 6);
      var S2 := CMIX(S1, 9, 10, 11, 13, 14, 15, 27, 28, 29);
      var S3 := SMIX(S2, smix, 9, 10, 11, 12);
      var S4 := CMIX(S3, 6, 7, 8, 10, 11, 12, 24, 25, 26);
      var S5 := SMIX(S4, smix, 6, 7, 8, 9);
      var S6 := CMIX(S5, 3, 4, 5, 7, 8, 9, 21, 22, 23);
      var S7 := SMIX(S6, smix, 3, 4, 5, 6);
      var S8 := CMIX(S7, 0, 1, 2, 4, 5, 6, 18, 19, 20);
      SMIX(S8, smix, 0, 1, 2, 3)
  }

  // --- The rounds as specified: rotate, then mix at fixed places --------------------------------

  /** ROR: the last n words move to the front. */
  function ROR(S: seq<Word>, n: nat): (r: seq<Word>)
    requires n <= |S|
    ensures |r| == |S|
  {
    S[|S| - n..] + S[..|S| - n]
  }

  /** The second group CMIX changes starts in the middle of the state. */
  function Half(n: nat): nat { if n == 30 then 15 else 18 }

  ghost predicate Sized(S: seq<Word>) { |S| == 30 || |S| == 36 }

  function SubRound(S: seq<Word>, smix: Smix): (r: seq<Word>)
    requires Sized(S)
    ensures |r| == |S|
  {
    var h := Half(|S|);
    SMIX(CMIX(ROR(S, 3), 0, 1, 2, 4, 5, 6, h, h + 1, h + 2), smix, 0, 1, 2, 3)
  }

  function SubRounds(S: seq<Word>, smix: Smix, n: nat): (r: seq<Word>)
    requires Sized(S)
    ensures |r| == |S|
  {
    if n == 0 then S else SubRound(SubRounds(S, smix, n - 1), smix)
  }

  /** Fugue with n sub-rounds a word: two for 224 and 256 bits, three for 384, four for 512. */
  function Inject(S: seq<Word>, q: Word, n: nat): (r: seq<Word>)
    requires Fits(S, n)
    ensures |r| == |S|
  {
    if n == 2 then TIX2(S, q, 0, 1, 8, 10, 24)
    else if n == 3 then TIX3(S, q, 0, 1, 4, 8, 16, 27, 30)
    else TIX4(S, q, 0, 1, 4, 7, 8, 22, 24, 27, 30)
  }

  predicate Fits(S: seq<Word>, n: nat) { 2 <= n <= 4 && |S| == (if n == 2 then 30 else 36) }

  function Round(S: seq<Word>, q: Word, smix: Smix, n: nat): (r: seq<Word>)
    requires Fits(S, n)
    ensures |r| == |S|
  {
    SubRounds(Inject(S, q, n), smix, n)
  }

  // --- Renaming ----------------------------------------------------------------------------------

  /** Where word i of the rotated state sits in the unrotated one. */
  function At(i: nat, r: nat, n: nat): (j: nat)
    requires i < n && r <= n
    ensures j < n
  {
    if i < r then n - r + i else i - r
  }

  lemma {:induction false} RorAt(S: seq<Word>, r: nat, i: nat)
    requires r <= |S| && i < |S|
    ensures ROR(S, r)[i] == S[At(i, r, |S|)]
  {}

  lemma {:induction false} RorSet(S: seq<Word>, r: nat, i: nat, v: Word)
    requires r <= |S| && i < |S|
    ensures ROR(S[At(i, r, |S|) := v], r) == ROR(S, r)[i := v]
  {
    var a, b := ROR(S[At(i, r, |S|) := v], r), ROR(S, r)[i := v];
    forall j | 0 <= j < |S| ensures a[j] == b[j] {
      RorAt(S[At(i, r, |S|) := v], r, j);
      RorAt(S, r, j);
    }
  }

  lemma {:induction false} RorXor(S: seq<Word>, r: nat, i: nat, j: nat)
    requires r <= |S| && i < |S| && j < |S|
    ensures ROR(Xor(S, At(i, r, |S|), At(j, r, |S|)), r) == Xor(ROR(S, r), i, j)
  {
    hide ROR, At, XorWord;
    RorAt(S, r, i);
    RorAt(S, r, j);
    RorSet(S, r, i, XorWord(S[At(i, r, |S|)], S[At(j, r, |S|)]));
  }

  /** Rotations add up. */
  lemma {:induction false} RorRor(S: seq<Word>, a: nat, b: nat)
    requires a + b <= |S|
    ensures ROR(ROR(S, a), b) == ROR(S, a + b)
  {}

  lemma {:induction false} RorFull(S: seq<Word>)
    ensures ROR(S, |S|) == S && ROR(S, 0) == S
  {}

  // Each macro on renamed registers is the macro at the plain places of the rotated state.

  lemma {:induction false} RorTIX2(S: seq<Word>, r: nat, q: Word)
    requires |S| == 30 && r <= 30
    ensures var n := |S|;
      ROR(TIX2(S, q, At(0, r, n), At(1, r, n), At(8, r, n), At(10, r, n), At(24, r, n)), r) ==
      TIX2(ROR(S, r), q, 0, 1, 8, 10, 24)
  {
    hide ROR, At, Xor;
    var n := |S|;
    var S1 := Xor(S, At(10, r, n), At(0, r, n));
    var S2 := S1[At(0, r, n) := q];
    var S3 := Xor(S2, At(8, r, n), At(0, r, n));
    RorXor(S, r, 10, 0);
    RorSet(S1, r, 0, q);
    RorXor(S2, r, 8, 0);
    RorXor(S3, r, 1, 24);
  }

  lemma {:induction false} RorTIX3(S: seq<Word>, r: nat, q: Word)
    requires |S| == 36 && r <= 36
    ensures var n := |S|;
      ROR(TIX3(S, q, At(0, r, n), At(1, r, n), At(4, r, n), At(8, r, n), At(16, r, n), At(27, r, n), At(30, r, n)),
          r) ==
      TIX3(ROR(S, r), q, 0, 1, 4, 8, 16, 27, 30)
  {
    hide ROR, At, Xor;
    var n := |S|;
    var S1 := Xor(S, At(16, r, n), At(0, r, n));
    var S2 := S1[At(0, r, n) := q];
    var S3 := Xor(S2, At(8, r, n), At(0, r, n));
    var S4 := Xor(S3, At(1, r, n), At(27, r, n));
    RorXor(S, r, 16, 0);
    RorSet(S1, r, 0, q);
    RorXor(S2, r, 8, 0);
    RorXor(S3, r, 1, 27);
    RorXor(S4, r, 4, 30);
  }

  lemma {:induction false} RorTIX4(S: seq<Word>, r: nat, q: Word)
    requires |S| == 36 && r <= 36
    ensures var n := |S|;
      ROR(TIX4(S, q, At(0, r, n), At(1, r, n), At(4, r, n), At(7, r, n), At(8, r, n),
               At(22, r, n), At(24, r, n), At(27, r, n), At(30, r, n)), r) ==
      TIX4(ROR(S, r), q, 0, 1, 4, 7, 8, 22, 24, 27, 30)
  {
    hide ROR, At, Xor;
    var n := |S|;
    var S1 := Xor(S, At(22, r, n), At(0, r, n));
    var S2 := S1[At(0, r, n) := q];
    var S3 := Xor(S2, At(8, r, n), At(0, r, n));
    var S4 := Xor(S3, At(1, r, n), At(24, r, n));
    var S5 := Xor(S4, At(4, r, n), At(27, r, n));
    RorXor(S, r, 22, 0);
    RorSet(S1, r, 0, q);
    RorXor(S2, r, 8, 0);
    RorXor(S3, r, 1, 24);
    RorXor(S4, r, 4, 27);
    RorXor(S5, r, 7, 30);
  }

  /** CMIX and SMIX of one sub-round, on registers renamed by r. */
  function RenamedSub(S: seq<Word>, smix: Smix, r: nat): (s: seq<Word>)
    requires Sized(S) && r <= |S|
    ensures |s| == |S|
  {
    var n, h := |S|, Half(|S|);
    SMIX(CMIX(S, At(0, r, n), At(1, r, n), At(2, r, n), At(4, r, n), At(5, r, n), At(6, r, n),
              At(h, r, n), At(h + 1, r, n), At(h + 2, r, n)), smix, At(0, r, n), At(1, r, n), At(2, r, n), At(3, r, n))
  }

  lemma {:induction false} RorCMIX(S: seq<Word>, r: nat)
    requires Sized(S) && r <= |S|
    ensures var n, h := |S|, Half(|S|);
      ROR(CMIX(S, At(0, r, n), At(1, r, n), At(2, r, n), At(4, r, n), At(5, r, n), At(6, r, n),
               At(h, r, n), At(h + 1, r, n), At(h + 2, r, n)), r) ==
      CMIX(ROR(S, r), 0, 1, 2, 4, 5, 6, h, h + 1, h + 2)
  {
    hide ROR, At, Xor;
    var n, h := |S|, Half(|S|);
    var S1 := Xor(S, At(0, r, n), At(4, r, n));
    var S2 := Xor(S1, At(1, r, n), At(5, r, n));
    var S3 := Xor(S2, At(2, r, n), At(6, r, n));
    var S4 := Xor(S3, At(h, r, n), At(4, r, n));
    var S5 := Xor(S4, At(h + 1, r, n), At(5, r, n));
    RorXor(S, r, 0, 4);
    RorXor(S1, r, 1, 5);
    RorXor(S2, r, 2, 6);
    RorXor(S3, r, h, 4);
    RorXor(S4, r, h + 1, 5);
    RorXor(S5, r, h + 2, 6);
  }

  lemma {:induction false} RorSMIX(S: seq<Word>, smix: Smix, r: nat)
    requires Sized(S) && r <= |S|
    ensures var n := |S|;
      ROR(SMIX(S, smix, At(0, r, n), At(1, r, n), At(2, r, n), At(3, r, n)), r) == SMIX(ROR(S, r), smix, 0, 1, 2, 3)
  {
    hide ROR, At;
    var n := |S|;
    RorAt(S, r, 0);
    RorAt(S, r, 1);
    RorAt(S, r, 2);
    RorAt(S, r, 3);
    var m := smix(S[At(0, r, n)], S[At(1, r, n)], S[At(2, r, n)], S[At(3, r, n)]);
    var S1 := S[At(0, r, n) := m.0];
    var S2 := S1[At(1, r, n) := m.1];
    var S3 := S2[At(2, r, n) := m.2];
    RorSet(S, r, 0, m.0);
    RorSet(S1, r, 1, m.1);
    RorSet(S2, r, 2, m.2);
    RorSet(S3, r, 3, m.3);
  }

  lemma {:induction false} RorSub(S: seq<Word>, smix: Smix, r: nat)
    requires Sized(S) && r + 3 <= |S|
    ensures ROR(RenamedSub(S, smix, r + 3), r + 3) == SubRound(ROR(S, r), smix)
  {
    hide ROR, At, CMIX, SMIX;
    var n, h := |S|, Half(|S|);
    RorCMIX(S, r + 3);
    RorSMIX(CMIX(S, At(0, r + 3, n), At(1, r + 3, n), At(2, r + 3, n), At(4, r + 3, n), At(5, r + 3, n),
      At(6, r + 3, n), At(h, r + 3, n), At(h + 1, r + 3, n), At(h + 2, r + 3, n)), smix, r + 3);
    RorRor(S, r, 3);
  }

  /** The first k sub-rounds on renamed registers. */
  function RenamedSubs(S: seq<Word>, smix: Smix, r: nat, k: nat): (s: seq<Word>)
    requires Sized(S) && r + 3 * k <= |S|
    ensures |s| == |S|
  {
    if k == 0 then S else RenamedSub(RenamedSubs(S, smix, r, k - 1), smix, r + 3 * k)
  }

  lemma {:induction false} FewSubs(S: seq<Word>, smix: Smix, r: nat)
    requires Sized(S) && r + 6 <= |S|
    ensures RenamedSubs(S, smix, r, 2) == RenamedSub(RenamedSub(S, smix, r + 3), smix, r + 6)
    ensures r + 9 <= |S| ==> RenamedSubs(S, smix, r, 3) == RenamedSub(RenamedSubs(S, smix, r, 2), smix, r + 9)
    ensures r + 12 <= |S| ==> RenamedSubs(S, smix, r, 4) == RenamedSub(RenamedSubs(S, smix, r, 3), smix, r + 12)
  {
    hide RenamedSub;
    assert RenamedSubs(S, smix, r, 0) == S;
    assert RenamedSubs(S, smix, r, 1) == RenamedSub(S, smix, r + 3);
  }

  lemma {:induction false} RorSubs(S: seq<Word>, smix: Smix, r: nat, k: nat)
    requires Sized(S) && r + 3 * k <= |S|
    ensures ROR(RenamedSubs(S, smix, r, k), r + 3 * k) == SubRounds(ROR(S, r), smix, k)
  {
    hide ROR, RenamedSub, SubRound;
    if k > 0 {
      RorSubs(S, smix, r, k - 1);
      RorSub(RenamedSubs(S, smix, r, k - 1), smix, r + 3 * (k - 1));
    }
  }

  // --- The code's rounds are renamed rounds ---------------------------------------------------------

  /** The number of entry points of the switch. */
  function Cases(n: nat): nat { if n == 2 then 5 else if n == 3 then 4 else 3 }

  function Case(S: seq<Word>, q: Word, smix: Smix, n: nat, k: nat): (r: seq<Word>)
    requires Fits(S, n)
    ensures |r| == |S|
  {
    if n == 2 then Case2(S, q, smix, k) else if n == 3 then Case3(S, q, smix, k) else Case4(S, q, smix, k)
  }

  /** How far the renamed state is rotated at entry point k: k times rcm of CLOSE_ENTRY. */
  function Rotation(n: nat, k: nat): (r: nat)
    requires 2 <= n <= 4 && k < Cases(n)
    ensures r <= if n == 2 then 24 else 27
  {
    if n == 2 then 6 * k else if n == 3 then 9 * k else 12 * k
  }

  function NextCase(n: nat, k: nat): nat { if k + 1 == Cases(n) then 0 else k + 1 }

  /** The register names in the code are the right ones. */
  lemma {:induction false} Case2Renamed(S: seq<Word>, q: Word, smix: Smix, k: nat)
    requires |S| == 30 && k < 5
    ensures var r := 6 * k;
      Case2(S, q, smix, k) == RenamedSubs(TIX2(S, q, At(0, r, 30), At(1, r, 30), At(8, r, 30), At(10, r, 30),
        At(24, r, 30)), smix, r, 2)
  {
    hide TIX2, CMIX, SMIX, RenamedSubs;
    var r := 6 * k;
    FewSubs(TIX2(S, q, At(0, r, 30), At(1, r, 30), At(8, r, 30), At(10, r, 30), At(24, r, 30)), smix, r);
  }

  lemma {:induction false} Case3Renamed(S: seq<Word>, q: Word, smix: Smix, k: nat)
    requires |S| == 36 && k < 4
    ensures var r := 9 * k;
      Case3(S, q, smix, k) == RenamedSubs(
        TIX3(S, q, At(0, r, 36), At(1, r, 36), At(4, r, 36), At(8, r, 36), At(16, r, 36), At(27, r, 36),
          At(30, r, 36)), smix, r, 3)
  {
    hide TIX3, CMIX, SMIX, RenamedSubs;
    var r := 9 * k;
    FewSubs(TIX3(S, q, At(0, r, 36), At(1, r, 36), At(4, r, 36), At(8, r, 36), At(16, r, 36), At(27, r, 36),
      At(30, r, 36)), smix, r);
  }

  lemma {:induction false} Case4Renamed(S: seq<Word>, q: Word, smix: Smix, k: nat)
    requires |S| == 36 && k < 3
    ensures var r := 12 * k;
      Case4(S, q, smix, k) == RenamedSubs(
        TIX4(S, q, At(0, r, 36), At(1, r, 36), At(4, r, 36), At(7, r, 36), At(8, r, 36), At(22, r, 36),
             At(24, r, 36), At(27, r, 36), At(30, r, 36)), smix, r, 4)
  {
    hide TIX4, CMIX, SMIX, RenamedSubs;
    var r := 12 * k;
    FewSubs(TIX4(S, q, At(0, r, 36), At(1, r, 36), At(4, r, 36), At(7, r, 36), At(8, r, 36), At(22, r, 36),
      At(24, r, 36), At(27, r, 36), At(30, r, 36)), smix, r);
  }

  /** One pass of the loop from entry point k, before the state is rotated on. */
  lemma {:induction false} Case2IsRound(S: seq<Word>, q: Word, smix: Smix, k: nat)
    requires |S| == 30 && k < 5
    ensures ROR(Case2(S, q, smix, k), 6 * k + 6) == SubRounds(TIX2(ROR(S, 6 * k), q, 0, 1, 8, 10, 24), smix, 2)
  {
    hide ROR, At, SubRounds, RenamedSubs, Case2, TIX2;
    var r := 6 * k;
    Case2Renamed(S, q, smix, k);
    RorTIX2(S, r, q);
    RorSubs(TIX2(S, q, At(0, r, 30), At(1, r, 30), At(8, r, 30), At(10, r, 30), At(24, r, 30)), smix, r, 2);
  }

  lemma {:induction false} Case3IsRound(S: seq<Word>, q: Word, smix: Smix, k: nat)
    requires |S| == 36 && k < 4
    ensures ROR(Case3(S, q, smix, k), 9 * k + 9) == SubRounds(TIX3(ROR(S, 9 * k), q, 0, 1, 4, 8, 16, 27, 30), smix, 3)
  {
    hide ROR, At, SubRounds, RenamedSubs, Case3, TIX3;
    var r := 9 * k;
    Case3Renamed(S, q, smix, k);
    RorTIX3(S, r, q);
    RorSubs(TIX3(S, q, At(0, r, 36), At(1, r, 36), At(4, r, 36), At(8, r, 36), At(16, r, 36), At(27, r, 36),
      At(30, r, 36)),
            smix, r, 3);
  }

  lemma {:induction false} Case4IsRound(S: seq<Word>, q: Word, smix: Smix, k: nat)
    requires |S| == 36 && k < 3
    ensures ROR(Case4(S, q, smix, k), 12 * k + 12) ==
         SubRounds(TIX4(ROR(S, 12 * k), q, 0, 1, 4, 7, 8, 22, 24, 27, 30), smix, 4)
  {
    hide ROR, At, SubRounds, RenamedSubs, Case4, TIX4;
    var r := 12 * k;
    Case4Renamed(S, q, smix, k);
    RorTIX4(S, r, q);
    RorSubs(TIX4(S, q, At(0, r, 36), At(1, r, 36), At(4, r, 36), At(7, r, 36), At(8, r, 36), At(22, r, 36),
      At(24, r, 36), At(27, r, 36), At(30, r, 36)), smix, r, 4);
  }

  /** One pass of the loop from entry point k does one specified round on the rotated
      state, and the next entry point accounts for the rotation. */
  lemma {:induction false} CaseIsRound(S: seq<Word>, q: Word, smix: Smix, n: nat, k: nat)
    requires Fits(S, n) && k < Cases(n)
    ensures NextCase(n, k) < Cases(n)
    ensures ROR(Case(S, q, smix, n, k), Rotation(n, NextCase(n, k))) == Round(ROR(S, Rotation(n, k)), q, smix, n)
  {
    hide ROR, SubRounds, Case2, Case3, Case4, TIX2, TIX3, TIX4;
    if n == 2 {
      Case2IsRound(S, q, smix, k);
    } else if n == 3 {
      Case3IsRound(S, q, smix, k);
    } else {
      Case4IsRound(S, q, smix, k);
    }
    RorFull(Case(S, q, smix, n, k));
  }
}
