/** The words after each macro of src/fugue.c, at the plain places of the state. */
module FugueMacros {
  import opened Fugue

  /** No word is changed but those at the places given. */
  predicate Else(S: seq<Word>, T: seq<Word>, places: set<nat>) {
    |T| == |S| && forall i: nat :: i < |S| && i !in places ==> T[i] == S[i]
  }

  lemma {:induction false} XorWordIs(a: Word, b: Word)
    ensures XorWord(a, b) == a ^ b
  {}

  lemma {:induction false} TIX2Places(S: seq<Word>, q: Word)
    requires |S| == 30
    ensures var T := TIX2(S, q, 0, 1, 8, 10, 24);
      && T[0] == q && T[1] == XorWord(S[1], S[24]) && T[8] == XorWord(S[8], q) && T[10] == XorWord(S[10], S[0])
      && Else(S, T, {0, 1, 8, 10})
  {
    hide XorWord;
  }

  lemma {:induction false} TIX2Words(S: seq<Word>, q: Word)
    requires |S| == 30
    ensures var T := TIX2(S, q, 0, 1, 8, 10, 24);
      && T[0] == q && T[1] == S[1] ^ S[24] && T[8] == S[8] ^ q && T[10] == S[10] ^ S[0]
      && Else(S, T, {0, 1, 8, 10})
  {
    hide XorWord, TIX2, Else;
    TIX2Places(S, q);
    XorWordIs(S[1], S[24]);
    XorWordIs(S[8], q);
    XorWordIs(S[10], S[0]);
  }

  lemma {:induction false} TIX3Places(S: seq<Word>, q: Word)
    requires |S| == 36
    ensures var T := TIX3(S, q, 0, 1, 4, 8, 16, 27, 30);
      && T[0] == q && T[1] == XorWord(S[1], S[27]) && T[4] == XorWord(S[4], S[30]) && T[8] == XorWord(S[8], q)
        && T[16] == XorWord(S[16], S[0])
      && Else(S, T, {0, 1, 4, 8, 16})
  {
    hide XorWord;
  }

  lemma {:induction false} TIX3Words(S: seq<Word>, q: Word)
    requires |S| == 36
    ensures var T := TIX3(S, q, 0, 1, 4, 8, 16, 27, 30);
      && T[0] == q && T[1] == S[1] ^ S[27] && T[4] == S[4] ^ S[30] && T[8] == S[8] ^ q && T[16] == S[16] ^ S[0]
      && Else(S, T, {0, 1, 4, 8, 16})
  {
    hide XorWord, TIX3, Else;
    TIX3Places(S, q);
    XorWordIs(S[1], S[27]);
    XorWordIs(S[4], S[30]);
    XorWordIs(S[8], q);
    XorWordIs(S[16], S[0]);
  }

  lemma {:induction false} TIX4Places(S: seq<Word>, q: Word)
    requires |S| == 36
    ensures var T := TIX4(S, q, 0, 1, 4, 7, 8, 22, 24, 27, 30);
      && T[0] == q && T[1] == XorWord(S[1], S[24]) && T[4] == XorWord(S[4], S[27]) && T[7] == XorWord(S[7], S[30])
        && T[8] == XorWord(S[8], q)
      && T[22] == XorWord(S[22], S[0]) && Else(S, T, {0, 1, 4, 7, 8, 22})
  {
    hide XorWord;
  }

  lemma {:induction false} TIX4Words(S: seq<Word>, q: Word)
    requires |S| == 36
    ensures var T := TIX4(S, q, 0, 1, 4, 7, 8, 22, 24, 27, 30);
      && T[0] == q && T[1] == S[1] ^ S[24] && T[4] == S[4] ^ S[27] && T[7] == S[7] ^ S[30] && T[8] == S[8] ^ q
      && T[22] == S[22] ^ S[0] && Else(S, T, {0, 1, 4, 7, 8, 22})
  {
    hide XorWord, TIX4, Else;
    TIX4Places(S, q);
    XorWordIs(S[1], S[24]);
    XorWordIs(S[4], S[27]);
    XorWordIs(S[7], S[30]);
    XorWordIs(S[8], q);
    XorWordIs(S[22], S[0]);
  }

  lemma {:induction false} CMIX30Places(S: seq<Word>)
    requires |S| == 30
    ensures var T := CMIX(S, 0, 1, 2, 4, 5, 6, 15, 16, 17);
      && T[0] == XorWord(S[0], S[4]) && T[1] == XorWord(S[1], S[5]) && T[2] == XorWord(S[2], S[6])
      && T[15] == XorWord(S[15], S[4]) && T[16] == XorWord(S[16], S[5]) && T[17] == XorWord(S[17], S[6])
      && Else(S, T, {0, 1, 2, 15, 16, 17})
  {
    hide XorWord;
  }

  lemma {:induction false} CMIX30Words(S: seq<Word>)
    requires |S| == 30
    ensures var T := CMIX(S, 0, 1, 2, 4, 5, 6, 15, 16, 17);
      && T[0] == S[0] ^ S[4] && T[1] == S[1] ^ S[5] && T[2] == S[2] ^ S[6]
      && T[15] == S[15] ^ S[4] && T[16] == S[16] ^ S[5] && T[17] == S[17] ^ S[6]
      && Else(S, T, {0, 1, 2, 15, 16, 17})
  {
    hide XorWord, CMIX, Else;
    CMIX30Places(S);
    XorWordIs(S[0], S[4]);
    XorWordIs(S[1], S[5]);
    XorWordIs(S[2], S[6]);
    XorWordIs(S[15], S[4]);
    XorWordIs(S[16], S[5]);
    XorWordIs(S[17], S[6]);
  }

  lemma {:induction false} CMIX36Places(S: seq<Word>)
    requires |S| == 36
    ensures var T := CMIX(S, 0, 1, 2, 4, 5, 6, 18, 19, 20);
      && T[0] == XorWord(S[0], S[4]) && T[1] == XorWord(S[1], S[5]) && T[2] == XorWord(S[2], S[6])
      && T[18] == XorWord(S[18], S[4]) && T[19] == XorWord(S[19], S[5]) && T[20] == XorWord(S[20], S[6])
      && Else(S, T, {0, 1, 2, 18, 19, 20})
  {
    hide XorWord;
  }

  lemma {:induction false} CMIX36Words(S: seq<Word>)
    requires |S| == 36
    ensures var T := CMIX(S, 0, 1, 2, 4, 5, 6, 18, 19, 20);
      && T[0] == S[0] ^ S[4] && T[1] == S[1] ^ S[5] && T[2] == S[2] ^ S[6]
      && T[18] == S[18] ^ S[4] && T[19] == S[19] ^ S[5] && T[20] == S[20] ^ S[6]
      && Else(S, T, {0, 1, 2, 18, 19, 20})
  {
    hide XorWord, CMIX, Else;
    CMIX36Places(S);
    XorWordIs(S[0], S[4]);
    XorWordIs(S[1], S[5]);
    XorWordIs(S[2], S[6]);
    XorWordIs(S[18], S[4]);
    XorWordIs(S[19], S[5]);
    XorWordIs(S[20], S[6]);
  }

  lemma {:induction false} SMIXWords(S: seq<Word>, smix: Smix)
    requires |S| >= 4
    ensures var T := SMIX(S, smix, 0, 1, 2, 3);
      (T[0], T[1], T[2], T[3]) == smix(S[0], S[1], S[2], S[3]) && Else(S, T, {0, 1, 2, 3})
  {}

  /** What one word of input does to 30 words of zeros but one, without mixing. */
  lemma {:induction false} FirstRound(smix: Smix)
    requires forall a, b, c, d :: smix(a, b, c, d) == (a, b, c, d)
    ensures var S := seq(30, i requires 0 <= i < 30 => if i == 24 then 1 as bv32 else 0);
      var T := Case2(S, 0, smix, 0);
      T[1] == 1 && T[24] == 1 && T[27] == 1 && T[12] == 1
  {}
}
