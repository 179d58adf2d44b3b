/** EncodeBase58, DecodeBase58 and their checksummed forms (src/base58.cpp). */
module Base58Text {
  import opened Powers
  import opened Base58
  import opened Words

  const ALPHABET: string := "123456789" + "ABCDEFGH" + "JKLMN" + "PQRSTUVWXYZ" + "abcdefghijk" + "mnopqrstuvwxyz"

  // --- Characters -----------------------------------------------------------------------

  predicate IsSpace(c: char) { c == ' ' || '\t' <= c <= '\r' }

  /** isspace of the C locale: tab, line feed, vertical tab, form feed, return, space. */
  lemma {:induction false} SpaceCodes(c: char)
    ensures IsSpace(c) <==> c as int in {9, 10, 11, 12, 13, 32}
  {}

  predicate Over(s: string) { forall k :: 0 <= k < |s| ==> s[k] in ALPHABET }

  /** n consecutive characters. */
  function Run(c: char, n: nat): (s: string)
    requires c as int + n < 256
    ensures |s| == n && forall k :: 0 <= k < n ==> s[k] as int == c as int + k
  {
    seq(n, k requires 0 <= k < n => (c as int + k) as char)
  }

  lemma {:induction false} AlphabetRuns()
    ensures ALPHABET == Run('1', 9) + Run('A', 8) + Run('J', 5) + Run('P', 11) + Run('a', 11) + Run('m', 14)
  {
    assert "123456789" == Run('1', 9);
    assert "ABCDEFGH" == Run('A', 8);
    assert "JKLMN" == Run('J', 5);
    assert "PQRSTUVWXYZ" == Run('P', 11);
    assert "abcdefghijk" == Run('a', 11);
    assert "mnopqrstuvwxyz" == Run('m', 14);
  }

  /** The code of the i-th character. */
  function Code(i: nat): int {
    if i < 9 then 49 + i else if i < 17 then 56 + i else if i < 22 then 57 + i
    else if i < 33 then 58 + i else if i < 44 then 64 + i else 65 + i
  }

  lemma {:induction false} CodeOf(i: nat)
    requires i < 58
    ensures |ALPHABET| == 58 && ALPHABET[i] as int == Code(i)
  {
    AlphabetRuns();
  }

  lemma {:induction false} Distinct(i: nat, j: nat)
    requires i < j < 58
    ensures |ALPHABET| == 58 && ALPHABET[i] < ALPHABET[j]
  {
    CodeOf(i);
    CodeOf(j);
  }

  lemma {:induction false} NoSpaces(i: nat)
    requires i < 58
    ensures |ALPHABET| == 58 && !IsSpace(ALPHABET[i]) && ALPHABET[i] != '\0' && (ALPHABET[i] == '1' <==> i == 0)
  {
    CodeOf(i);
  }

  /** strchr on the alphabet: the position of c, or -1. */
  function Position(c: char): (r: int)
    ensures -1 <= r < 58 && (r >= 0 <==> c in ALPHABET) && (r >= 0 ==> ALPHABET[r] == c)
  {
    var r := Search(c, 0);
    assert r < 0 ==> ALPHABET[0..] == ALPHABET;
    r
  }

  function Search(c: char, k: nat): (r: int)
    requires k <= |ALPHABET|
    ensures -1 <= r < |ALPHABET| && (r >= 0 <==> c in ALPHABET[k..]) && (r >= 0 ==> ALPHABET[r] == c)
    decreases |ALPHABET| - k
  {
    if k == |ALPHABET| then -1
    else if ALPHABET[k] == c then k
    else
      assert ALPHABET[k..] == [ALPHABET[k]] + ALPHABET[k + 1..];
      Search(c, k + 1)
  }

  lemma {:induction false} PositionOf(i: nat)
    requires i < 58
    ensures |ALPHABET| == 58 && Position(ALPHABET[i]) == i
  {
    var j := Position(ALPHABET[i]);
    if j < i { Distinct(j, i); } else if i < j { Distinct(i, j); }
  }

  function ToChars(d: seq<nat>): (s: string)
    requires Digits(58, d)
    ensures |s| == |d|
  {
    seq(|d|, k requires 0 <= k < |d| => ALPHABET[d[k]])
  }

  function ToDigits(s: string): (d: seq<nat>)
    requires Over(s)
    ensures |d| == |s| && Digits(58, d)
  {
    seq(|s|, k requires 0 <= k < |s| => Position(s[k]))
  }

  lemma {:induction false} CharsDigits(d: seq<nat>)
    requires Digits(58, d)
    ensures Over(ToChars(d)) && ToDigits(ToChars(d)) == d
  {
    forall k | 0 <= k < |d| ensures ToChars(d)[k] in ALPHABET && Position(ToChars(d)[k]) == d[k] {
      PositionOf(d[k]);
    }
  }

  lemma {:induction false} DigitsChars(s: string)
    requires Over(s)
    ensures ToChars(ToDigits(s)) == s
  {}

  // --- The two codings -----------------------------------------------------------------------

  /** Leading zeros of a digit string. */
  function Zeros(d: seq<nat>): (z: nat)
    ensures z <= |d| && (forall k :: 0 <= k < z ==> d[k] == 0) && Canonical(d[z..])
  {
    if d == [] || d[0] != 0 then 0 else
      assert d[1..][Zeros(d[1..])..] == d[1 + Zeros(d[1..])..];
      assert forall k :: 1 <= k < 1 + Zeros(d[1..]) ==> d[k] == d[1..][k - 1];
      1 + Zeros(d[1..])
  }

  /** The same number in another base, keeping the count of leading zeros. */
  function Convert(b: Base, m: Base, d: seq<nat>): (r: seq<nat>)
    requires Digits(b, d)
    ensures Digits(m, r)
  {
    Repeat(0, Zeros(d)) + Minimal(m, Value(b, d))
  }

  function Encoded(bytes: seq<nat>): string
    requires Digits(256, bytes)
  {
    ToChars(Convert(256, 58, bytes))
  }

  function Decoded(s: string): (r: seq<nat>)
    requires Over(s)
    ensures Digits(256, r)
  {
    Convert(58, 256, ToDigits(s))
  }

  lemma {:induction false} ZerosOf(n: nat, s: seq<nat>)
    requires Canonical(s)
    ensures Zeros(Repeat(0, n) + s) == n
  {
    if n == 0 {
      assert Repeat(0, n) + s == s;
    } else {
      ZerosOf(n - 1, s);
      assert (Repeat(0, n) + s)[1..] == Repeat(0, n - 1) + s;
    }
  }

  lemma {:induction false} ConvertBack(b: Base, m: Base, d: seq<nat>)
    requires Digits(b, d)
    ensures Convert(m, b, Convert(b, m, d)) == d
  {
    hide Value, Minimal, Canonical;
    var z, v := Zeros(d), Value(b, d);
    var r := Repeat(0, z) + Minimal(m, v);
    ValueOfMinimal(m, v);
    ZerosOf(z, Minimal(m, v));
    ValueZeros(m, Repeat(0, z), Minimal(m, v));
    assert d == d[..z] + d[z..];
    ValueZeros(b, d[..z], d[z..]);
    MinimalOfValue(b, d[z..]);
    assert d[..z] == Repeat(0, z);
  }

  /** Decoding undoes encoding, for every byte string. */
  lemma {:induction false} DecodeEncode(bytes: seq<nat>)
    requires Digits(256, bytes)
    ensures Over(Encoded(bytes)) && Decoded(Encoded(bytes)) == bytes
  {
    hide Convert, ToChars, ToDigits;
    CharsDigits(Convert(256, 58, bytes));
    ConvertBack(256, 58, bytes);
  }

  /** Encoding undoes decoding, for every string over the alphabet. */
  lemma {:induction false} EncodeDecode(s: string)
    requires Over(s)
    ensures Encoded(Decoded(s)) == s
  {
    hide Convert, ToChars, ToDigits;
    ConvertBack(58, 256, ToDigits(s));
    DigitsChars(s);
  }

  // --- Surrounding spaces -----------------------------------------------------------------------

  /** A C string ends at its first NUL. */
  function CString(s: string): (r: string)
    ensures forall k :: 0 <= k < |r| ==> r[k] != '\0'
    ensures |r| <= |s| && r == s[..|r|] && (|r| < |s| ==> s[|r|] == '\0')
  {
    if s == [] || s[0] == '\0' then [] else [s[0]] + CString(s[1..])
  }

  function TrimLeft(s: string): string {
    if s != [] && IsSpace(s[0]) then TrimLeft(s[1..]) else s
  }

  function TrimRight(s: string): string {
    if s != [] && IsSpace(s[|s| - 1]) then TrimRight(s[..|s| - 1]) else s
  }

  function Trim(s: string): string { TrimRight(TrimLeft(s)) }

  lemma {:induction false} TrimLeftAt(s: string, i: nat)
    requires i <= |s| && (forall k :: 0 <= k < i ==> IsSpace(s[k])) && (i < |s| ==> !IsSpace(s[i]))
    ensures TrimLeft(s) == s[i..]
  {
    if i > 0 {
      TrimLeftAt(s[1..], i - 1);
      assert s[1..][i - 1..] == s[i..];
    }
  }

  lemma {:induction false} TrimRightAt(s: string, j: nat)
    requires j <= |s| && (forall k :: j <= k < |s| ==> IsSpace(s[k])) && (j > 0 ==> !IsSpace(s[j - 1]))
    ensures TrimRight(s) == s[..j]
  {
    if j < |s| {
      TrimRightAt(s[..|s| - 1], j);
      assert s[..|s| - 1][..j] == s[..j];
    } else {
      assert s[..j] == s;
    }
  }

  /** Everything up to a character that is no space survives trimming on the right. */
  lemma {:induction false} TrimRightKeeps(s: string, k: nat)
    requires k < |s| && !IsSpace(s[k])
    ensures k < |TrimRight(s)| <= |s| && TrimRight(s) == s[..|TrimRight(s)|]
  {
    if IsSpace(s[|s| - 1]) {
      TrimRightKeeps(s[..|s| - 1], k);
    } else {
      assert s[..|s|] == s;
    }
  }

  predicate Spaces(s: string) { forall k :: 0 <= k < |s| ==> IsSpace(s[k]) }

  lemma {:induction false} NoSpaceIn(s: string)
    requires Over(s)
    ensures forall k :: 0 <= k < |s| ==> !IsSpace(s[k]) && s[k] != '\0'
  {
    forall k | 0 <= k < |s| ensures !IsSpace(s[k]) && s[k] != '\0' {
      NoSpaces(Position(s[k]));
    }
  }

  /** Spaces around a string over the alphabet are all that trimming removes. */
  lemma {:induction false} TrimOver(before: string, s: string, after: string)
    requires Over(s) && Spaces(before) && Spaces(after)
    ensures Trim(CString(before + s + after)) == s
  {
    hide Over;
    NoSpaceIn(s);
    var t := before + s + after;
    NoNul(t);
    if s == [] {
      assert forall k :: 0 <= k < |t| ==> IsSpace(t[k]);
      TrimLeftAt(t, |t|);
    } else {
      assert t[|before|] == s[0];
      TrimLeftAt(t, |before|);
      assert t[|before|..] == s + after;
      TrimRightAt(s + after, |s|);
      assert (s + after)[..|s|] == s;
    }
  }

  /** DecodeBase58 of an encoding, with or without spaces around it, is what was encoded. */
  lemma {:induction false} DecodesEncoded(before: string, bytes: seq<nat>, after: string)
    requires Digits(256, bytes) && Spaces(before) && Spaces(after)
    ensures var s := Trim(CString(before + Encoded(bytes) + after));
      Over(s) && Decoded(s) == bytes
  {
    hide Over, Trim, CString, Encoded, Decoded;
    DecodeEncode(bytes);
    TrimOver(before, Encoded(bytes), after);
  }

  lemma {:induction false} NoNul(s: string)
    requires forall k :: 0 <= k < |s| ==> s[k] != '\0'
    ensures CString(s) == s
  {
    if s != [] {
      NoNul(s[1..]);
    }
  }

  // --- The functions of base58.cpp ----------------------------------------------------------------

  /** The buffer allocated for the whole string has room for every part of it. */
  lemma {:induction false} Room(b: Base, m: Base, d: seq<nat>, len: nat, n: nat)
    requires Digits(m, d) && |d| <= len && Pow(m, len) <= Pow(b, n)
    ensures Value(m, d) < Scale(b, 1, n)
  {
    hide Pow, Value, Scale;
    ValueBound(m, d);
    ScalePow(m, |d|);
    PowExponent(m, |d|, len);
    ScalePow(b, n);
  }

  lemma {:induction false} ValueMore(m: Base, d: seq<nat>, i: nat, j: nat)
    requires i <= j < |d|
    ensures Value(m, d[i..j + 1]) == Times(m, Value(m, d[i..j])) + d[j]
  {
    assert d[i..j + 1][..j - i] == d[i..j];
  }

  method EncodeBase58(bytes: seq<nat>) returns (str: string)
    requires Digits(256, bytes)
    ensures str == Encoded(bytes)
  {
    hide Value, Scale, Pow, Minimal, Times;
    var zeroes := 0;
    while zeroes < |bytes| && bytes[zeroes] == 0
      invariant 0 <= zeroes <= |bytes| && forall k :: 0 <= k < zeroes ==> bytes[k] == 0
    {
      zeroes := zeroes + 1;
    }
    var len := |bytes| - zeroes;
    var b58 := NewBuffer(len * 138 / 100 + 1, 58);
    EncodeRoom(len);
    var pbegin := zeroes;
    EmptyValue(256, bytes, pbegin);
    while pbegin < |bytes|
      invariant zeroes <= pbegin <= |bytes| && fresh(b58) && Digits(58, b58[..])
      invariant Value(58, b58[..]) == Value(256, bytes[zeroes..pbegin])
    {
      ValueMore(256, bytes, zeroes, pbegin);
      Room(58, 256, bytes[zeroes..pbegin + 1], len, b58.Length);
      MultiplyAdd(b58, 58, 256, bytes[pbegin]);
      pbegin := pbegin + 1;
    }
    assert bytes[zeroes..pbegin] == bytes[zeroes..];
    var digits := SkipZeros(b58, 58);
    str := Repeat('1', zeroes);
    for it := 0 to |digits|
      invariant str == Repeat('1', zeroes) + ToChars(digits[..it])
    {
      str := str + [ALPHABET[digits[it]]];
    }
    assert digits[..|digits|] == digits;
    ConvertIs(256, 58, bytes, zeroes);
    OnesChars(zeroes, digits);
  }

  lemma {:induction false} EmptyValue(m: Base, d: seq<nat>, i: nat)
    requires i <= |d|
    ensures Value(m, d[i..i]) == 0
  {}

  lemma {:induction false} ConvertIs(b: Base, m: Base, d: seq<nat>, z: nat)
    requires Digits(b, d) && z <= |d| && Canonical(d[z..]) && forall k :: 0 <= k < z ==> d[k] == 0
    ensures Convert(b, m, d) == Repeat(0, z) + Minimal(m, Value(b, d[z..]))
  {
    hide Value, Minimal;
    assert d == Repeat(0, z) + d[z..];
    ZerosOf(z, d[z..]);
    ValueZeros(b, Repeat(0, z), d[z..]);
  }

  lemma {:induction false} OnesChars(z: nat, d: seq<nat>)
    requires Digits(58, d)
    ensures ToChars(Repeat(0, z) + d) == Repeat('1', z) + ToChars(d)
  {
    CodeOf(0);
  }

  /** Decoding accepts exactly the strings over the alphabet, with spaces around them. */
  method DecodeBase58(str: string) returns (ok: bool, vch: seq<nat>)
    ensures ok <==> Over(Trim(CString(str)))
    ensures ok ==> vch == Decoded(Trim(CString(str)))
  {
    hide Value, Scale, Pow, Minimal, Times, Trim, CString, Decoded, IsSpace, Over, ToDigits, Digits;
    var s := CString(str);
    vch := [];
    var psz := 0;
    while psz < |s| && IsSpace(s[psz])
      invariant 0 <= psz <= |s| && forall k :: 0 <= k < psz ==> IsSpace(s[k])
    {
      psz := psz + 1;
    }
    ghost var start := psz;
    var zeroes := 0;
    while psz < |s| && s[psz] == '1'
      invariant psz == start + zeroes <= |s| && forall k :: start <= k < psz ==> s[k] == '1'
    {
      zeroes := zeroes + 1;
      psz := psz + 1;
    }
    ghost var first := psz;
    var b256 := NewBuffer((|s| - psz) * 733 / 1000 + 1, 256);
    OnesOver(s, start, first);
    var good;
    good, psz := ReadDigits(s, psz, b256);
    if !good {
      KeepsBetween(s, psz, psz, psz);
      return false, vch;
    }
    ghost var end := psz;
    while psz < |s| && IsSpace(s[psz])
      invariant end <= psz <= |s| && forall k :: end <= k < psz ==> IsSpace(s[k])
    {
      psz := psz + 1;
    }
    if psz < |s| {
      KeepsBetween(s, start, end, psz);
      SpaceNotOver(s[end]);
      return false, vch;
    }
    ok := true;
    var bytes := SkipZeros(b256, 256);
    vch := Repeat(0, zeroes) + bytes;
    TrimIs(s, start, end);
    DecodedIs(s, start, first, end);
  }

  /** The middle loop of DecodeBase58: digits up to a space or the end, accumulated in b256. */
  method ReadDigits(s: string, first: nat, b256: array<nat>) returns (good: bool, psz: nat)
    requires first <= |s| && b256.Length == (|s| - first) * 733 / 1000 + 1
    requires Digits(256, b256[..]) && Value(256, b256[..]) == 0
    modifies b256
    ensures first <= psz <= |s| && (forall k :: first <= k < psz ==> !IsSpace(s[k])) && Digits(256, b256[..])
    ensures good ==> Over(s[first..psz]) && (psz < |s| ==> IsSpace(s[psz]))
    ensures good ==> Value(256, b256[..]) == Value(58, ToDigits(s[first..psz]))
    ensures !good ==> psz < |s| && !IsSpace(s[psz]) && s[psz] !in ALPHABET
  {
    hide Value, Scale, Pow, Times, IsSpace, Over, ToDigits, Digits;
    psz := first;
    EmptyDigits(s, psz);
    while psz < |s| && !IsSpace(s[psz])
      invariant first <= psz <= |s| && Digits(256, b256[..])
      invariant Over(s[first..psz]) && forall k :: first <= k < psz ==> !IsSpace(s[k])
      invariant Value(256, b256[..]) == Value(58, ToDigits(s[first..psz]))
    {
      var ch := Position(s[psz]);
      if ch < 0 {
        return false, psz;
      }
      DigitMore(s, first, psz);
      DigitRoom(s, first, psz + 1, b256.Length);
      MultiplyAdd(b256, 256, 58, ch);
      psz := psz + 1;
    }
    good := true;
  }

  lemma {:induction false} DigitRoom(s: string, i: nat, j: nat, n: nat)
    requires i <= j <= |s| && Over(s[i..j]) && n == (|s| - i) * 733 / 1000 + 1
    ensures Value(58, ToDigits(s[i..j])) < Scale(256, 1, n)
  {
    hide Value, Scale, Pow, Over, ToDigits, Digits;
    DecodeRoom(|s| - i);
    Room(256, 58, ToDigits(s[i..j]), |s| - i, n);
  }

  lemma {:induction false} OnesOver(s: string, i: nat, j: nat)
    requires i <= j <= |s| && forall k :: i <= k < j ==> s[k] == '1'
    ensures forall k :: i <= k < j ==> s[k] in ALPHABET && !IsSpace(s[k])
  {
    CodeOf(0);
    NoSpaces(0);
    assert ALPHABET[0] in ALPHABET;
  }

  lemma {:induction false} EmptyDigits(s: string, i: nat)
    requires i <= |s|
    ensures Over(s[i..i]) && Value(58, ToDigits(s[i..i])) == 0
  {}

  lemma {:induction false} DigitMore(s: string, i: nat, j: nat)
    requires i <= j < |s| && Over(s[i..j]) && s[j] in ALPHABET
    ensures Over(s[i..j + 1])
    ensures Value(58, ToDigits(s[i..j + 1])) == Times(58, Value(58, ToDigits(s[i..j]))) + Position(s[j])
  {
    hide Times, Position;
    assert s[i..j + 1] == s[i..j] + [s[j]];
    var d := ToDigits(s[i..j + 1]);
    assert d[..j - i] == ToDigits(s[i..j]);
  }

  /** Whatever lies between two characters that are no spaces survives trimming. */
  lemma {:induction false} KeepsBetween(s: string, a: nat, k: nat, b: nat)
    requires a <= k <= b < |s| && !IsSpace(s[a]) && !IsSpace(s[b])
    ensures s[k] in Trim(s)
    ensures s[k] !in ALPHABET ==> !Over(Trim(s))
  {
    var f := FirstKept(s, a);
    var t := s[f..];
    TrimLeftAt(s, f);
    TrimRightKeeps(t, b - f);
    assert TrimRight(t)[k - f] == s[k];
  }

  lemma {:induction false} FirstKept(s: string, a: nat) returns (f: nat)
    requires a < |s| && !IsSpace(s[a])
    ensures f <= a && !IsSpace(s[f]) && forall k :: 0 <= k < f ==> IsSpace(s[k])
  {
    f := 0;
    while IsSpace(s[f])
      invariant f <= a && forall k :: 0 <= k < f ==> IsSpace(s[k])
      decreases a - f
    {
      f := f + 1;
    }
  }

  lemma {:induction false} SpaceNotOver(c: char)
    requires IsSpace(c)
    ensures c !in ALPHABET
  {
    if c in ALPHABET {
      NoSpaces(Position(c));
    }
  }

  lemma {:induction false} TrimIs(s: string, i: nat, j: nat)
    requires i <= j <= |s| && (forall k :: 0 <= k < i ==> IsSpace(s[k])) && (forall k :: j <= k < |s| ==> IsSpace(s[k]))
    requires forall k :: i <= k < j ==> !IsSpace(s[k])
    requires i < |s| ==> !IsSpace(s[i])
    ensures Trim(s) == s[i..j]
  {
    TrimLeftAt(s, i);
    TrimRightAt(s[i..], j - i);
    assert s[i..][..j - i] == s[i..j];
  }

  lemma {:induction false} DecodedIs(s: string, i: nat, f: nat, j: nat)
    requires i <= f <= j <= |s| && (forall k :: i <= k < f ==> s[k] == '1') && Over(s[f..j]) && (f < j ==> s[f] != '1')
    ensures Over(s[i..j]) && Decoded(s[i..j]) == Repeat(0, f - i) + Minimal(256, Value(58, ToDigits(s[f..j])))
  {
    hide Value, Minimal, Over, ToDigits, Convert;
    BodyOver(s, i, f, j);
    BodyDigits(s, i, f, j);
    ConvertIs(58, 256, ToDigits(s[i..j]), f - i);
  }

  lemma {:induction false} BodyOver(s: string, i: nat, f: nat, j: nat)
    requires i <= f <= j <= |s| && (forall k :: i <= k < f ==> s[k] == '1') && Over(s[f..j])
    ensures Over(s[i..j])
  {
    OnesOver(s, i, f);
    forall k | 0 <= k < j - i ensures s[i..j][k] in ALPHABET {
      if k >= f - i { assert s[i..j][k] == s[f..j][k - (f - i)]; }
    }
  }

  lemma {:induction false} BodyDigits(s: string, i: nat, f: nat, j: nat)
    requires i <= f <= j <= |s| && (forall k :: i <= k < f ==> s[k] == '1') && Over(s[f..j]) && Over(s[i..j])
    requires f < j ==> s[f] != '1'
    ensures var d := ToDigits(s[i..j]);
      d[f - i..] == ToDigits(s[f..j]) && Canonical(d[f - i..]) && forall k :: 0 <= k < f - i ==> d[k] == 0
  {
    CodeOf(0);
    PositionOf(0);
  }

  // --- Base58Check ---------------------------------------------------------------------------------

  /** The first four bytes of the hash. */
  type Checksum = seq<nat> -> seq<nat>

  ghost predicate FourBytes(check: Checksum) {
    forall v :: Digits(256, v) ==> |check(v)| == 4 && Digits(256, check(v))
  }

  ghost function CheckEncoded(v: seq<nat>, check: Checksum): string
    requires FourBytes(check) && Digits(256, v)
  {
    Encoded(v + check(v))
  }

  method EncodeBase58Check(vchIn: seq<nat>, check: Checksum) returns (str: string)
    requires FourBytes(check) && Digits(256, vchIn)
    ensures str == CheckEncoded(vchIn, check)
  {
    var vch := vchIn + check(vchIn);
    str := EncodeBase58(vch);
  }

  lemma {:induction false} ChecksumAgrees(v: seq<nat>, check: Checksum, vch: seq<nat>)
    requires FourBytes(check) && Digits(256, v)
    ensures vch == v + check(v) ==> |vch| >= 4 && check(vch[..|vch| - 4]) == vch[|vch| - 4..]
  {
    if vch == v + check(v) {
      assert vch[..|vch| - 4] == v;
    }
  }

  /** So DecodeBase58Check of an encoding, with or without spaces around it, accepts and
      returns what was encoded, and nothing else is encoded alike. */
  lemma {:induction false} ChecksEncoded(before: string, v: seq<nat>, after: string, check: Checksum)
    requires FourBytes(check) && Digits(256, v) && Spaces(before) && Spaces(after)
    ensures forall w :: Digits(256, w) ==>
      (Trim(CString(before + CheckEncoded(v, check) + after)) == CheckEncoded(w, check) <==> w == v)
  {
    hide Over, Trim, CString, Encoded, Decoded;
    var s := CheckEncoded(v, check);
    DecodeEncode(v + check(v));
    TrimOver(before, s, after);
    forall w | Digits(256, w) ensures s == CheckEncoded(w, check) <==> w == v {
      DecodeEncode(w + check(w));
      SameFront(v, check(v), w, check(w));
    }
  }

  lemma {:induction false} SameFront(a: seq<nat>, x: seq<nat>, b: seq<nat>, y: seq<nat>)
    requires |x| == |y| == 4
    ensures a + x == b + y ==> a == b
  {
    if a + x == b + y {
      assert a == (a + x)[..|a|] && b == (b + y)[..|b|] && |a + x| == |b + y|;
    }
  }

  /** Accepts exactly what EncodeBase58Check produces, up to surrounding spaces, and returns
      what went into it. */
  method DecodeBase58Check(str: string, check: Checksum) returns (ok: bool, vch: seq<nat>)
    requires FourBytes(check)
    ensures ok ==> Digits(256, vch) && Trim(CString(str)) == CheckEncoded(vch, check)
    ensures !ok ==> vch == [] && forall v :: Digits(256, v) ==> Trim(CString(str)) != CheckEncoded(v, check)
  {
    hide Encoded, Decoded, Trim, CString;
    ghost var s := Trim(CString(str));
    ok, vch := DecodeBase58(str);
    if !ok || |vch| < 4 {
      forall v | Digits(256, v) ensures s != CheckEncoded(v, check) {
        DecodeEncode(v + check(v));
      }
      return false, [];
    }
    var n := |vch| - 4;
    EncodeDecode(s);
    assert vch == vch[..n] + vch[n..];
    if check(vch[..n]) != vch[n..] {
      forall v | Digits(256, v) ensures s != CheckEncoded(v, check) {
        DecodeEncode(v + check(v));
        ChecksumAgrees(v, check, vch);
      }
      return false, [];
    }
    vch := vch[..n];
  }
}
