/** Which byte of a number stands where in the encodings of the hash functions. */
module ByteOrder {
  import opened Words
  import opened Powers
  import opened Modular
  import opened Octets
  import Blake
  import FugueStream
  import Lyra2Input

  /** Byte i of v, counting from the least significant. */
  function ByteOf(v: nat, i: nat): (b: nat)
    ensures b < 256
  {
    Shifted(v, i) % 256
  }

  /** v / 256^i */
  function Shifted(v: nat, i: nat): nat {
    PowPositive(256, i);
    v / Pow(256, i)
  }

  lemma {:induction false} NextByte(v: nat, i: nat)
    ensures ByteOf(v / 256, i) == ByteOf(v, i + 1)
  {
    PowPositive(256, i);
    DivDiv(v, 256, Pow(256, i));
  }

  lemma {:induction false} FirstByte(v: nat)
    ensures ByteOf(v, 0) == v % 256
  {}

  /** sph_enc32be and sph_enc64be of src/blake.c: most significant byte first. */
  lemma {:induction false} BigEndianAt(v: nat, w: nat, i: nat)
    requires i < w
    ensures Blake.BigEndian(v, w)[i] as nat == ByteOf(v, w - 1 - i)
  {
    hide ByteOf;
    if i == w - 1 {
      ByteBack(v % 256);
      FirstByte(v);
    } else {
      BigEndianAt(v / 256, w - 1, i);
      NextByte(v, w - 2 - i);
    }
  }

  /** The length field of src/fugue.c: most significant byte first. */
  lemma {:induction false} Enc64beAt(v: nat, i: nat)
    requires v < WORD64 && i < 8
    ensures FugueStream.Enc64be(v)[i] as nat == ByteOf(v, 7 - i)
  {
    hide FugueStream.ByteOf, Shifted;
    ShiftedIs(v);
    OctetIs(Shifted(v, 7 - i));
  }

  lemma {:induction false} OctetIs(x: nat)
    ensures FugueStream.ByteOf(x) as nat == x % 256
  {
    ByteBack(x % 256);
  }

  lemma {:induction false} ShiftedIs(v: nat)
    ensures Shifted(v, 0) == v && Shifted(v, 1) == v / 0x100 && Shifted(v, 2) == v / 0x1_0000
    ensures Shifted(v, 3) == v / 0x100_0000 && Shifted(v, 4) == v / 0x1_0000_0000
    ensures Shifted(v, 5) == v / 0x100_0000_0000 && Shifted(v, 6) == v / 0x1_0000_0000_0000
    ensures Shifted(v, 7) == v / 0x100_0000_0000_0000
  {
    PowersOf256();
  }

  lemma {:induction false} PowersOf256()
    ensures Pow(256, 0) == 1 && Pow(256, 1) == 0x100 && Pow(256, 2) == 0x1_0000 && Pow(256, 3) == 0x100_0000
    ensures Pow(256, 4) == 0x1_0000_0000 && Pow(256, 5) == 0x100_0000_0000
    ensures Pow(256, 6) == 0x1_0000_0000_0000 && Pow(256, 7) == 0x100_0000_0000_0000
  {
    assert Pow(256, 3) == 256 * Pow(256, 2);
    assert Pow(256, 4) == 256 * Pow(256, 3);
    assert Pow(256, 5) == 256 * Pow(256, 4);
    assert Pow(256, 6) == 256 * Pow(256, 5);
    assert Pow(256, 7) == 256 * Pow(256, 6);
  }

  /** The numbers copied into the input of LYRA2: least significant byte first. */
  lemma {:induction false} LittleEndianAt(v: nat, n: nat, i: nat)
    requires i < n
    ensures Lyra2Input.LittleEndian(v, n)[i] == ByteOf(v, i)
  {
    hide ByteOf;
    if i == 0 {
      FirstByte(v);
    } else {
      LittleEndianAt(v / 256, n - 1, i - 1);
      NextByte(v, i - 1);
    }
  }
}
