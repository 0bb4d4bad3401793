/** The codes of known strings, which fix the register's start, its end and its polynomial. */
module CrcVectors {
  import opened Octets
  import opened Crc32c
  import opened CrcKernel

  const FULL: bv32 := 0xFFFF_FFFF

  lemma ByteOfOnes()
    ensures SameBits(0xFF, 0xFFFF_FFFF, 8) && SameBits(0xFF, 0x00FF_FFFF, 8)
    ensures SameBits(0xFF, 0x0000_FFFF, 8) && SameBits(0xFF, 0x0000_00FF, 8)
  {
    assert SameBits(0xF, 0x0FFF_FFFF, 4) && SameBits(0xF, 0x000F_FFFF, 4) && SameBits(0xF, 0xFFF, 4) && SameBits(0xF, 0xF, 4);
  }

  lemma OnesPacked()
    ensures Unpack(FULL, 32) == ByteBits(0xFF) + (ByteBits(0xFF) + (ByteBits(0xFF) + ByteBits(0xFF)))
  {
    ByteOfOnes();
    hide SameBits, Unpack, Bits;
    BytesPrepended(0xFF, 0xFFFF_FFFF, 24);
    BytesPrepended(0xFF, 0x00FF_FFFF, 16);
    BytesPrepended(0xFF, 0x0000_FFFF, 8);
    NumberUnpacked(0xFF, 0x0000_00FF, 8);
    assert 0xFFFF_FFFF as bv32 >> 8 == 0x00FF_FFFF && 0x00FF_FFFF as bv32 >> 8 == 0xFFFF && 0xFFFF as bv32 >> 8 == 0xFF;
  }

  lemma {:induction false} OnesOfNumber(n: nat)
    ensures Bits(Pow2(n) - 1, n) == Repeat(true, n)
    decreases n
  {
    if n > 0 {
      assert (Pow2(n) - 1) / 2 == Pow2(n - 1) - 1 && (Pow2(n) - 1) % 2 == 1;
      OnesOfNumber(n - 1);
    }
  }

  lemma AllSet(a: seq<bool>, b: seq<bool>, c: seq<bool>, d: seq<bool>)
    requires a == b == c == d == Repeat(true, 8)
    ensures a + (b + (c + d)) == Repeat(true, 32)
  {
    var w := a + (b + (c + d));
    assert forall i :: 0 <= i < 32 ==> w[i];
  }

  lemma OnesUnpacked()
    ensures ONES == Unpack(FULL, 32)
  {
    OnesPacked();
    assert Pow2(8) == 256;
    OnesOfNumber(8);
    hide Bits, Unpack, Pow2, Repeat;
    var b := ByteBits(0xFF);
    AllSet(b, b, b, b);
  }

  // ----- feeding bytes

  lemma {:induction false} UnpackZero(n: nat)
    ensures Unpack(0, n) == Repeat(false, n)
    decreases n
  {
    if n > 0 {
      UnpackZero(n - 1);
    }
  }

  lemma PadOfByte(b: Byte, y: bv32)
    requires SameBits(b, y, 8) && y >> 8 == 0
    ensures Pad(ByteBits(b)) == Unpack(y, 32)
  {
    hide SameBits, Unpack, Bits;
    BytesPrepended(b, y, 24);
    UnpackZero(24);
  }

  /** A byte is fed in eight turns. */
  lemma FeedPacked(x: bv32, b: Byte, y: bv32)
    requires SameBits(b, y, 8) && y >> 8 == 0
    ensures Feed(Unpack(x, 32), b) == Unpack(Turns(Sum(x, y), 8), 32)
  {
    hide SameBits, Unpack, Bits, Turns, Sum, Shifts;
    PadOfByte(b, y);
    UnpackSum(x, y, 32);
    TurnsUnpacked(Sum(x, y), 8);
  }

  lemma EightTurns(x: bv32)
    ensures Turns(x, 8) == Turn(Turn(Turn(Turn(Turn(Turn(Turn(Turn(x))))))))
  {
    hide Turn;
    assert Turns(x, 8) == Turns(Turn(Turn(Turn(Turn(x)))), 4);
  }

  lemma FedTo(x: bv32, b: Byte, y: bv32, z: bv32)
    requires SameBits(b, y, 8) && y >> 8 == 0
    requires Turn(Turn(Turn(Turn(Turn(Turn(Turn(Turn(x ^ y)))))))) == z
    ensures Feed(Unpack(x, 32), b) == Unpack(z, 32)
  {
    FeedPacked(x, b, y);
    EightTurns(x ^ y);
    hide SameBits, Unpack, Turns, Turn, Feed;
  }

  lemma RegisterOne(r: Word, b: Byte, rest: Octets)
    ensures Register(r, [b] + rest) == Register(Feed(r, b), rest)
  {
    hide Feed;
    assert ([b] + rest)[1..] == rest;
  }

  lemma RegisterDone(r: Word)
    ensures Register(r, []) == r
  {
  }

  // ----- the vectors

  lemma CrcOfNothing()
    ensures Crc([]) == Repeat(false, 32)
  {
    var z := Crc([]);
    assert forall i :: 0 <= i < 32 ==> !z[i];
  }

  lemma ZeroFed()
    ensures Feed(ONES, 0) == Unpack(0xAD82_ACAE, 32)
  {
    OnesUnpacked();
    assert SameBits(0, 0, 8);
    assert Turn(Turn(Turn(Turn(Turn(Turn(Turn(Turn(FULL ^ 0)))))))) == 0xAD82_ACAE;
    hide SameBits, Unpack, Turn, Feed;
    FedTo(FULL, 0, 0, 0xAD82_ACAE);
  }

  lemma FourBytes(a: seq<bool>, b: seq<bool>, c: seq<bool>, d: seq<bool>)
    requires |a| == |b| == |c| == |d| == 8
    ensures var w := a + (b + (c + d)); w[0..8] == a && w[8..16] == b && w[16..24] == c && w[24..32] == d
  {
  }

  /** A word and what is left of it after one, two and three bytes. */
  predicate Shifted(x: bv32, y: bv32, z: bv32, w: bv32) {
    Down(x, y) && Down(y, z) && Down(z, w)
  }

  predicate Down(x: bv32, y: bv32) {
    y == x >> 8
  }

  lemma ByteInFront(b: Byte, x: bv32, y: bv32, n: nat)
    requires SameBits(b, x, 8) && Down(x, y)
    ensures Unpack(x, 8 + n) == ByteBits(b) + Unpack(y, n)
  {
    hide SameBits, Unpack, Bits;
    BytesPrepended(b, x, n);
  }

  lemma PackedParts(x: bv32, y: bv32, z: bv32, w: bv32, a: Byte, b: Byte, c: Byte, d: Byte)
    requires Shifted(x, y, z, w)
    requires SameBits(a, x, 8) && SameBits(b, y, 8) && SameBits(c, z, 8) && SameBits(d, w, 8)
    ensures Unpack(x, 32) == ByteBits(a) + (ByteBits(b) + (ByteBits(c) + ByteBits(d)))
  {
    hide SameBits, Unpack, Bits, Down;
    ByteInFront(a, x, y, 24);
    ByteInFront(b, y, z, 16);
    ByteInFront(c, z, w, 8);
    NumberUnpacked(d, w, 8);
  }

  /** The bytes of a packed word, most significant first. */
  lemma PackedBytes(x: bv32, y: bv32, z: bv32, w: bv32, a: Byte, b: Byte, c: Byte, d: Byte)
    requires Shifted(x, y, z, w)
    requires SameBits(a, x, 8) && SameBits(b, y, 8) && SameBits(c, z, 8) && SameBits(d, w, 8)
    ensures WordBytes(Unpack(x, 32)) == [d, c, b, a]
  {
    hide SameBits, Unpack, BitsByte, ByteBits, Shifted;
    PackedParts(x, y, z, w, a, b, c, d);
    FourBytes(ByteBits(a), ByteBits(b), ByteBits(c), ByteBits(d));
    ByteOfBits(a);
    ByteOfBits(b);
    ByteOfBits(c);
    ByteOfBits(d);
  }

  lemma Inverted(z: bv32)
    ensures Xor(Unpack(z, 32), ONES) == Unpack(z ^ FULL, 32)
  {
    OnesUnpacked();
    UnpackSum(z, FULL, 32);
    hide Unpack;
  }

  lemma ZeroBytes()
    ensures SameBits(0x51, 0x527D_5351, 8) && SameBits(0x53, 0x52_7D53, 8)
    ensures SameBits(0x7D, 0x527D, 8) && SameBits(0x52, 0x52, 8)
    ensures Shifted(0x527D_5351, 0x52_7D53, 0x527D, 0x52)
  {
    assert SameBits(0x5, 0x527_D535, 4) && SameBits(0x5, 0x5_27D5, 4) && SameBits(0x7, 0x527, 4) && SameBits(0x5, 0x5, 4);
  }

  /** The empty string has the code zero, a zero byte has another, and a zero byte in front always shows. */
  lemma ZerosAreSeen(data: Octets)
    ensures CrcBytes([]) == [0, 0, 0, 0]
    ensures CrcBytes([0]) == [0x52, 0x7D, 0x53, 0x51]
    ensures CrcBytes([0] + data) != CrcBytes(data)
  {
    hide Feed, Turn, Unpack, SameBits, BitsByte;
    CrcOfNothing();
    ZeroWordBytes();
    ZeroFed();
    RegisterOne(ONES, 0, []);
    assert [0] + [] == [0];
    RegisterDone(Feed(ONES, 0));
    Inverted(0xAD82_ACAE);
    ZeroBytes();
    PackedBytes(0x527D_5351, 0x52_7D53, 0x527D, 0x52, 0x51, 0x53, 0x7D, 0x52);
    ZeroShows(data);
  }

  lemma ZeroWordBytes()
    ensures WordBytes(Repeat(false, 32)) == [0, 0, 0, 0]
  {
    UnpackZero(32);
    assert SameBits(0, 0, 8);
    assert Shifted(0, 0, 0, 0);
    hide SameBits, Unpack, BitsByte, Shifted;
    PackedBytes(0, 0, 0, 0, 0, 0, 0, 0);
  }

  lemma ZeroMoves()
    ensures Unpack(0xAD82_ACAE, 32) != Unpack(FULL, 32)
  {
    assert !Odd(0xAD82_ACAE) && Odd(FULL);
    hide Odd, Half;
    assert Unpack(0xAD82_ACAE, 32)[0] != Unpack(FULL, 32)[0];
  }

  lemma ZeroShows(data: Octets)
    ensures CrcBytes([0] + data) != CrcBytes(data)
  {
    hide Feed, Turn, Unpack, WordBytes, Register;
    ZeroFed();
    OnesUnpacked();
    RegisterOne(ONES, 0, data);
    if CrcBytes([0] + data) == CrcBytes(data) {
      WordBytesInjective(Crc([0] + data), Crc(data));
      XorCancels(Register(ONES, [0] + data), Register(ONES, data), ONES);
      StateInjective(Feed(ONES, 0), ONES, data);
      ZeroMoves();
    }
  }

  // ----- the check value

  lemma DigitBits()
    ensures SameBits(0x31, 0x31, 8) && SameBits(0x32, 0x32, 8) && SameBits(0x33, 0x33, 8)
    ensures SameBits(0x34, 0x34, 8) && SameBits(0x35, 0x35, 8) && SameBits(0x36, 0x36, 8)
    ensures SameBits(0x37, 0x37, 8) && SameBits(0x38, 0x38, 8) && SameBits(0x39, 0x39, 8)
  {
    assert SameBits(0x3, 0x3, 4);
  }

  lemma Fed1()
    ensures Feed(Unpack(0xFFFF_FFFF, 32), 0x31) == Unpack(0x6F0A_661C, 32)
  {
    DigitBits();
    assert Turn(Turn(Turn(Turn(Turn(Turn(Turn(Turn(0xFFFF_FFFF ^ 0x31)))))))) == 0x6F0A_661C;
    hide SameBits, Unpack, Turn, Feed;
    FedTo(0xFFFF_FFFF, 0x31, 0x31, 0x6F0A_661C);
  }

  lemma Fed2()
    ensures Feed(Unpack(0x6F0A_661C, 32), 0x32) == Unpack(0x8CAA_3B9F, 32)
  {
    DigitBits();
    assert Turn(Turn(Turn(Turn(Turn(Turn(Turn(Turn(0x6F0A_661C ^ 0x32)))))))) == 0x8CAA_3B9F;
    hide SameBits, Unpack, Turn, Feed;
    FedTo(0x6F0A_661C, 0x32, 0x32, 0x8CAA_3B9F);
  }

  lemma Fed3()
    ensures Feed(Unpack(0x8CAA_3B9F, 32), 0x33) == Unpack(0xEF84_D04D, 32)
  {
    DigitBits();
    assert Turn(Turn(Turn(Turn(Turn(Turn(Turn(Turn(0x8CAA_3B9F ^ 0x33)))))))) == 0xEF84_D04D;
    hide SameBits, Unpack, Turn, Feed;
    FedTo(0x8CAA_3B9F, 0x33, 0x33, 0xEF84_D04D);
  }

  lemma Fed4()
    ensures Feed(Unpack(0xEF84_D04D, 32), 0x34) == Unpack(0x09C5_0B11, 32)
  {
    DigitBits();
    assert Turn(Turn(Turn(Turn(Turn(Turn(Turn(Turn(0xEF84_D04D ^ 0x34)))))))) == 0x09C5_0B11;
    hide SameBits, Unpack, Turn, Feed;
    FedTo(0xEF84_D04D, 0x34, 0x34, 0x09C5_0B11);
  }

  lemma Fed5()
    ensures Feed(Unpack(0x09C5_0B11, 32), 0x35) == Unpack(0xE72E_DCCA, 32)
  {
    DigitBits();
    assert Turn(Turn(Turn(Turn(Turn(Turn(Turn(Turn(0x09C5_0B11 ^ 0x35)))))))) == 0xE72E_DCCA;
    hide SameBits, Unpack, Turn, Feed;
    FedTo(0x09C5_0B11, 0x35, 0x35, 0xE72E_DCCA);
  }

  lemma Fed6()
    ensures Feed(Unpack(0xE72E_DCCA, 32), 0x36) == Unpack(0xBECA_8E79, 32)
  {
    DigitBits();
    assert Turn(Turn(Turn(Turn(Turn(Turn(Turn(Turn(0xE72E_DCCA ^ 0x36)))))))) == 0xBECA_8E79;
    hide SameBits, Unpack, Turn, Feed;
    FedTo(0xE72E_DCCA, 0x36, 0x36, 0xBECA_8E79);
  }

  lemma Fed7()
    ensures Feed(Unpack(0xBECA_8E79, 32), 0x37) == Unpack(0xEDBD_6815, 32)
  {
    DigitBits();
    assert Turn(Turn(Turn(Turn(Turn(Turn(Turn(Turn(0xBECA_8E79 ^ 0x37)))))))) == 0xEDBD_6815;
    hide SameBits, Unpack, Turn, Feed;
    FedTo(0xBECA_8E79, 0x37, 0x37, 0xEDBD_6815);
  }

  lemma Fed8()
    ensures Feed(Unpack(0xEDBD_6815, 32), 0x38) == Unpack(0x9F78_7F65, 32)
  {
    DigitBits();
    assert Turn(Turn(Turn(Turn(Turn(Turn(Turn(Turn(0xEDBD_6815 ^ 0x38)))))))) == 0x9F78_7F65;
    hide SameBits, Unpack, Turn, Feed;
    FedTo(0xEDBD_6815, 0x38, 0x38, 0x9F78_7F65);
  }

  lemma Fed9()
    ensures Feed(Unpack(0x9F78_7F65, 32), 0x39) == Unpack(0x1CF9_6D7C, 32)
  {
    DigitBits();
    assert Turn(Turn(Turn(Turn(Turn(Turn(Turn(Turn(0x9F78_7F65 ^ 0x39)))))))) == 0x1CF9_6D7C;
    hide SameBits, Unpack, Turn, Feed;
    FedTo(0x9F78_7F65, 0x39, 0x39, 0x1CF9_6D7C);
  }

  function CheckString(): Octets {
    [0x31] + ([0x32] + ([0x33] + ([0x34] + ([0x35] + ([0x36] + ([0x37] + ([0x38] + ([0x39] + []))))))))
  }

  lemma Digits1(rest: Octets)
    ensures Register(ONES, [0x31] + ([0x32] + ([0x33] + rest))) == Register(Unpack(0xEF84_D04D, 32), rest)
  {
    hide Feed, Turn, Unpack, Register;
    OnesUnpacked();
    Fed1();
    Fed2();
    Fed3();
    RegisterOne(ONES, 0x31, [0x32] + ([0x33] + rest));
    RegisterOne(Unpack(0x6F0A_661C, 32), 0x32, [0x33] + rest);
    RegisterOne(Unpack(0x8CAA_3B9F, 32), 0x33, rest);
  }

  lemma Digits4(rest: Octets)
    ensures Register(Unpack(0xEF84_D04D, 32), [0x34] + ([0x35] + ([0x36] + rest))) == Register(Unpack(0xBECA_8E79, 32), rest)
  {
    hide Feed, Turn, Unpack, Register;
    Fed4();
    Fed5();
    Fed6();
    RegisterOne(Unpack(0xEF84_D04D, 32), 0x34, [0x35] + ([0x36] + rest));
    RegisterOne(Unpack(0x09C5_0B11, 32), 0x35, [0x36] + rest);
    RegisterOne(Unpack(0xE72E_DCCA, 32), 0x36, rest);
  }

  lemma Digits7(rest: Octets)
    ensures Register(Unpack(0xBECA_8E79, 32), [0x37] + ([0x38] + ([0x39] + rest))) == Register(Unpack(0x1CF9_6D7C, 32), rest)
  {
    hide Feed, Turn, Unpack, Register;
    Fed7();
    Fed8();
    Fed9();
    RegisterOne(Unpack(0xBECA_8E79, 32), 0x37, [0x38] + ([0x39] + rest));
    RegisterOne(Unpack(0xEDBD_6815, 32), 0x38, [0x39] + rest);
    RegisterOne(Unpack(0x9F78_7F65, 32), 0x39, rest);
  }

  lemma CheckBytes()
    ensures SameBits(0x83, 0xE306_9283, 8) && SameBits(0x92, 0xE3_0692, 8)
    ensures SameBits(0x06, 0xE306, 8) && SameBits(0xE3, 0xE3, 8)
    ensures Shifted(0xE306_9283, 0xE3_0692, 0xE306, 0xE3)
  {
    assert SameBits(0x8, 0xE30_6928, 4) && SameBits(0x9, 0xE_3069, 4) && SameBits(0x0, 0xE30, 4) && SameBits(0xE, 0xE, 4);
  }

  lemma CheckRegister()
    ensures Register(ONES, CheckString()) == Unpack(0x1CF9_6D7C, 32)
  {
    hide Feed, Unpack, Register;
    Digits1([0x34] + ([0x35] + ([0x36] + ([0x37] + ([0x38] + ([0x39] + []))))));
    Digits4([0x37] + ([0x38] + ([0x39] + [])));
    Digits7([]);
    RegisterDone(Unpack(0x1CF9_6D7C, 32));
  }

  /** The check value of the digits 1 to 9. */
  lemma CheckValue()
    ensures CheckString() == [0x31, 0x32, 0x33, 0x34, 0x35, 0x36, 0x37, 0x38, 0x39]
    ensures CrcBytes([0x31, 0x32, 0x33, 0x34, 0x35, 0x36, 0x37, 0x38, 0x39]) == [0xE3, 0x06, 0x92, 0x83]
  {
    CheckRegister();
    hide Unpack, SameBits, WordBytes, Register, Shifted, Xor;
    Inverted(0x1CF9_6D7C);
    assert 0x1CF9_6D7C ^ FULL == 0xE306_9283;
    CheckBytes();
    PackedBytes(0xE306_9283, 0xE3_0692, 0xE306, 0xE3, 0x83, 0x92, 0x06, 0xE3);
  }
}
