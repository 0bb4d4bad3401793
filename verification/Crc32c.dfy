/**
 CRC-32C, the reflected Castagnoli code (section 12.1 of RFC 3720), bit by bit. A word
 is its thirty-two bits, least significant first.
 */
module Crc32c {
  import opened Octets

  function Repeat(bit: bool, n: nat): (bits: seq<bool>)
    ensures |bits| == n
    ensures forall i :: 0 <= i < n ==> bits[i] == bit
  {
    if n == 0 then [] else [bit] + Repeat(bit, n - 1)
  }

  type Word = w: seq<bool> | |w| == 32 witness Repeat(false, 32)

  const ONES: Word := Repeat(true, 32)

  /** The low n bits of a number, least significant first. */
  function Bits(v: nat, n: nat): (bits: seq<bool>)
    ensures |bits| == n
    decreases n
  {
    if n == 0 then [] else [v % 2 == 1] + Bits(v / 2, n - 1)
  }

  function Value(bits: seq<bool>): nat {
    if bits == [] then 0 else (if bits[0] then 1 else 0) + 2 * Value(bits[1..])
  }

  lemma {:induction false} ValueOfBits(v: nat, n: nat)
    requires v < Pow2(n)
    ensures Value(Bits(v, n)) == v
    decreases n
  {
    if n > 0 {
      ValueOfBits(v / 2, n - 1);
      assert Bits(v, n)[1..] == Bits(v / 2, n - 1);
    }
  }

  lemma {:induction false} BitsOfValue(bits: seq<bool>)
    ensures Bits(Value(bits), |bits|) == bits
    ensures Value(bits) < Pow2(|bits|)
  {
    if bits != [] {
      BitsOfValue(bits[1..]);
      assert Value(bits) / 2 == Value(bits[1..]);
      assert bits == [bits[0]] + bits[1..];
    }
  }

  function ByteBits(b: Byte): (bits: seq<bool>)
    ensures |bits| == 8
  {
    Bits(b, 8)
  }

  /** 0x82F63B78. */
  const POLYNOMIAL: Word := ByteBits(0x78) + ByteBits(0x3B) + ByteBits(0xF6) + ByteBits(0x82)

  function BitsByte(bits: seq<bool>): Byte
    requires |bits| == 8
  {
    BitsOfValue(bits);
    assert Pow2(8) == 256;
    Value(bits)
  }

  lemma ByteOfBits(b: Byte)
    ensures BitsByte(ByteBits(b)) == b
  {
    assert Pow2(8) == 256;
    ValueOfBits(b, 8);
  }

  lemma BitsOfByte(bits: seq<bool>)
    requires |bits| == 8
    ensures ByteBits(BitsByte(bits)) == bits
  {
    BitsOfValue(bits);
  }

  /** The four bytes of a word, most significant first. */
  function WordBytes(w: Word): (b: Octets)
    ensures |b| == 4
  {
    [BitsByte(w[24..32]), BitsByte(w[16..24]), BitsByte(w[8..16]), BitsByte(w[0..8])]
  }

  function XorBits(a: seq<bool>, b: seq<bool>): (c: seq<bool>)
    requires |a| == |b|
    ensures |c| == |a|
    ensures forall i :: 0 <= i < |a| ==> c[i] == (a[i] != b[i])
  {
    if a == [] then [] else [a[0] != b[0]] + XorBits(a[1..], b[1..])
  }

  function Xor(a: Word, b: Word): Word {
    XorBits(a, b)
  }

  function Right(r: Word): Word {
    r[1..] + [false]
  }

  /** One turn of the register. */
  function Shift(r: Word): Word {
    if r[0] then Xor(Right(r), POLYNOMIAL) else Right(r)
  }

  function Shifts(r: Word, n: nat): Word
    decreases n
  {
    if n == 0 then r else Shifts(Shift(r), n - 1)
  }

  /** A bit string of at most a word, in the low bits of a word. */
  function Pad(bits: seq<bool>): Word
    requires |bits| <= 32
  {
    bits + Repeat(false, 32 - |bits|)
  }

  function Feed(r: Word, b: Byte): Word {
    Shifts(Xor(r, Pad(ByteBits(b))), 8)
  }

  function Register(r: Word, data: Octets): Word
    decreases |data|
  {
    if data == [] then r else Register(Feed(r, data[0]), data[1..])
  }

  function Crc(data: Octets): Word {
    Xor(Register(ONES, data), ONES)
  }

  function CrcBytes(data: Octets): (b: Octets)
    ensures |b| == 4
  {
    WordBytes(Crc(data))
  }

  lemma ShiftDefined(r: Word)
    ensures Shift(r) == if r[0] then Xor(Right(r), POLYNOMIAL) else Right(r)
  {
  }

  method Compute(data: Octets) returns (crc: Word)
    ensures crc == Crc(data)
  {
    hide Bits, Shift, XorBits, Pad, ByteBits, Repeat;
    crc := ONES;
    assert data[0..] == data;
    for i := 0 to |data|
      invariant Register(crc, data[i..]) == Register(ONES, data)
    {
      crc := Xor(crc, Pad(ByteBits(data[i])));
      ghost var start := crc;
      for k := 0 to 8
        invariant Shifts(crc, 8 - k) == Shifts(start, 8)
      {
        ghost var last := crc;
        crc := if crc[0] then Xor(Right(crc), POLYNOMIAL) else Right(crc);
        assert crc == Shift(last) by { ShiftDefined(last); }
      }
      assert data[i..][1..] == data[i + 1..];
    }
    crc := Xor(crc, ONES);
  }

  // ----- the register is a bijection of its state

  lemma XorCancels(a: Word, b: Word, c: Word)
    requires Xor(a, c) == Xor(b, c)
    ensures a == b
  {
    forall i | 0 <= i < 32 ensures a[i] == b[i] {
      assert Xor(a, c)[i] == Xor(b, c)[i];
    }
  }

  lemma ShiftInjective(a: Word, b: Word)
    requires Shift(a) == Shift(b)
    ensures a == b
  {
    PolynomialBits();
    assert Shift(a)[31] == a[0] && Shift(b)[31] == b[0];
    if a[0] {
      XorCancels(Right(a), Right(b), POLYNOMIAL);
    }
    assert Right(a) == Right(b);
    forall i | 0 <= i < 32 ensures a[i] == b[i] {
      if i > 0 {
        assert a[i] == Right(a)[i - 1] && b[i] == Right(b)[i - 1];
      }
    }
  }

  lemma {:induction false} ShiftsInjective(a: Word, b: Word, n: nat)
    requires Shifts(a, n) == Shifts(b, n)
    ensures a == b
    decreases n
  {
    if n > 0 {
      ShiftsInjective(Shift(a), Shift(b), n - 1);
      ShiftInjective(a, b);
    }
  }

  /** Different states stay different over equal data. */
  lemma {:induction false} StateInjective(a: Word, b: Word, data: Octets)
    requires Register(a, data) == Register(b, data)
    ensures a == b
    decreases |data|
  {
    hide Shifts, ByteBits;
    if data != [] {
      StateInjective(Feed(a, data[0]), Feed(b, data[0]), data[1..]);
      ShiftsInjective(Xor(a, Pad(ByteBits(data[0]))), Xor(b, Pad(ByteBits(data[0]))), 8);
      XorCancels(a, b, Pad(ByteBits(data[0])));
    }
  }

  lemma {:induction false} RegisterAppend(r: Word, a: Octets, b: Octets)
    ensures Register(r, a + b) == Register(Register(r, a), b)
    decreases |a|
  {
    hide Feed;
    if a == [] {
      assert a + b == b;
    } else {
      assert (a + b)[1..] == a[1..] + b;
      RegisterAppend(Feed(r, a[0]), a[1..], b);
    }
  }

  // ----- up to a word of data enters the register without loss

  lemma ShiftXorEven(a: Word, x: Word)
    requires !x[0]
    ensures Shift(Xor(a, x)) == Xor(Shift(a), Right(x))
  {
  }

  lemma {:induction false} ShiftsXorHigh(a: Word, x: Word, n: nat)
    requires n <= 32 && forall i :: 0 <= i < n ==> !x[i]
    ensures Shifts(Xor(a, x), n) == Xor(Shifts(a, n), x[n..] + Repeat(false, n))
    decreases n
  {
    hide Shift, Xor;
    if n == 0 {
      assert x[0..] + [] == x;
    } else {
      ShiftXorEven(a, x);
      ShiftsXorHigh(Shift(a), Right(x), n - 1);
      assert Right(x)[n - 1..] + Repeat(false, n - 1) == x[n..] + Repeat(false, n);
    }
  }

  lemma XorAssociates(a: Word, b: Word, c: Word)
    ensures Xor(Xor(a, b), c) == Xor(a, Xor(b, c))
  {
  }

  function BitsOf(data: Octets): (bits: seq<bool>)
    ensures |bits| == 8 * |data|
  {
    if data == [] then [] else ByteBits(data[0]) + BitsOf(data[1..])
  }

  lemma {:induction false} BitsInjective(a: Octets, b: Octets)
    requires |a| == |b| && BitsOf(a) == BitsOf(b)
    ensures a == b
  {
    hide ByteBits;
    if a != [] {
      assert ByteBits(a[0]) == BitsOf(a)[..8] == BitsOf(b)[..8] == ByteBits(b[0]);
      assert BitsOf(a[1..]) == BitsOf(a)[8..] == BitsOf(b)[8..] == BitsOf(b[1..]);
      ByteOfBits(a[0]);
      ByteOfBits(b[0]);
      BitsInjective(a[1..], b[1..]);
    }
  }

  lemma {:induction false} ShiftsAdd(r: Word, m: nat, n: nat)
    ensures Shifts(r, m + n) == Shifts(Shifts(r, m), n)
    decreases m
  {
    hide Shift;
    if m > 0 {
      ShiftsAdd(Shift(r), m - 1, n);
    }
  }

  lemma PadSplits(x: seq<bool>, y: seq<bool>)
    requires |x| == 8 && |y| <= 24
    ensures var high := Repeat(false, 8) + Pad(y)[..24];
      Pad(x + y) == Xor(Pad(x), high) && high[8..] + Repeat(false, 8) == Pad(y)
  {
    hide XorBits, Repeat;
    var high := Repeat(false, 8) + Pad(y)[..24];
    var whole, both := Pad(x + y), Xor(Pad(x), high);
    forall i | 0 <= i < 32 ensures whole[i] == both[i] {
      assert i < 8 ==> whole[i] == x[i] && !high[i];
      assert 8 <= i < 8 + |y| ==> whole[i] == y[i - 8] == high[i];
    }
  }

  /** At most four bytes enter the register as one word. */
  lemma {:induction false} RegisterOfWord(r: Word, data: Octets)
    requires |data| <= 4
    ensures Register(r, data) == Shifts(Xor(r, Pad(BitsOf(data))), 8 * |data|)
    decreases |data|
  {
    hide Shift, Xor, ByteBits;
    if data == [] {
      assert Xor(r, Pad([])) == r by { XorZero(r); }
    } else {
      var x, y := ByteBits(data[0]), BitsOf(data[1..]);
      var high := Repeat(false, 8) + Pad(y)[..24];
      PadSplits(x, y);
      XorAssociates(r, Pad(x), high);
      ShiftsXorHigh(Xor(r, Pad(x)), high, 8);
      ShiftsAdd(Xor(r, Pad(x + y)), 8, 8 * |data[1..]|);
      RegisterOfWord(Feed(r, data[0]), data[1..]);
    }
  }

  lemma XorZero(r: Word)
    ensures Xor(r, Pad([])) == r
  {
  }

  lemma XorCommutes(a: Word, b: Word)
    ensures Xor(a, b) == Xor(b, a)
  {
  }

  /** Two different short strings drive equal states apart. */
  lemma WindowInjective(r: Word, d: Octets, e: Octets)
    requires |d| == |e| <= 4 && Register(r, d) == Register(r, e)
    ensures d == e
  {
    hide Xor, Shifts, BitsOf;
    RegisterOfWord(r, d);
    RegisterOfWord(r, e);
    var x, y := Pad(BitsOf(d)), Pad(BitsOf(e));
    ShiftsInjective(Xor(r, x), Xor(r, y), 8 * |d|);
    XorCommutes(r, x);
    XorCommutes(r, y);
    XorCancels(x, y, r);
    assert BitsOf(d) == x[..8 * |d|] == y[..8 * |d|] == BitsOf(e);
    BitsInjective(d, e);
  }

  lemma BitsByteInjective(x: seq<bool>, y: seq<bool>)
    requires |x| == |y| == 8 && BitsByte(x) == BitsByte(y)
    ensures x == y
  {
    BitsOfByte(x);
    BitsOfByte(y);
  }

  lemma WordBytesInjective(a: Word, b: Word)
    requires WordBytes(a) == WordBytes(b)
    ensures a == b
  {
    hide BitsByte;
    assert WordBytes(a)[0] == WordBytes(b)[0] && WordBytes(a)[1] == WordBytes(b)[1]
        && WordBytes(a)[2] == WordBytes(b)[2] && WordBytes(a)[3] == WordBytes(b)[3];
    BitsByteInjective(a[0..8], b[0..8]);
    BitsByteInjective(a[8..16], b[8..16]);
    BitsByteInjective(a[16..24], b[16..24]);
    BitsByteInjective(a[24..32], b[24..32]);
    assert a == a[0..8] + a[8..16] + a[16..24] + a[24..32];
    assert b == b[0..8] + b[8..16] + b[16..24] + b[24..32];
  }

  /** Every change confined to four consecutive bytes changes the code. */
  lemma BurstChangesCrc(before: Octets, d: Octets, e: Octets, after: Octets)
    requires |d| == |e| <= 4 && d != e
    ensures CrcBytes(before + d + after) != CrcBytes(before + e + after)
  {
    hide Shifts, Xor, WordBytes, Register;
    var r := Register(ONES, before);
    RegisterAppend(ONES, before + d, after);
    RegisterAppend(ONES, before + e, after);
    RegisterAppend(ONES, before, d);
    RegisterAppend(ONES, before, e);
    if CrcBytes(before + d + after) == CrcBytes(before + e + after) {
      WordBytesInjective(Crc(before + d + after), Crc(before + e + after));
      XorCancels(Register(ONES, before + d + after), Register(ONES, before + e + after), ONES);
      StateInjective(Register(r, d), Register(r, e), after);
      WindowInjective(r, d, e);
    }
  }

  // ----- the register is linear

  lemma ShiftLinear(a: Word, b: Word)
    ensures Shift(Xor(a, b)) == Xor(Shift(a), Shift(b))
  {
    hide Repeat;
  }

  lemma {:induction false} ShiftsLinear(a: Word, b: Word, n: nat)
    ensures Shifts(Xor(a, b), n) == Xor(Shifts(a, n), Shifts(b, n))
    decreases n
  {
    hide Shift, Xor;
    if n > 0 {
      ShiftLinear(a, b);
      ShiftsLinear(Shift(a), Shift(b), n - 1);
    }
  }

  function BitOf(v: nat, i: nat): bool
    decreases i
  {
    if i == 0 then v % 2 == 1 else BitOf(v / 2, i - 1)
  }

  lemma {:induction false} BitAt(v: nat, n: nat, i: nat)
    requires i < n
    ensures Bits(v, n)[i] == BitOf(v, i)
    decreases i
  {
    if i > 0 {
      BitAt(v / 2, n - 1, i - 1);
    }
  }

  /** The bits of a byte, one by one. */
  lemma ByteBitsAt(b: Byte)
    ensures var s := ByteBits(b);
      && s[0] == BitOf(b, 0) && s[1] == BitOf(b, 1) && s[2] == BitOf(b, 2) && s[3] == BitOf(b, 3)
      && s[4] == BitOf(b, 4) && s[5] == BitOf(b, 5) && s[6] == BitOf(b, 6) && s[7] == BitOf(b, 7)
  {
    hide Bits, BitOf;
    forall i | 0 <= i < 8 ensures ByteBits(b)[i] == BitOf(b, i) {
      BitAt(b, 8, i);
    }
  }

  lemma PolynomialBits()
    ensures var p := POLYNOMIAL;
      && !p[0] && !p[1] && !p[2] && p[3] && p[4] && p[5] && p[6] && !p[7]
      && p[8] && p[9] && !p[10] && p[11] && p[12] && p[13] && !p[14] && !p[15]
      && p[31]
  {
    ByteBitsAt(0x78);
    ByteBitsAt(0x3B);
    ByteBitsAt(0x82);
    hide ByteBits;
  }
}
