/**
 What the code cannot see. The register is a machine word; a change of the last bytes of a
 string leaves the low bytes of its code alone when the word's turns leave them clear.
 */
module CrcKernel {
  import opened Octets
  import opened Crc32c

  // ----- machine words

  predicate Odd(x: bv32) {
    x & 1 == 1
  }

  function Half(x: bv32): bv32 {
    x >> 1
  }

  function Push(x: bv32, low: bool): bv32 {
    (x << 1) | (if low then 1 else 0)
  }

  function Sum(x: bv32, y: bv32): bv32 {
    x ^ y
  }

  /** No bit of the word is outside the mask. */
  predicate Inside(x: bv32, mask: bv32) {
    x & !mask == 0
  }

  predicate Clear(x: bv32, mask: bv32) {
    x & mask == 0
  }

  lemma SumParts(x: bv32, y: bv32)
    ensures Half(Sum(x, y)) == Sum(Half(x), Half(y))
    ensures Odd(Sum(x, y)) <==> Odd(x) != Odd(y)
  {
  }

  lemma PushParts(x: bv32, low: bool)
    requires Inside(x, 0x7FFF_FFFF)
    ensures Half(Push(x, low)) == x && (Odd(Push(x, low)) <==> low)
  {
  }

  lemma InsideHalf(x: bv32, mask: bv32)
    requires Inside(x, Push(mask, true))
    ensures Inside(Half(x), mask)
  {
  }

  lemma InsidePush(x: bv32, mask: bv32, low: bool)
    requires Inside(x, mask)
    ensures Inside(Push(x, low), Push(mask, true))
  {
    if low {
      assert ((x << 1) | 1) & !((mask << 1) | 1) == 0;
    } else {
      assert ((x << 1) | 0) & !((mask << 1) | 1) == 0;
    }
  }

  lemma InsideTrans(x: bv32, m: bv32, n: bv32)
    requires Inside(x, m) && Inside(m, n)
    ensures Inside(x, n)
  {
  }

  lemma InsideNothing(x: bv32)
    requires Inside(x, 0)
    ensures x == 0 && Half(x) == 0 && !Odd(x)
  {
  }

  lemma ClearParts(x: bv32, mask: bv32)
    ensures Clear(x, Push(mask, true)) <==> !Odd(x) && Clear(Half(x), mask)
  {
    if Clear(x, Push(mask, true)) {
      ClearDown(x, mask);
    }
    if !Odd(x) && Clear(Half(x), mask) {
      ClearUp(x, mask);
    }
  }

  lemma ClearDown(x: bv32, mask: bv32)
    requires Clear(x, Push(mask, true))
    ensures !Odd(x) && Clear(Half(x), mask)
  {
  }

  lemma ClearUp(x: bv32, mask: bv32)
    requires !Odd(x) && Clear(Half(x), mask)
    ensures Clear(x, Push(mask, true))
  {
  }

  lemma ClearZero(x: bv32)
    ensures Clear(x, 0) && Inside(0, x)
  {
  }

  /** The low n bits set. */
  function Mask(n: nat): bv32 {
    if n == 0 then 0 else Push(Mask(n - 1), true)
  }

  lemma Masks()
    ensures Mask(8) == 0xFF && Mask(16) == 0xFFFF && Mask(24) == 0xFF_FFFF && Mask(31) == 0x7FFF_FFFF
  {
    assert Mask(4) == 0xF;
    assert Mask(8) == 0xFF;
    assert Mask(12) == 0xFFF;
    assert Mask(16) == 0xFFFF;
    assert Mask(20) == 0xF_FFFF;
    assert Mask(24) == 0xFF_FFFF;
    assert Mask(28) == 0xFFF_FFFF;
  }

  lemma {:induction false} MaskGrows(m: nat, n: nat)
    requires m <= n
    ensures Inside(Mask(m), Mask(n))
  {
    hide Push, Inside;
    if m > 0 {
      MaskGrows(m - 1, n - 1);
      InsidePush(Mask(m - 1), Mask(n - 1), true);
    } else {
      ClearZero(Mask(n));
    }
  }

  // ----- words as bits

  function Unpack(x: bv32, n: nat): (bits: seq<bool>)
    ensures |bits| == n
    decreases n
  {
    if n == 0 then [] else [Odd(x)] + Unpack(Half(x), n - 1)
  }

  function Pack(bits: seq<bool>): bv32
    decreases |bits|
  {
    if bits == [] then 0 else Push(Pack(bits[1..]), bits[0])
  }

  lemma {:induction false} PackInside(bits: seq<bool>)
    ensures Inside(Pack(bits), Mask(|bits|))
    decreases |bits|
  {
    hide Push, Inside;
    if bits != [] {
      PackInside(bits[1..]);
      InsidePush(Pack(bits[1..]), Mask(|bits| - 1), bits[0]);
    } else {
      ClearZero(Mask(0));
    }
  }

  lemma {:induction false} UnpackPack(bits: seq<bool>)
    requires |bits| <= 32
    ensures Unpack(Pack(bits), |bits|) == bits
    decreases |bits|
  {
    hide Push, Inside, Mask, Odd, Half;
    if bits != [] {
      var rest := Pack(bits[1..]);
      PackInside(bits[1..]);
      MaskGrows(|bits| - 1, 31);
      Masks();
      InsideTrans(rest, Mask(|bits| - 1), Mask(31));
      PushParts(rest, bits[0]);
      UnpackPack(bits[1..]);
    }
  }

  lemma {:induction false} UnpackPads(x: bv32, n: nat, m: nat)
    requires Inside(x, Mask(n))
    ensures Unpack(x, n + m) == Unpack(x, n) + Repeat(false, m)
    decreases n + m
  {
    hide Push, Inside, Odd, Half;
    if n > 0 {
      InsideHalf(x, Mask(n - 1));
      UnpackPads(Half(x), n - 1, m);
    } else if m > 0 {
      InsideNothing(x);
      ClearZero(Mask(0));
      UnpackPads(Half(x), 0, m - 1);
    }
  }

  /** Every short bit string is the low bits of a machine word. */
  lemma PadPacked(bits: seq<bool>)
    requires |bits| <= 32
    ensures Pad(bits) == Unpack(Pack(bits), 32) && Inside(Pack(bits), Mask(|bits|))
  {
    hide Inside, Mask, Unpack, Pack, Repeat;
    var x, n := Pack(bits), |bits|;
    PackInside(bits);
    UnpackPack(bits);
    UnpackPads(x, n, 32 - n);
    assert n + (32 - n) == 32;
  }

  lemma {:induction false} UnpackSum(x: bv32, y: bv32, n: nat)
    ensures Unpack(Sum(x, y), n) == XorBits(Unpack(x, n), Unpack(y, n))
    decreases n
  {
    hide Sum, Odd, Half;
    if n > 0 {
      SumParts(x, y);
      UnpackSum(Half(x), Half(y), n - 1);
      var a, b := Unpack(Half(x), n - 1), Unpack(Half(y), n - 1);
      assert Unpack(x, n)[1..] == a && Unpack(y, n)[1..] == b;
    }
  }

  predicate NoneSet(bits: seq<bool>) {
    forall i :: 0 <= i < |bits| ==> !bits[i]
  }

  lemma NoneSetCons(b: bool, bits: seq<bool>)
    ensures NoneSet([b] + bits) <==> !b && NoneSet(bits)
  {
    if NoneSet([b] + bits) {
      assert !([b] + bits)[0];
      forall i | 0 <= i < |bits| ensures !bits[i] {
        assert !([b] + bits)[i + 1];
      }
    }
  }

  lemma {:induction false} ClearBits(x: bv32, n: nat)
    ensures Clear(x, Mask(n)) <==> NoneSet(Unpack(x, n))
    decreases n
  {
    hide Odd, Half, Clear, Push, NoneSet;
    if n > 0 {
      ClearBits(Half(x), n - 1);
      ClearParts(x, Mask(n - 1));
      NoneSetCons(Odd(x), Unpack(Half(x), n - 1));
    } else {
      ClearZero(x);
      NothingSet();
    }
  }

  lemma NothingSet()
    ensures NoneSet([])
  {
  }

  lemma {:induction false} UnpackPrefix(x: bv32, n: nat, m: nat)
    requires n <= m
    ensures Unpack(x, m)[..n] == Unpack(x, n)
    decreases n
  {
    hide Odd, Half;
    if n > 0 {
      UnpackPrefix(Half(x), n - 1, m - 1);
    }
  }

  // ----- the polynomial

  const POLY: bv32 := 0x82F6_3B78

  function Halves(x: bv32, m: nat): bv32
    decreases m
  {
    if m == 0 then x else Halves(Half(x), m - 1)
  }

  lemma {:induction false} UnpackAdd(x: bv32, m: nat, n: nat)
    ensures Unpack(x, m + n) == Unpack(x, m) + Unpack(Halves(x, m), n)
    decreases m
  {
    hide Odd, Half;
    if m > 0 {
      UnpackAdd(Half(x), m - 1, n);
    }
  }

  lemma EightHalves(x: bv32)
    ensures Halves(x, 8) == x >> 8
  {
    assert Halves(Half(Half(Half(Half(x)))), 4) == x >> 8;
  }

  predicate SameBits(v: nat, x: bv32, n: nat) {
    n == 0 || ((v % 2 == 1) == Odd(x) && SameBits(v / 2, Half(x), n - 1))
  }

  lemma {:induction false} NumberUnpacked(v: nat, x: bv32, n: nat)
    requires SameBits(v, x, n)
    ensures Bits(v, n) == Unpack(x, n)
    decreases n
  {
    hide Odd, Half;
    if n > 0 {
      NumberUnpacked(v / 2, Half(x), n - 1);
    }
  }

  lemma BytesPrepended(b: Byte, x: bv32, n: nat)
    requires SameBits(b, x, 8)
    ensures Unpack(x, 8 + n) == ByteBits(b) + Unpack(x >> 8, n)
  {
    hide SameBits, Unpack, Bits, Halves;
    NumberUnpacked(b, x, 8);
    UnpackAdd(x, 8, n);
    EightHalves(x);
  }

  lemma PolynomialPacked()
    ensures POLYNOMIAL == Unpack(0x82F6_3B78, 32)
  {
    PolynomialBytes();
    hide SameBits, Unpack, Bits;
    BytesPrepended(0x78, 0x82F6_3B78, 24);
    BytesPrepended(0x3B, 0x0082_F63B, 16);
    BytesPrepended(0xF6, 0x0000_82F6, 8);
    NumberUnpacked(0x82, 0x0000_0082, 8);
    assert 0x82F6_3B78 as bv32 >> 8 == 0x0082_F63B && 0x0082_F63B as bv32 >> 8 == 0x82F6 && 0x82F6 as bv32 >> 8 == 0x82;
  }

  lemma PolynomialBytes()
    ensures SameBits(0x78, 0x82F6_3B78, 8) && SameBits(0x3B, 0x0082_F63B, 8)
    ensures SameBits(0xF6, 0x0000_82F6, 8) && SameBits(0x82, 0x0000_0082, 8)
  {
    assert SameBits(0x7, 0x82F_63B7, 4) && SameBits(0x3, 0x8_2F63, 4) && SameBits(0xF, 0x82F, 4) && SameBits(0x8, 0x8, 4);
  }

  // ----- turns

  function Turn(x: bv32): bv32 {
    if Odd(x) then Sum(Half(x), POLY) else Half(x)
  }

  function Turns(x: bv32, n: nat): bv32
    decreases n
  {
    if n == 0 then x else Turns(Turn(x), n - 1)
  }

  lemma HalfInside(x: bv32)
    ensures Inside(Half(x), 0x7FFF_FFFF)
  {
  }

  lemma HalfUnpacked(x: bv32)
    ensures Unpack(x, 32)[0] == Odd(x) && Right(Unpack(x, 32)) == Unpack(Half(x), 32)
  {
    HalfInside(x);
    Masks();
    hide Odd, Half, Inside, Mask;
    UnpackPads(Half(x), 31, 1);
    assert Repeat(false, 1) == [false];
    assert Unpack(x, 32) == [Odd(x)] + Unpack(Half(x), 31);
  }

  lemma TurnUnpacked(x: bv32)
    ensures Shift(Unpack(x, 32)) == Unpack(Turn(x), 32)
  {
    hide Odd, Half, Sum, Unpack;
    HalfUnpacked(x);
    PolynomialPacked();
    UnpackSum(Half(x), POLY, 32);
  }

  lemma {:induction false} TurnsUnpacked(x: bv32, n: nat)
    ensures Shifts(Unpack(x, 32), n) == Unpack(Turns(x, n), 32)
    decreases n
  {
    hide Turn, Unpack, Shift;
    if n > 0 {
      TurnUnpacked(x);
      TurnsUnpacked(Turn(x), n - 1);
    }
  }

  // ----- turning back

  function Back(y: bv32): bv32 {
    if y & 0x8000_0000 != 0 then (y << 1) ^ 0x05EC_76F1 else y << 1
  }

  function Backs(y: bv32, n: nat): bv32
    decreases n
  {
    if n == 0 then y else Back(Backs(y, n - 1))
  }

  predicate IsTurn(x: bv32, y: bv32) {
    y == if x & 1 == 1 then (x >> 1) ^ 0x82F6_3B78 else x >> 1
  }

  predicate IsBack(y: bv32, x: bv32) {
    x == if y & 0x8000_0000 != 0 then (y << 1) ^ 0x05EC_76F1 else y << 1
  }

  lemma TurnIs(x: bv32)
    ensures IsTurn(x, Turn(x))
  {
  }

  lemma BackIs(y: bv32)
    ensures IsBack(y, Back(y))
  {
  }

  lemma OddBack(x: bv32, y: bv32)
    requires x & 1 == 1 && y == (x >> 1) ^ 0x82F6_3B78
    ensures y & 0x8000_0000 != 0 && (y << 1) ^ 0x05EC_76F1 == x
  {
  }

  lemma EvenBack(x: bv32, y: bv32)
    requires x & 1 != 1 && y == x >> 1
    ensures y & 0x8000_0000 == 0 && y << 1 == x
  {
  }

  lemma BackUndoes(x: bv32, y: bv32, z: bv32)
    requires IsTurn(x, y) && IsBack(y, z)
    ensures x == z
  {
    if x & 1 == 1 {
      OddBack(x, y);
    } else {
      EvenBack(x, y);
    }
  }

  lemma BackOfTurn(x: bv32)
    ensures Back(Turn(x)) == x
  {
    TurnIs(x);
    BackIs(Turn(x));
    hide Turn, Back, IsTurn, IsBack;
    BackUndoes(x, Turn(x), Back(Turn(x)));
  }

  lemma {:induction false} BacksOfTurns(x: bv32, n: nat)
    ensures Backs(Turns(x, n), n) == x
    decreases n
  {
    hide Turn, Back;
    if n > 0 {
      BacksOfTurns(Turn(x), n - 1);
      BackOfTurn(x);
    }
  }

  function Back8(y: bv32): bv32 {
    Back(Back(Back(Back(Back(Back(Back(Back(y))))))))
  }

  lemma {:induction false} BacksAdd(y: bv32, m: nat, n: nat)
    ensures Backs(y, m + n) == Backs(Backs(y, m), n)
    decreases n
  {
    hide Back;
    if n > 0 {
      BacksAdd(y, m, n - 1);
    }
  }

  lemma BacksEight(y: bv32)
    ensures Backs(y, 8) == Back8(y)
  {
    hide Back;
    assert Backs(y, 2) == Back(Back(y));
    assert Backs(y, 4) == Back(Back(Back(Back(y))));
    assert Backs(y, 6) == Back(Back(Back(Back(Back(Back(y))))));
  }

  /** No word of three bytes is turned into one whose low three bytes are clear. */
  lemma ThreeBytesShow(v: bv32)
    requires v & 0x00FF_FFFF == 0 && Back8(Back8(Back8(v))) & 0xFF00_0000 == 0
    ensures Back8(Back8(Back8(v))) == 0
  {
    var a := Back8(v);
    var b := Back8(a);
    var c := Back8(b);
    assert c == 0;
  }

  lemma BacksThrice(y: bv32)
    ensures Backs(y, 24) == Back8(Back8(Back8(y)))
  {
    hide Backs, Back8;
    BacksAdd(y, 8, 16);
    BacksAdd(Backs(y, 8), 8, 8);
    BacksEight(y);
    BacksEight(Back8(y));
    BacksEight(Back8(Back8(y)));
  }

  /** Nor is one of two bytes whose first is clear, when only two bytes are turned. */
  lemma TwoBytesShow(v: bv32)
    requires v & 0x0000_FFFF == 0 && Back8(Back8(v)) & 0xFFFF_00FF == 0
    ensures Back8(Back8(v)) == 0
  {
  }

  // ----- strings

  function Difference(d: Octets, e: Octets): (bits: seq<bool>)
    requires |d| == |e|
    ensures |bits| == 8 * |d|
  {
    XorBits(BitsOf(d), BitsOf(e))
  }

  /** What a change of the last bytes does to the register. */
  function Image(d: Octets, e: Octets): Word
    requires |d| == |e| <= 4
  {
    Shifts(Pad(Difference(d, e)), 8 * |d|)
  }

  /** As many low bytes of the register stay as bytes are changed. */
  predicate Unseen(d: Octets, e: Octets)
    requires |d| == |e| <= 4
  {
    NoneSet(Image(d, e)[..8 * |d|])
  }

  lemma PadsDiffer(r: Word, x: seq<bool>, y: seq<bool>)
    requires |x| == |y| <= 32
    ensures Xor(Xor(r, Pad(x)), Xor(r, Pad(y))) == Pad(XorBits(x, y))
  {
    hide Repeat;
  }

  lemma RegistersDiffer(r: Word, d: Octets, e: Octets)
    requires |d| == |e| <= 4
    ensures Xor(Register(r, d), Register(r, e)) == Image(d, e)
  {
    hide Shifts, Xor, BitsOf, Pad;
    RegisterOfWord(r, d);
    RegisterOfWord(r, e);
    PadsDiffer(r, BitsOf(d), BitsOf(e));
    ShiftsLinear(Xor(r, Pad(BitsOf(d))), Xor(r, Pad(BitsOf(e))), 8 * |d|);
  }

  lemma LowByte(a: Word, b: Word, j: nat)
    requires j < 4
    ensures WordBytes(a)[3 - j] == WordBytes(b)[3 - j] <==> a[8 * j..8 * j + 8] == b[8 * j..8 * j + 8]
  {
    hide BitsByte;
    if WordBytes(a)[3 - j] == WordBytes(b)[3 - j] {
      BitsByteInjective(a[8 * j..8 * j + 8], b[8 * j..8 * j + 8]);
    }
  }

  lemma SameParts<T>(s: seq<T>, t: seq<T>, i: nat, j: nat, n: nat)
    requires i <= j <= n <= |s| && n <= |t|
    ensures s[i..n] == t[i..n] <==> s[i..j] == t[i..j] && s[j..n] == t[j..n]
  {
    assert s[i..n] == s[i..j] + s[j..n];
    assert t[i..n] == t[i..j] + t[j..n];
    assert s[i..n][..j - i] == s[i..j] && s[i..n][j - i..] == s[j..n];
    assert t[i..n][..j - i] == t[i..j] && t[i..n][j - i..] == t[j..n];
  }

  lemma {:induction false} LowBytes(a: Word, b: Word, k: nat)
    requires k <= 4
    ensures WordBytes(a)[4 - k..] == WordBytes(b)[4 - k..] <==> a[..8 * k] == b[..8 * k]
    decreases k
  {
    hide WordBytes;
    if k > 0 {
      LowBytes(a, b, k - 1);
      LowByte(a, b, k - 1);
      var x, y := WordBytes(a), WordBytes(b);
      SameParts(x, y, 4 - k, 5 - k, 4);
      SameParts(a, b, 0, 8 * (k - 1), 8 * k);
    }
  }

  lemma SameLowBits(a: Word, b: Word, n: nat)
    requires n <= 32
    ensures Xor(a, ONES)[..n] == Xor(b, ONES)[..n] <==> NoneSet(Xor(a, b)[..n])
  {
    hide ONES, XorBits;
    var x, y, z := Xor(a, ONES)[..n], Xor(b, ONES)[..n], Xor(a, b)[..n];
    forall i | 0 <= i < n ensures x[i] == y[i] <==> !z[i] {
    }
    if NoneSet(z) {
      assert x == y;
    }
  }

  /** The last bytes of two codes agree exactly when the change of the last bytes is unseen. */
  lemma CodesAgreeIff(p: Octets, d: Octets, e: Octets)
    requires |d| == |e| <= 4
    ensures CrcBytes(p + d)[4 - |d|..] == CrcBytes(p + e)[4 - |d|..] <==> Unseen(d, e)
  {
    hide WordBytes, Xor, Register, Image, NoneSet;
    var r := Register(ONES, p);
    RegisterAppend(ONES, p, d);
    RegisterAppend(ONES, p, e);
    RegistersDiffer(r, d, e);
    LowBytes(Crc(p + d), Crc(p + e), |d|);
    SameLowBits(Register(r, d), Register(r, e), 8 * |d|);
  }

  lemma NothingDiffers(d: Octets, e: Octets)
    requires |d| == |e| && NoneSet(Difference(d, e))
    ensures d == e
  {
    hide BitsOf, XorBits;
    forall i | 0 <= i < 8 * |d| ensures BitsOf(d)[i] == BitsOf(e)[i] {
      assert !Difference(d, e)[i];
    }
    BitsInjective(d, e);
  }

  /** The machine word of a change, and its turns. */
  lemma ImagePacked(d: Octets, e: Octets)
    requires |d| == |e| <= 4
    ensures var x, n := Pack(Difference(d, e)), 8 * |d|;
      && Image(d, e) == Unpack(Turns(x, n), 32) && Backs(Turns(x, n), n) == x
      && Inside(x, Mask(n)) && Difference(d, e) == Unpack(x, n)
      && (Unseen(d, e) <==> Clear(Turns(x, n), Mask(n)))
  {
    hide Turns, Backs, Unpack, Pack, Mask, Inside, Clear, Shifts, BitsOf, Pad, Difference, NoneSet;
    var bits, n := Difference(d, e), 8 * |d|;
    var x := Pack(bits);
    PadPacked(bits);
    UnpackPack(bits);
    TurnsUnpacked(x, n);
    BacksOfTurns(x, n);
    ClearBits(Turns(x, n), n);
    UnpackPrefix(Turns(x, n), n, 32);
  }

  lemma NoWord(n: nat)
    ensures NoneSet(Unpack(0, n))
  {
    ClearBits(0, n);
  }

  lemma OutsideThree(x: bv32)
    requires Inside(x, 0x00FF_FFFF)
    ensures x & 0xFF00_0000 == 0
  {
  }

  /** A change of three bytes is always seen in the last three bytes of the code. */
  lemma ThreeAreSeen(d: Octets, e: Octets)
    requires |d| == |e| == 3 && Unseen(d, e)
    ensures d == e
  {
    ImagePacked(d, e);
    var x := Pack(Difference(d, e));
    Masks();
    BacksThrice(Turns(x, 24));
    hide Pack, Turns, Backs, Back8, Mask, Unpack, Difference, Unseen, Image;
    OutsideThree(x);
    ThreeBytesShow(Turns(x, 24));
    NoWord(24);
    NothingDiffers(d, e);
  }

  lemma OutsideSecond(x: bv32)
    requires Inside(x, 0xFFFF) && Clear(x, 0xFF)
    ensures x & 0xFFFF_00FF == 0
  {
  }

  lemma SameFirstByte(d: Octets, e: Octets)
    requires |d| == |e| == 2 && d[0] == e[0]
    ensures NoneSet(Difference(d, e)[..8])
  {
    hide ByteBits;
    assert BitsOf(d)[..8] == ByteBits(d[0]) && BitsOf(e)[..8] == ByteBits(e[0]);
    forall i | 0 <= i < 8 ensures !Difference(d, e)[i] {
      assert BitsOf(d)[i] == BitsOf(d)[..8][i] && BitsOf(e)[i] == BitsOf(e)[..8][i];
    }
  }

  /** A change of one byte is seen in the last two bytes of the code one byte later. */
  lemma SecondIsSeen(d: Octets, e: Octets)
    requires |d| == |e| == 2 && d[0] == e[0] && Unseen(d, e)
    ensures d == e
  {
    ImagePacked(d, e);
    SameFirstByte(d, e);
    var x := Pack(Difference(d, e));
    Masks();
    BacksTwice(Turns(x, 16));
    UnpackPrefix(x, 8, 16);
    ClearBits(x, 8);
    hide Pack, Turns, Backs, Back8, Mask, Unpack, Difference, Unseen, Image;
    OutsideSecond(x);
    TwoBytesShow(Turns(x, 16));
    NoWord(16);
    NothingDiffers(d, e);
  }

  lemma BacksTwice(y: bv32)
    ensures Backs(y, 16) == Back8(Back8(y))
  {
    hide Backs, Back8;
    BacksAdd(y, 8, 8);
    BacksEight(y);
    BacksEight(Back8(y));
  }

  // ----- changes that are not seen

  function MaskByte(x: Byte, m: Byte): Byte {
    BitsByte(XorBits(ByteBits(x), ByteBits(m)))
  }

  function Masked(d: Octets, m: Octets): (e: Octets)
    requires |d| == |m|
    ensures |e| == |d|
  {
    if d == [] then [] else [MaskByte(d[0], m[0])] + Masked(d[1..], m[1..])
  }

  lemma XorTwice(x: seq<bool>, m: seq<bool>)
    requires |x| == |m|
    ensures XorBits(x, XorBits(x, m)) == m
  {
  }

  lemma XorAppend(a: seq<bool>, b: seq<bool>, c: seq<bool>, d: seq<bool>)
    requires |a| == |b| && |c| == |d|
    ensures XorBits(a + c, b + d) == XorBits(a, b) + XorBits(c, d)
  {
  }

  /** The change made by a mask is the mask. */
  lemma {:induction false} MaskIsDifference(d: Octets, m: Octets)
    requires |d| == |m|
    ensures Difference(d, Masked(d, m)) == BitsOf(m)
    decreases |d|
  {
    hide ByteBits, BitsByte, XorBits;
    if d != [] {
      var x := XorBits(ByteBits(d[0]), ByteBits(m[0]));
      BitsOfByte(x);
      XorTwice(ByteBits(d[0]), ByteBits(m[0]));
      MaskIsDifference(d[1..], m[1..]);
      var e := Masked(d, m);
      assert e[1..] == Masked(d[1..], m[1..]);
      XorAppend(ByteBits(d[0]), ByteBits(e[0]), BitsOf(d[1..]), BitsOf(e[1..]));
    }
  }

  /** A byte, and two bytes, that the register does not show in as many low bytes. */
  const HIDDEN1: Octets := [0x5D]
  const HIDDEN2: Octets := [0x4D, 0x90]

  lemma HiddenOneClears()
    ensures Clear(Turns(0x5D, 8), 0xFF)
  {
    assert Turns(0x5D, 4) == Turn(Turn(Turn(Turn(0x5D))));
    assert Turns(0x5D, 8) == Turns(Turns(0x5D, 4), 4);
  }

  lemma HiddenTwoClears()
    ensures Clear(Turns(0x904D, 16), 0xFFFF)
  {
    assert Turns(0x904D, 16) == Turns(Turns(0x904D, 8), 8);
  }

  lemma HiddenOnePacked()
    ensures BitsOf(HIDDEN1) == Unpack(0x5D, 8) && Inside(0x5D, 0xFF)
  {
    assert SameBits(0x5, 0x5, 4);
    NumberUnpacked(0x5D, 0x5D, 8);
    assert BitsOf(HIDDEN1[1..]) == [];
  }

  lemma HiddenTwoPacked()
    ensures BitsOf(HIDDEN2) == Unpack(0x904D, 16) && Inside(0x904D, 0xFFFF)
  {
    assert SameBits(0x4, 0x904, 4) && SameBits(0x9, 0x9, 4);
    assert SameBits(0x4D, 0x904D, 8) && SameBits(0x90, 0x90, 8);
    assert 0x904D as bv32 >> 8 == 0x90;
    hide SameBits, Unpack, Bits;
    BytesPrepended(0x4D, 0x904D, 8);
    NumberUnpacked(0x90, 0x90, 8);
    assert HIDDEN2[1..] == [0x90] && HIDDEN2[1..][1..] == [];
    assert BitsOf(HIDDEN2) == ByteBits(0x4D) + (ByteBits(0x90) + []);
  }

  lemma UnseenMask(d: Octets, m: Octets, x: bv32)
    requires |d| == |m| <= 4
    requires BitsOf(m) == Unpack(x, 8 * |m|) && Inside(x, Mask(8 * |m|)) && Clear(Turns(x, 8 * |m|), Mask(8 * |m|))
    ensures Unseen(d, Masked(d, m))
  {
    hide BitsOf, Unpack, Inside, Clear, Turns, Mask, Difference, Masked, NoneSet, Shifts;
    var n := 8 * |m|;
    MaskIsDifference(d, m);
    UnpackPads(x, n, 32 - n);
    assert n + (32 - n) == 32;
    TurnsUnpacked(x, n);
    ClearBits(Turns(x, n), n);
    UnpackPrefix(Turns(x, n), n, 32);
  }

  /** Every byte, and every two bytes, can be changed without being seen. */
  lemma HiddenChanges(d: Octets)
    ensures |d| == 1 ==> Unseen(d, Masked(d, HIDDEN1)) && Masked(d, HIDDEN1) != d
    ensures |d| == 2 ==> Unseen(d, Masked(d, HIDDEN2)) && Masked(d, HIDDEN2) != d
  {
    HiddenOneClears();
    HiddenTwoClears();
    HiddenOnePacked();
    HiddenTwoPacked();
    Masks();
    hide BitsOf, Unpack, Inside, Clear, Turns, Mask, Difference, Masked, Unseen;
    if |d| == 1 {
      UnseenMask(d, HIDDEN1, 0x5D);
      MaskChanges(d, HIDDEN1);
    } else if |d| == 2 {
      UnseenMask(d, HIDDEN2, 0x904D);
      MaskChanges(d, HIDDEN2);
    }
  }

  lemma MaskChanges(d: Octets, m: Octets)
    requires |d| == |m| > 0 && m[0] % 2 == 1
    ensures Masked(d, m) != d
  {
    MaskIsDifference(d, m);
    NoDifference(d);
    assert BitsOf(m)[0];
    hide BitsOf, Masked, ByteBits, Difference;
    assert Difference(d, Masked(d, m))[0] && !Difference(d, d)[0];
  }

  lemma NoDifference(d: Octets)
    ensures NoneSet(Difference(d, d))
  {
  }
}
