/** The CRC-32 of section 8 of RFC 1952 on numbers, as a reference for the one on sequences of bits. */
module Crc32Numbers {
  import opened Numbers
  import BitWords
  import Crc32

  function Step(c: nat): nat {
    if c % 2 == 1 then XorBits(c / 2, 0xEDB8_8320, 32) else c / 2
  }

  function Steps(c: nat, n: nat): nat {
    if n == 0 then c else Step(Steps(c, n - 1))
  }

  /** The register after the bytes: each is added to the low end, and moved through by eight steps. */
  function Register(data: seq<nat>): nat {
    if data == [] then 0xFFFF_FFFF else Steps(XorBits(Register(data[..|data| - 1]), data[|data| - 1], 32), 8)
  }

  function Checksum(data: seq<nat>): nat {
    XorBits(Register(data), 0xFFFF_FFFF, 32)
  }

  // ---------------------------------------------------------------- words and numbers

  lemma {:induction false} XorOfNumbers(a: nat, b: nat, n: nat)
    ensures BitWords.Xor(BitWords.FromNat(a, n), BitWords.FromNat(b, n)) == BitWords.FromNat(XorBits(a, b, n), n)
  {
    if n > 0 {
      XorOfNumbers(a / 2, b / 2, n - 1);
      assert XorBits(a, b, n) / 2 == XorBits(a / 2, b / 2, n - 1);
      var x, y := BitWords.FromNat(a, n), BitWords.FromNat(b, n);
      assert x[1..] == BitWords.FromNat(a / 2, n - 1) && y[1..] == BitWords.FromNat(b / 2, n - 1);
      assert BitWords.Xor(x, y) == [x[0] != y[0]] + BitWords.Xor(x[1..], y[1..]);
    }
  }

  lemma {:induction false} HighBitIsZero(v: nat, n: nat)
    requires v < Pow2(n)
    ensures BitWords.FromNat(v, n + 1) == BitWords.FromNat(v, n) + [false]
  {
    if n > 0 {
      HighBitIsZero(v / 2, n - 1);
    }
  }

  lemma HalfOfNumber(v: nat)
    requires v < Pow2(32)
    ensures BitWords.ShiftRight(BitWords.FromNat(v, 32), 1) == BitWords.FromNat(v / 2, 32)
  {
    assert BitWords.FromNat(v, 32)[1..] == BitWords.FromNat(v / 2, 31);
    HighBitIsZero(v / 2, 31);
    assert BitWords.Zeros(1) == [false];
  }

  lemma HexValue(d: nat)
    requires d < 16
    ensures BitWords.Value(Crc32.Hex(d)) == d
  {
    assert BitWords.FromNat(d, 2) == [d % 2 == 1, d / 2 % 2 == 1];
    assert BitWords.FromNat(d, 4) == [d % 2 == 1, d / 2 % 2 == 1] + BitWords.FromNat(d / 4, 2);
    assert BitWords.FromNat(d, 4) == Crc32.Hex(d);
    PowersOfTwo();
    BitWords.BitsRoundTrip(d, 4);
  }

  lemma DigitsValue(a: nat, b: nat, c: nat, d: nat)
    requires a < 16 && b < 16 && c < 16 && d < 16
    ensures BitWords.Value(Crc32.Digits(a, b, c, d)) == a + 16 * b + 256 * c + 4096 * d
  {
    HexValue(a);
    HexValue(b);
    HexValue(c);
    HexValue(d);
    PowersOfTwo();
    BitWords.ValueJoined(Crc32.Hex(a) + Crc32.Hex(b) + Crc32.Hex(c), Crc32.Hex(d));
    BitWords.ValueJoined(Crc32.Hex(a) + Crc32.Hex(b), Crc32.Hex(c));
    BitWords.ValueJoined(Crc32.Hex(a), Crc32.Hex(b));
  }

  lemma ReflectedPolynomialIs()
    ensures Crc32.REFLECTED_POLYNOMIAL == BitWords.FromNat(0xEDB8_8320, 32)
  {
    DigitsValue(0x0, 0x2, 0x3, 0x8);
    DigitsValue(0x8, 0xB, 0xD, 0xE);
    PowersOfTwo();
    BitWords.ValueJoined(Crc32.Digits(0x0, 0x2, 0x3, 0x8), Crc32.Digits(0x8, 0xB, 0xD, 0xE));
    BitWords.ValueRoundTrip(Crc32.REFLECTED_POLYNOMIAL);
  }

  /** The forward polynomial, as it stands in the table builder. */
  lemma PolynomialIs()
    ensures BitWords.Value(Crc32.POLYNOMIAL) == 0x04C1_1DB7
  {
    DigitsValue(0x7, 0xB, 0xD, 0x1);
    DigitsValue(0x1, 0xC, 0x4, 0x0);
    PowersOfTwo();
    BitWords.ValueJoined(Crc32.Digits(0x7, 0xB, 0xD, 0x1), Crc32.Digits(0x1, 0xC, 0x4, 0x0));
  }

  lemma {:induction false} AllOnes(n: nat)
    ensures Pow2(n) >= 1 && BitWords.FromNat(Pow2(n) - 1, n) == seq(n, _ => true)
  {
    if n > 0 {
      AllOnes(n - 1);
      assert (Pow2(n) - 1) / 2 == Pow2(n - 1) - 1;
    }
  }

  lemma PowersOfTwo()
    ensures Pow2(4) == 16 && Pow2(8) == 0x100 && Pow2(12) == 0x1000 && Pow2(16) == 0x1_0000 && Pow2(32) == 0x1_0000_0000
  {
    assert Pow2(8) == 0x100 && Pow2(16) == 0x1_0000 && Pow2(24) == 0x100_0000;
  }

  lemma OnesAreNumber()
    ensures Crc32.Ones() == BitWords.FromNat(0xFFFF_FFFF, 32)
  {
    AllOnes(32);
    PowersOfTwo();
  }

  // ---------------------------------------------------------------- the two agree

  lemma StepIs(v: nat)
    requires v < Pow2(32)
    ensures Crc32.BitStep(BitWords.FromNat(v, 32)) == BitWords.FromNat(Step(v), 32) && Step(v) < Pow2(32)
  {
    HalfOfNumber(v);
    ReflectedPolynomialIs();
    XorOfNumbers(v / 2, 0xEDB8_8320, 32);
    XorRange(v / 2, 0xEDB8_8320, 32);
  }

  lemma {:induction false} StepsAre(v: nat, n: nat)
    requires v < Pow2(32)
    ensures Crc32.Steps(BitWords.FromNat(v, 32), n) == BitWords.FromNat(Steps(v, n), 32) && Steps(v, n) < Pow2(32)
  {
    if n > 0 {
      StepsAre(v, n - 1);
      StepIs(Steps(v, n - 1));
    }
  }

  function Values(data: seq<BitWords.Byte>): (v: seq<nat>)
    ensures |v| == |data|
  {
    seq(|data|, i requires 0 <= i < |data| => BitWords.Value(data[i]))
  }

  lemma PaddedByte(b: BitWords.Byte)
    ensures Crc32.Padded(b) == BitWords.FromNat(BitWords.Value(b), 32)
  {
    BitWords.ByteValue(b);
    BitWords.ValueRoundTrip(b);
    ZerosAbove(BitWords.Value(b), 8, 32);
  }

  lemma {:induction false} ZerosAbove(v: nat, n: nat, m: nat)
    requires v < Pow2(n) && n <= m
    ensures BitWords.FromNat(v, m) == BitWords.FromNat(v, n) + BitWords.Zeros(m - n)
    decreases m
  {
    if n < m {
      ZerosAbove(v, n, m - 1);
      MorePower(n, m - 1);
      HighBitIsZero(v, m - 1);
      assert BitWords.Zeros(m - 1 - n) + [false] == BitWords.Zeros(m - n);
    }
  }

  lemma {:induction false} MorePower(n: nat, m: nat)
    requires n <= m
    ensures Pow2(n) <= Pow2(m)
  {
    if n < m {
      MorePower(n, m - 1);
    }
  }

  lemma {:induction false} RegisterIs(data: seq<BitWords.Byte>)
    ensures Crc32.Feed(Crc32.Ones(), data) == BitWords.FromNat(Register(Values(data)), 32)
    ensures Register(Values(data)) < Pow2(32)
    decreases |data|
  {
    PowersOfTwo();
    if data == [] {
      OnesAreNumber();
    } else {
      var n := |data| - 1;
      RegisterIs(data[..n]);
      assert Values(data)[..n] == Values(data[..n]);
      var r, b := Register(Values(data[..n])), BitWords.Value(data[n]);
      Crc32.FeedIsStep(Crc32.Feed(Crc32.Ones(), data[..n]), data[n]);
      PaddedByte(data[n]);
      XorOfNumbers(r, b, 32);
      XorRange(r, b, 32);
      StepsAre(XorBits(r, b, 32), 8);
    }
  }

  /** The checksum of the bits is that of the numbers. */
  lemma ChecksumIs(data: seq<BitWords.Byte>)
    ensures BitWords.Value(Crc32.Checksum(data)) == Checksum(Values(data))
  {
    RegisterIs(data);
    OnesAreNumber();
    var r := Register(Values(data));
    XorOfNumbers(r, 0xFFFF_FFFF, 32);
    XorRange(r, 0xFFFF_FFFF, 32);
    BitWords.BitsRoundTrip(XorBits(r, 0xFFFF_FFFF, 32), 32);
  }

  // ---------------------------------------------------------------- one message

  lemma Complement(v: nat)
    requires v < Pow2(32)
    ensures XorBits(v, 0xFFFF_FFFF, 32) == XorBits(0xFFFF_FFFF, v, 32) == 0xFFFF_FFFF - v
  {
    PowersOfTwo();
    XorOnes(v, 32);
    XorCommutes(v, 0xFFFF_FFFF, 32);
  }

  /** The second byte changes the low byte only. */
  lemma SecondByte()
    ensures XorBits(0x00FF_FFFF, 0x7F, 32) == 0x00FF_FF80
  {
    PowersOfTwo();
    XorSplit(0x00FF_FFFF, 0x7F, 8, 24);
    assert Above(0x00FF_FFFF, 8) == 0xFFFF && Above(0x7F, 8) == 0;
    MorePower(16, 24);
    XorZero(0xFFFF, 24);
    assert XorBits(0x00FF_FFFF, 0x7F, 8) == 0x80;
  }

  lemma PolynomialStep()
    ensures XorBits(0xFFFF, 0xEDB8_8320, 32) == 0xEDB8_7CDF
  {
    OnesInLowHalf(0x8320, 0xEDB8);
  }

  /** The low half meets ones, the other one zeros. */
  lemma OnesInLowHalf(low: nat, high: nat)
    requires low < 0x1_0000 && high < 0x1_0000
    ensures XorBits(0xFFFF, low + 0x1_0000 * high, 32) == 0xFFFF - low + 0x1_0000 * high
  {
    PowersOfTwo();
    var ones, b := Pow2(16) - 1, low + Pow2(16) * high;
    XorSplit(ones, b, 16, 16);
    AboveIs(ones, ones, 0, 16);
    AboveIs(b, low, high, 16);
    XorCommutes(0, high, 16);
    XorZero(high, 16);
    LowBitsOnly(ones, b, low, high, 16);
    XorOnes(low, 16);
    XorCommutes(low, ones, 16);
  }

  lemma {:induction false} AboveIs(v: nat, low: nat, high: nat, n: nat)
    requires low < Pow2(n) && v == low + Pow2(n) * high
    ensures Above(v, n) == high
  {
    if n > 0 {
      assert Pow2(n) * high == 2 * (Pow2(n - 1) * high);
      AboveIs(v / 2, low / 2, high, n - 1);
    }
  }

  /** Only the low bits count. */
  lemma {:induction false} LowBitsOnly(a: nat, b: nat, low: nat, high: nat, n: nat)
    requires b == low + Pow2(n) * high
    ensures XorBits(a, b, n) == XorBits(a, low, n)
  {
    if n > 0 {
      assert Pow2(n) * high == 2 * (Pow2(n - 1) * high);
      LowBitsOnly(a / 2, b / 2, low / 2, high, n - 1);
    }
  }

  lemma FirstShifts()
    ensures Steps(0xFFFF_FF00, 8) == 0x00FF_FFFF
  {
    assert Steps(0xFFFF_FF00, 2) == 0x3FFF_FFC0;
    assert Steps(0xFFFF_FF00, 4) == 0x0FFF_FFF0;
    assert Steps(0xFFFF_FF00, 6) == 0x03FF_FFFC;
  }

  lemma SecondShifts()
    ensures Steps(0x00FF_FF80, 7) == 0x1_FFFF
  {
    assert Steps(0x00FF_FF80, 2) == 0x003F_FFE0;
    assert Steps(0x00FF_FF80, 4) == 0x000F_FFF8;
    assert Steps(0x00FF_FF80, 6) == 0x0003_FFFE;
  }

  lemma RegisterOfTwoBytes()
    ensures Register([0xFF, 0x7F]) == 0xEDB8_7CDF
  {
    var none, one, two: seq<nat> := [], [0xFF], [0xFF, 0x7F];
    assert two[..1] == one && one[..0] == none;
    PowersOfTwo();
    Complement(0xFF);
    FirstShifts();
    assert Register(one) == Steps(0xFFFF_FF00, 8);
    SecondByte();
    SecondShifts();
    PolynomialStep();
    assert Step(0x1_FFFF) == XorBits(0xFFFF, 0xEDB8_8320, 32);
    assert Steps(0x00FF_FF80, 8) == Step(Steps(0x00FF_FF80, 7));
    assert Register(two) == Steps(XorBits(Register(one), 0x7F, 32), 8);
  }

  /** The checksum of the bytes FF and 7F. */
  lemma ChecksumOfTwoBytes()
    ensures Checksum([0xFF, 0x7F]) == 0x1247_8320
  {
    RegisterOfTwoBytes();
    PowersOfTwo();
    Complement(0xEDB8_7CDF);
  }
}
