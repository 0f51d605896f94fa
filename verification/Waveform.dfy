/** The waveform bit stream of audio.c: samples scaled to five bits and packed without gaps, each by OR-ing a 32-bit
    word into the buffer at the byte its first bit falls in. */
module Waveforms {

  import Numbers
  import opened BitWords

  /** Bit q of a stream of bytes. */
  predicate BitAt(bytes: seq<Byte>, q: nat)
    requires q < 8 * |bytes|
  {
    bytes[q / 8][q % 8]
  }

  /** The 32-bit word at byte p, in little-endian order. */
  function WordAt(bytes: seq<Byte>, p: nat): Word
    requires p + 4 <= |bytes|
  {
    var low: Bits := bytes[p];
    low + bytes[p + 1] + bytes[p + 2] + bytes[p + 3]
  }

  /** Bit b of byte p + m is bit 8 * m + b of the word at p. */
  lemma BytesOfWord(bytes: seq<Byte>, p: nat, m: nat, b: nat)
    requires p + 4 <= |bytes| && m < 4 && b < 8
    ensures WordAt(bytes, p)[8 * m + b] == bytes[p + m][b]
  {
  }

  /** What OR-ing value at a bit offset adds to the stream at bit q: all of the value that the word at that byte has
      room for. */
  predicate Added(value: Word, offset: nat, q: int) {
    offset <= q < offset / 8 * 8 + 32 && value[q - offset]
  }

  lemma ShiftedBit(value: Word, offset: nat, i: nat)
    requires i < 32
    ensures ShiftLeft(value, offset % 8)[i] == Added(value, offset, offset / 8 * 8 + i)
  {
  }

  /** set_bits: the stream gains exactly the bits of the value from the offset on. */
  method SetBits(bytes: array<Byte>, bitOffset: nat, value: Word)
    requires bitOffset / 8 + 4 <= bytes.Length
    modifies bytes
    ensures forall q: nat :: q < 8 * bytes.Length ==>
              BitAt(bytes[..], q) == (BitAt(old(bytes[..]), q) || Added(value, bitOffset, q))
  {
    ghost var before := bytes[..];
    var p := bitOffset / 8;
    var word: Word := Or(WordAt(bytes[..], p), ShiftLeft(value, bitOffset % 8));
    bytes[p] := word[0..8];
    bytes[p + 1] := word[8..16];
    bytes[p + 2] := word[16..24];
    bytes[p + 3] := word[24..32];
    assert WordAt(bytes[..], p) == word;
    ghost var after := bytes[..];
    forall q: nat | q < 8 * bytes.Length
      ensures BitAt(after, q) == (BitAt(before, q) || Added(value, bitOffset, q))
    {
      if p <= q / 8 < p + 4 {
        WordBit(before, after, p, bitOffset, value, q);
      }
    }
  }

  lemma WordBit(before: seq<Byte>, after: seq<Byte>, p: nat, offset: nat, value: Word, q: nat)
    requires p == offset / 8 && p + 4 <= |before| == |after| && p <= q / 8 < p + 4
    requires WordAt(after, p) == Or(WordAt(before, p), ShiftLeft(value, offset % 8))
    ensures BitAt(after, q) == (BitAt(before, q) || Added(value, offset, q))
  {
    var i := q - 8 * p;
    BytesOfWord(before, p, i / 8, i % 8);
    BytesOfWord(after, p, i / 8, i % 8);
    ShiftedBit(value, offset, i);
  }

  // ---------------------------------------------------------------- the stream

  type Sample = n: int | 0 <= n < 0x1_0000
  type Level = v: int | 0 <= v < 32

  function Low5(v: Level): (b: Bits)
    ensures |b| == 5
  {
    FromNat(v, 5)
  }

  /** Bit q of a stream that holds the first k levels and nothing else. */
  predicate StreamBit(levels: seq<Level>, k: nat, q: nat)
    requires k <= |levels|
  {
    q < 5 * k && Low5(levels[q / 5])[q % 5]
  }

  ghost predicate Holds(bytes: seq<Byte>, levels: seq<Level>, k: nat)
    requires k <= |levels|
  {
    forall q: nat :: q < 8 * |bytes| ==> BitAt(bytes, q) == StreamBit(levels, k, q)
  }

  /** The masked value as a word. */
  function Masked(v: Level): (w: Word)
    ensures forall i :: 0 <= i < 32 ==> w[i] == (i < 5 && Low5(v)[i])
  {
    LowBits(v, 5, 32);
    FromNat(v, 32)[..5] + Zeros(27)
  }

  /** One more level takes up the next five bits. */
  lemma AddedIsNextLevel(levels: seq<Level>, k: nat, q: nat)
    requires k < |levels|
    ensures StreamBit(levels, k + 1, q) == (StreamBit(levels, k, q) || Added(Masked(levels[k]), 5 * k, q))
  {
    var word := Masked(levels[k]);
    if 5 * k <= q < 5 * k + 5 {
      assert q / 5 == k && q % 5 == q - 5 * k;
      assert word[q - 5 * k] == Low5(levels[k])[q - 5 * k];
    }
  }

  /** Level i as read from the stream. */
  function Read(bytes: seq<Byte>, i: nat): nat
    requires 5 * i + 5 <= 8 * |bytes|
  {
    Value(seq(5, b requires 0 <= b < 5 => BitAt(bytes, 5 * i + b)))
  }

  lemma ReadsBack(bytes: seq<Byte>, levels: seq<Level>, i: nat)
    requires i < |levels| && 5 * i + 5 <= 8 * |bytes| && Holds(bytes, levels, |levels|)
    ensures Read(bytes, i) == levels[i]
  {
    var bits := seq(5, b requires 0 <= b < 5 => BitAt(bytes, 5 * i + b));
    forall b | 0 <= b < 5 ensures bits[b] == Low5(levels[i])[b] {
      var q: nat := 5 * i + b;
      assert q / 5 == i && q % 5 == b;
      assert BitAt(bytes, q) == StreamBit(levels, |levels|, q);
    }
    assert bits == Low5(levels[i]);
    assert Numbers.Pow2(5) == 32;
    BitsRoundTrip(levels[i], 5);
  }

  /** A sample scaled to five bits. */
  function Scaled(sample: Sample, peak: Sample): Level
    requires peak > 0
  {
    var scaled: int := (sample as int) * 31 / peak;
    if scaled < 31 then scaled else 31
  }

  function Levels(samples: seq<Sample>, peak: Sample): (levels: seq<Level>)
    requires peak > 0
    ensures |levels| == |samples|
  {
    seq(|samples|, i requires 0 <= i < |samples| => Scaled(samples[i], peak))
  }

  /** The packing loop into a zeroed buffer with four spare bytes.  Every access is in bounds, the buffer ends up
      holding the levels and nothing else, and the spare bytes stay zero. */
  method PackLevels(samples: seq<Sample>, peak: Sample) returns (bytes: array<Byte>)
    requires peak > 0
    ensures fresh(bytes) && bytes.Length == |samples| * 5 / 8 + 1 + 4
    ensures Holds(bytes[..], Levels(samples, peak), |samples|)
  {
    ghost var levels := Levels(samples, peak);
    var bitstreamLength := |samples| * 5 / 8 + 1;
    bytes := new Byte[bitstreamLength + 4](_ => Zeros(8));
    for i := 0 to |samples|
      invariant Holds(bytes[..], levels, i)
    {
      ghost var before := bytes[..];
      SetBits(bytes, i * 5, Masked(Scaled(samples[i], peak)));
      forall q: nat | q < 8 * bytes.Length ensures BitAt(bytes[..], q) == StreamBit(levels, i + 1, q) {
        assert BitAt(before, q) == StreamBit(levels, i, q);
        AddedIsNextLevel(levels, i, q);
      }
    }
  }

  /** A buffer that holds the levels has only zeros from byte |levels| * 5 / 8 + 1 on. */
  lemma SpareBytesAreZero(bytes: seq<Byte>, levels: seq<Level>, j: nat)
    requires Holds(bytes, levels, |levels|) && |levels| * 5 / 8 < j < |bytes|
    ensures bytes[j] == Zeros(8)
  {
    forall b | 0 <= b < 8 ensures !bytes[j][b] {
      var q: nat := 8 * j + b;
      assert BitAt(bytes, q) == StreamBit(levels, |levels|, q);
    }
  }

  /** The waveform that is returned: the buffer without its spare bytes.  Every level reads back from it. */
  method Waveform(samples: seq<Sample>, peak: Sample) returns (result: seq<Byte>)
    requires peak > 0
    ensures |result| == |samples| * 5 / 8 + 1
    ensures forall i: nat :: i < |samples| ==> Read(result, i) == Scaled(samples[i], peak)
    ensures Holds(result, Levels(samples, peak), |samples|)
  {
    var bytes := PackLevels(samples, peak);
    result := bytes[..|samples| * 5 / 8 + 1];
    ghost var levels := Levels(samples, peak);
    forall q: nat | q < 8 * |result| ensures BitAt(result, q) == StreamBit(levels, |levels|, q) {
      assert BitAt(bytes[..], q) == StreamBit(levels, |levels|, q);
    }
    forall i: nat | i < |samples| ensures Read(result, i) == levels[i] {
      ReadsBack(result, levels, i);
    }
  }

  /** A stream is determined by the levels it holds, and holds only these. */
  lemma StreamIsUnique(a: seq<Byte>, b: seq<Byte>, levels: seq<Level>, levels': seq<Level>)
    requires |a| == |b| == |levels| * 5 / 8 + 1 && |levels| == |levels'|
    requires Holds(a, levels, |levels|) && Holds(b, levels', |levels'|)
    ensures a == b <==> levels == levels'
  {
    if levels == levels' {
      forall j | 0 <= j < |a| ensures a[j] == b[j] {
        forall k | 0 <= k < 8 ensures a[j][k] == b[j][k] {
          var q: nat := 8 * j + k;
          assert BitAt(a, q) == StreamBit(levels, |levels|, q) == BitAt(b, q);
        }
      }
    }
    if a == b {
      forall i | 0 <= i < |levels| ensures levels[i] == levels'[i] {
        ReadsBack(a, levels, i);
        ReadsBack(b, levels', i);
      }
    }
  }

  // ---------------------------------------------------------------- in terms of numbers

  /** A level is the sample's share of the peak, scaled to 31 and rounded down, and 31 from the peak on. */
  lemma ScaledRoundsDown(sample: Sample, peak: Sample)
    requires peak > 0
    ensures var v: int := Scaled(sample, peak);
            if sample >= peak then v == 31 else v * peak <= 31 * sample < (v + 1) * peak
  {
    var s, p: int := sample as int, peak as int;
    var q := s * 31 / p;
    assert s * 31 == p * q + s * 31 % p;
    if s >= p {
      AtLeast31(s, p, q);
    } else {
      Below31(s, p, q);
    }
  }

  lemma AtLeast31(s: int, p: int, q: int)
    requires 0 < p <= s && p * q <= s * 31 < p * (q + 1)
    ensures q >= 31
  {
    assert q < 31 ==> p * (q + 1) <= p * 31;
  }

  lemma Below31(s: int, p: int, q: int)
    requires 0 <= s < p && p * q <= s * 31 < p * (q + 1)
    ensures q < 31 && q * p <= 31 * s < (q + 1) * p
  {
    assert q >= 31 ==> p * 31 <= p * q;
  }

  /** The stream as one number, its first byte the lowest. */
  function StreamValue(bytes: seq<Byte>): nat {
    if bytes == [] then 0 else Value(bytes[0]) + 256 * StreamValue(bytes[1..])
  }

  /** The levels as the digits of a number in base 32, the first one the lowest. */
  function LevelsValue(levels: seq<Level>): nat {
    if levels == [] then 0 else levels[0] + 32 * LevelsValue(levels[1..])
  }

  function AllBits(bytes: seq<Byte>): (b: Bits)
    ensures |b| == 8 * |bytes|
  {
    if bytes == [] then [] else bytes[0] + AllBits(bytes[1..])
  }

  function LevelBits(levels: seq<Level>): (b: Bits)
    ensures |b| == 5 * |levels|
  {
    if levels == [] then [] else Low5(levels[0]) + LevelBits(levels[1..])
  }

  lemma {:induction false} AllBitsValue(bytes: seq<Byte>)
    ensures Value(AllBits(bytes)) == StreamValue(bytes)
  {
    if bytes != [] {
      AllBitsValue(bytes[1..]);
      ValueJoined(bytes[0], AllBits(bytes[1..]));
      assert Numbers.Pow2(8) == 256;
    }
  }

  lemma {:induction false} LevelBitsValue(levels: seq<Level>)
    ensures Value(LevelBits(levels)) == LevelsValue(levels)
  {
    if levels != [] {
      LevelBitsValue(levels[1..]);
      ValueJoined(Low5(levels[0]), LevelBits(levels[1..]));
      assert Numbers.Pow2(5) == 32;
      BitsRoundTrip(levels[0], 5);
    }
  }

  lemma {:induction false} AllBitsAt(bytes: seq<Byte>, q: nat)
    requires q < 8 * |bytes|
    ensures AllBits(bytes)[q] == BitAt(bytes, q)
  {
    if q >= 8 {
      AllBitsAt(bytes[1..], q - 8);
      assert bytes[1..][(q - 8) / 8] == bytes[q / 8];
    }
  }

  lemma {:induction false} LevelBitsAt(levels: seq<Level>, q: nat)
    requires q < 5 * |levels|
    ensures LevelBits(levels)[q] == Low5(levels[q / 5])[q % 5]
  {
    if q >= 5 {
      LevelBitsAt(levels[1..], q - 5);
      assert levels[1..][(q - 5) / 5] == levels[q / 5];
    }
  }

  lemma {:induction false} ZerosAreZero(n: nat)
    ensures Value(Zeros(n)) == 0
  {
    if n > 0 {
      ZerosAreZero(n - 1);
      assert Zeros(n)[1..] == Zeros(n - 1);
    }
  }

  /** A stream that holds the levels is the number with these digits. */
  lemma StreamIsNumber(bytes: seq<Byte>, levels: seq<Level>)
    requires Holds(bytes, levels, |levels|) && 5 * |levels| <= 8 * |bytes|
    ensures StreamValue(bytes) == LevelsValue(levels)
  {
    StreamBits(bytes, levels);
    ZerosAddNothing(LevelBits(levels), 8 * |bytes| - 5 * |levels|);
    AllBitsValue(bytes);
    LevelBitsValue(levels);
  }

  lemma ZerosAddNothing(b: Bits, n: nat)
    ensures Value(b + Zeros(n)) == Value(b)
  {
    ValueJoined(b, Zeros(n));
    ZerosAreZero(n);
  }

  lemma StreamBits(bytes: seq<Byte>, levels: seq<Level>)
    requires Holds(bytes, levels, |levels|) && 5 * |levels| <= 8 * |bytes|
    ensures AllBits(bytes) == LevelBits(levels) + Zeros(8 * |bytes| - 5 * |levels|)
  {
    var all, digits := AllBits(bytes), LevelBits(levels);
    forall q | 0 <= q < |all| ensures all[q] == (q < |digits| && digits[q]) {
      AllBitsAt(bytes, q);
      assert BitAt(bytes, q) == StreamBit(levels, |levels|, q);
      if q < |digits| {
        LevelBitsAt(levels, q);
      }
    }
  }
}
