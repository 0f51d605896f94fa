/** The stack blur of image.c: fastBlur, fastBlurMore and their 565 forms.

    Every pass slides a triangular window along a line of packed colours.  It keeps the window sum and the
    first difference of the window sum, each a single 64-bit word holding all three channels. */
module StackBlur {
  import opened Numbers
  import opened WindowSums
  import opened PackedColors

  datatype Format = Rgba8888 | Rgb565

  function PixelSize(f: Format): int {
    if f.Rgba8888? then 4 else 2
  }

  /** The bytes of a pixel that the blur overwrites; the fourth byte of an RGBA pixel is its alpha. */
  function ColorBytes(f: Format): int {
    if f.Rgba8888? then 3 else 2
  }

  // ---------------------------------------------------------------- pixels

  function GetColors(s: seq<Byte>, pos: nat): Word
    requires pos + 4 <= |s|
  {
    var p0: int, p1: int, p2: int := s[pos], s[pos + 1], s[pos + 2];
    p0 + p1 * 0x1_0000 + p2 * 0x1_0000_0000
  }

  /** The little-endian 16-bit value at pos. */
  function Halfword(s: seq<Byte>, pos: nat): (v: int)
    requires pos + 2 <= |s|
    ensures 0 <= v < 0x1_0000
  {
    var low: int, high: int := s[pos], s[pos + 1];
    low + 256 * high
  }

  function GetColors565(s: seq<Byte>, pos: nat): Word
    requires pos + 2 <= |s|
  {
    var v := Halfword(s, pos);
    v / 0x800 * 255 / 31 + v / 0x20 % 0x40 * 255 / 63 * 0x1_0000 + v % 0x20 * 255 / 31 * 0x1_0000_0000
  }

  function Colors(f: Format, s: seq<Byte>, pos: nat): Word
    requires pos + PixelSize(f) <= |s|
  {
    if f.Rgba8888? then GetColors(s, pos) else GetColors565(s, pos)
  }

  /** Channel c of the pixel at pos, as an 8-bit value: a 5- or 6-bit field is scaled to 0..255. */
  function Channel(f: Format, s: seq<Byte>, pos: nat, c: nat): Byte
    requires pos + PixelSize(f) <= |s| && c < 3
  {
    if f.Rgba8888? then s[pos + c]
    else
      var v := Halfword(s, pos);
      if c == 0 then Expand(v / 0x800, 31) else if c == 1 then Expand(v / 0x20 % 0x40, 63) else Expand(v % 0x20, 31)
  }

  function Expand(field: int, max: int): Byte
    requires 0 <= field <= max && (max == 31 || max == 63)
  {
    field * 255 / max
  }

  /** A field is scaled to a byte and rounded down. */
  lemma ExpandRoundsDown(field: int, max: int)
    requires 0 <= field <= max && (max == 31 || max == 63)
    ensures max * Expand(field, max) <= 255 * field < max * (Expand(field, max) + 1)
  {
  }

  /** The channels of a 565 pixel, in terms of its two bytes. */
  lemma ChannelsOf565(s: seq<Byte>, pos: nat)
    requires pos + 2 <= |s|
    ensures var v := (s[pos] as int) + 256 * (s[pos + 1] as int);
            && 31 * Channel(Rgb565, s, pos, 0) <= 255 * (v / 2048) < 31 * (Channel(Rgb565, s, pos, 0) + 1)
            && 63 * Channel(Rgb565, s, pos, 1) <= 255 * (v / 32 % 64) < 63 * (Channel(Rgb565, s, pos, 1) + 1)
            && 31 * Channel(Rgb565, s, pos, 2) <= 255 * (v % 32) < 31 * (Channel(Rgb565, s, pos, 2) + 1)
  {
    var v := Halfword(s, pos);
    ExpandRoundsDown(v / 0x800, 31);
    ExpandRoundsDown(v / 0x20 % 0x40, 63);
    ExpandRoundsDown(v % 0x20, 31);
  }

  lemma ColorsPackChannels(f: Format, s: seq<Byte>, pos: nat)
    requires pos + PixelSize(f) <= |s|
    ensures Colors(f, s, pos) == Pack(Channel(f, s, pos, 0), Channel(f, s, pos, 1), Channel(f, s, pos, 2))
  {
  }

  /** Byte b of the stored form of a colour: the channels themselves, or their top 5, 6 and 5 bits. */
  function PixelByte(f: Format, c0: Byte, c1: Byte, c2: Byte, b: int): Byte
    requires 0 <= b < ColorBytes(f)
  {
    if f.Rgba8888? then (if b == 0 then c0 else if b == 1 then c1 else c2)
    else
      var v := c0 / 8 * 0x800 + c1 / 4 * 0x20 + c2 / 8;
      if b == 0 then v % 256 else v / 256
  }

  method StorePixel(f: Format, res: Word, pix: array<Byte>, yi: nat)
    requires yi + ColorBytes(f) <= pix.Length
    modifies pix
    ensures forall b :: 0 <= b < ColorBytes(f) ==>
              pix[yi + b] == PixelByte(f, Lane(res, 0), Lane(res, 1), Lane(res, 2), b)
    ensures forall k :: 0 <= k < pix.Length && !(yi <= k < yi + ColorBytes(f)) ==> pix[k] == old(pix[k])
  {
    if f.Rgba8888? {
      pix[yi] := Lane(res, 0);
      pix[yi + 1] := Lane(res, 1);
      pix[yi + 2] := Lane(res, 2);
    } else {
      Stored565(res);
      pix[yi] := res / 0x4_0000 % 8 * 32 + res / 0x8_0000_0000 % 32;
      pix[yi + 1] := res / 8 % 32 * 8 + res / 0x20_0000 % 8;
    }
  }

  /** The two masked bytes are the low and the high byte of one 16-bit value of truncated channels. */
  lemma Stored565(res: Word)
    ensures res / 0x4_0000 % 8 * 32 + res / 0x8_0000_0000 % 32
              == PixelByte(Rgb565, Lane(res, 0), Lane(res, 1), Lane(res, 2), 0)
    ensures res / 8 % 32 * 8 + res / 0x20_0000 % 8 == PixelByte(Rgb565, Lane(res, 0), Lane(res, 1), Lane(res, 2), 1)
  {
    LowByteFields(res);
    assert res / 0x4_0000 == res / LANE / 4 && res / 0x20_0000 == res / LANE / 32;
    LowByteFields(res / LANE);
    assert res / 0x8_0000_0000 == res / LANE2 / 8;
    LowByteFields(res / LANE2);
    SplitHalfword(Lane(res, 0), Lane(res, 1), Lane(res, 2));
  }

  lemma LowByteFields(x: nat)
    ensures x / 8 % 32 == x % 256 / 8 && x / 4 % 8 == x % 256 / 4 % 8 && x / 32 % 8 == x % 256 / 32
  {
    TopField5(x);
    TopField6(x);
    TopField3(x);
  }

  lemma TopField5(x: nat)
    ensures x / 8 % 32 == x % 256 / 8
  {
    var high, low := x / 256, x % 256;
    Quotient(x, 8, 32 * high + low / 8, low % 8);
    Quotient(x / 8, 32, high, low / 8);
  }

  lemma TopField6(x: nat)
    ensures x / 4 % 8 == x % 256 / 4 % 8
  {
    var high, low := x / 256, x % 256;
    Quotient(x, 4, 64 * high + low / 4, low % 4);
    Quotient(x / 4, 8, 8 * high + low / 4 / 8, low / 4 % 8);
  }

  lemma TopField3(x: nat)
    ensures x / 32 % 8 == x % 256 / 32
  {
    var high, low := x / 256, x % 256;
    Quotient(x, 32, 8 * high + low / 32, low % 32);
    Quotient(x / 32, 8, high, low / 32);
  }

  lemma SplitHalfword(c0: Byte, c1: Byte, c2: Byte)
    ensures PixelByte(Rgb565, c0, c1, c2, 0) == c1 / 4 % 8 * 32 + c2 / 8
    ensures PixelByte(Rgb565, c0, c1, c2, 1) == c0 / 8 * 8 + c1 / 32
  {
    var r, g, b := c0 / 8, c1 / 4, c2 / 8;
    assert g / 8 == c1 / 32 && g == g / 8 * 8 + g % 8;
    Quotient(r * 0x800 + g * 0x20 + b, 256, r * 8 + g / 8, g % 8 * 32 + b);
  }

  // ---------------------------------------------------------------- running sums

  /** rgbsum and rgballsum. */
  datatype Sums = Sums(sum: Word, all: Word)

  function Advance(s: Sums, start: Word, middle: Word, end: Word): Sums {
    var all := Wrap(s.all + start - 2 * middle + end);
    Sums(Wrap(s.sum + all), all)
  }

  predicate PackedLine(line: seq<int>) {
    forall i :: 0 <= i < |line| ==>
      && 0 <= line[i] < 0x1_0000_0000_0000
      && line[i] == Pack(Lane(line[i], 0), Lane(line[i], 1), Lane(line[i], 2))
  }

  function LaneLine(line: seq<int>, c: nat): (l: seq<Byte>)
    requires PackedLine(line)
    ensures |l| == |line|
  {
    seq(|line|, i requires 0 <= i < |line| => Lane(line[i], c))
  }

  /** The sums stand at x: rgbsum is the window sum itself, rgballsum its first difference modulo 2^64. */
  ghost predicate Tracks(s: Sums, line: seq<int>, r: nat, x: int)
    requires line != []
  {
    s.sum == WindowSum(line, r, x) && s.all == Wrap(Slope(line, r, x))
  }

  lemma LaneSumFits(line: seq<int>, r: nat, x: int)
    requires line != [] && r <= 15 && forall i :: 0 <= i < |line| ==> 0 <= line[i] < 256
    ensures 0 <= WindowSum(line, r, x) <= 255 * Square(r + 1) < LANE
  {
    assert Within(line, r, x, 0, 255);
    WindowSumBounds(line, r, x, 0, 255);
    SquareFits(r + 1);
  }

  lemma SquareFits(n: nat)
    requires n <= 16
    ensures Square(n) <= 256
  {
    assert n * n <= 16 * n;
  }

  /** No lane ever disturbs another: rgbsum is the exact packing of the three window sums, each below 2^16,
      and rgballsum is, modulo 2^64, the packing of the three signed first differences. */
  lemma LanesStayApart(s: Sums, line: seq<int>, r: nat, x: int)
    requires line != [] && PackedLine(line) && r <= 15 && Tracks(s, line, r, x)
    ensures forall c :: 0 <= c < 3 ==> 0 <= WindowSum(LaneLine(line, c), r, x) <= 255 * Square(r + 1) < LANE
    ensures s.sum == Pack(WindowSum(LaneLine(line, 0), r, x), WindowSum(LaneLine(line, 1), r, x),
              WindowSum(LaneLine(line, 2), r, x))
    ensures s.all == Wrap(Pack(Slope(LaneLine(line, 0), r, x), Slope(LaneLine(line, 1), r, x),
              Slope(LaneLine(line, 2), r, x)))
  {
    WindowSumPacks(line, r, x);
    WindowSumPacks(line, r, x - 1);
  }

  lemma WindowSumPacks(line: seq<int>, r: nat, x: int)
    requires line != [] && PackedLine(line) && r <= 15
    ensures forall c :: 0 <= c < 3 ==> 0 <= WindowSum(LaneLine(line, c), r, x) <= 255 * Square(r + 1) < LANE
    ensures WindowSum(line, r, x)
         == Pack(WindowSum(LaneLine(line, 0), r, x), WindowSum(LaneLine(line, 1), r, x),
             WindowSum(LaneLine(line, 2), r, x))
  {
    forall c | 0 <= c < 3 ensures 0 <= WindowSum(LaneLine(line, c), r, x) <= 255 * Square(r + 1) < LANE {
      LaneSumFits(LaneLine(line, c), r, x);
    }
    assert Packs(line, LaneLine(line, 0), LaneLine(line, 1), LaneLine(line, 2));
    WindowLinear(line, LaneLine(line, 0), LaneLine(line, 1), LaneLine(line, 2), r, x, r);
  }

  lemma SumFits(line: seq<int>, r: nat, x: int)
    requires line != [] && PackedLine(line) && r <= 15
    ensures 0 <= WindowSum(line, r, x) < WORD
  {
    WindowSumPacks(line, r, x);
  }

  lemma AdvanceTracks(s: Sums, line: seq<Word>, r: nat, x: int)
    requires line != [] && PackedLine(line) && r <= 15 && Tracks(s, line, r, x)
    ensures Tracks(Advance(s, At(line, x - r - 1), At(line, x), At(line, x + r + 1)), line, r, x + 1)
  {
    SecondDifference(line, r, x);
    SumFits(line, r, x + 1);
    AdvanceArithmetic(s, At(line, x - r - 1), At(line, x), At(line, x + r + 1), Slope(line, r, x),
        Slope(line, r, x + 1), WindowSum(line, r, x + 1));
  }

  lemma AdvanceArithmetic(s: Sums, start: Word, middle: Word, end: Word, slope: int, next: int, sum: int)
    requires s.all == Wrap(slope) && next == slope + start - 2 * middle + end && 0 <= sum == s.sum + next < WORD
    ensures Advance(s, start, middle, end) == Sums(sum, Wrap(next))
  {
    WrapAdd(slope, start - 2 * middle + end);
    WrapAdd(next, s.sum);
  }

  /** What the accumulators hold after the samples up to index k have been added. */
  function PartialAll(line: seq<int>, r: nat, k: nat): int
    requires line != []
  {
    Slope(line, k, 0) - (r - k) * line[0]
  }

  function PartialSum(line: seq<int>, r: nat, k: nat): int
    requires line != [] && k <= r
  {
    Window(line, r, 0, k) + Triangle(r - k) * line[0]
  }

  lemma PartialBase(line: seq<int>, r: nat)
    requires line != []
    ensures PartialAll(line, r, 0) == (0 - r) * line[0]
    ensures PartialSum(line, r, 0) == line[0] * Triangle(r + 1)
  {
    TriangleStep(r);
    var v := line[0];
    assert (r + 1) * v + Triangle(r) * v == v * (Triangle(r) + r + 1);
  }

  lemma PartialStep(line: seq<int>, r: nat, k: nat)
    requires 0 < k <= r && k < |line|
    ensures PartialAll(line, r, k) == PartialAll(line, r, k - 1) + line[k]
    ensures PartialSum(line, r, k) == PartialSum(line, r, k - 1) + line[k] * (r + 1 - k)
  {
    var v, n := line[0], r - k;
    SlopeWidens(line, k, 0);
    TriangleStep(n);
    assert (n + 1) * v == n * v + v;
    assert (n + 1) * (v + line[k]) + Triangle(n) * v == Triangle(n + 1) * v + line[k] * (n + 1);
  }

  /** The accumulators after the samples up to index k. */
  ghost predicate Starting(s: Sums, line: seq<int>, r: nat, k: nat)
    requires line != [] && k <= r
  {
    s.all == Wrap(PartialAll(line, r, k)) && s.sum == Wrap(PartialSum(line, r, k))
  }

  lemma StartingStep(s: Sums, line: seq<int>, r: nat, k: nat)
    requires 0 < k <= r && k < |line| && Starting(s, line, r, k - 1)
    ensures Starting(Sums(Wrap(s.sum + line[k] * (r + 1 - k)), Wrap(s.all + line[k])), line, r, k)
  {
    PartialStep(line, r, k);
    WrapAdd(PartialSum(line, r, k - 1), line[k] * (r + 1 - k));
    WrapAdd(PartialAll(line, r, k - 1), line[k]);
  }

  lemma StartingDone(s: Sums, line: seq<int>, r: nat)
    requires line != [] && PackedLine(line) && r <= 15 && Starting(s, line, r, r)
    ensures Tracks(s, line, r, 0)
  {
    SumFits(line, r, 0);
  }

  method FirstSums(line: seq<Word>, radius: nat) returns (s: Sums)
    requires radius <= 15 && radius < |line| && PackedLine(line)
    ensures Tracks(s, line, radius, 0)
  {
    var r1 := radius + 1;
    s := Sums(Wrap(line[0] * (r1 * (r1 + 1) / 2)), Wrap((0 - radius) * line[0]));
    PartialBase(line, radius);
    for i := 1 to radius + 1
      invariant Starting(s, line, radius, i - 1)
    {
      StartingStep(s, line, radius, i);
      var cur := line[i];
      s := Sums(Wrap(s.sum + cur * (r1 - i)), Wrap(s.all + cur));
    }
    StartingDone(s, line, radius);
  }

  // ---------------------------------------------------------------- one line

  /** One output byte: the window sum of one channel, shifted right and cut to eight bits. */
  function Average(line: seq<int>, r: nat, x: int, shift: nat): Byte
    requires line != []
  {
    WindowSum(line, r, x) / Pow2(shift) % 256
  }

  lemma OutputLanes(s: Sums, line: seq<int>, r: nat, x: int, shift: nat)
    requires line != [] && PackedLine(line) && r <= 15 && Tracks(s, line, r, x) && BlurShift(shift)
    ensures ShiftRight(s.sum, shift) < 0x1_0000_0000_0000
    ensures Lane(ShiftRight(s.sum, shift), 0) == Average(LaneLine(line, 0), r, x, shift)
    ensures Lane(ShiftRight(s.sum, shift), 1) == Average(LaneLine(line, 1), r, x, shift)
    ensures Lane(ShiftRight(s.sum, shift), 2) == Average(LaneLine(line, 2), r, x, shift)
  {
    WindowSumPacks(line, r, x);
    ShiftedLanes(WindowSum(LaneLine(line, 0), r, x), WindowSum(LaneLine(line, 1), r, x),
        WindowSum(LaneLine(line, 2), r, x), shift);
  }

  function AveragePixel(line: seq<int>, r: nat, x: int, shift: nat): (v: Word)
    requires line != [] && PackedLine(line)
    ensures v < 0x1_0000_0000_0000
    ensures Lane(v, 0) == Average(LaneLine(line, 0), r, x, shift)
    ensures Lane(v, 1) == Average(LaneLine(line, 1), r, x, shift)
    ensures Lane(v, 2) == Average(LaneLine(line, 2), r, x, shift)
    ensures v == Pack(Lane(v, 0), Lane(v, 1), Lane(v, 2))
  {
    var a, b, c := Average(LaneLine(line, 0), r, x, shift), Average(LaneLine(line, 1), r, x, shift),
        Average(LaneLine(line, 2), r, x, shift);
    PackedLanes(a, b, c);
    Pack(a, b, c)
  }

  lemma MaskedOutput(s: Sums, line: seq<int>, r: nat, x: int, shift: nat)
    requires line != [] && PackedLine(line) && r <= 15 && Tracks(s, line, r, x) && BlurShift(shift)
    ensures MaskLanes(ShiftRight(s.sum, shift)) == AveragePixel(line, r, x, shift)
  {
    OutputLanes(s, line, r, x, shift);
    MaskedLanes(ShiftRight(s.sum, shift));
  }

  /** The run of the accumulators along a line, and the outputs along the way. */
  datatype Run = Run(sums: seq<Sums>, out: seq<Word>)

  /** At every position of the run, the accumulators stand there and the output is the blurred pixel. */
  ghost predicate RunsAlong(run: Run, line: seq<int>, r: nat, shift: nat)
    requires line != [] && PackedLine(line)
  {
    && |run.sums| == |line| + 1
    && |run.out| == |line|
    && (forall i {:trigger Tracks(run.sums[i], line, r, i)} :: 0 <= i <= |line| ==> Tracks(run.sums[i], line, r, i))
    && (forall i {:trigger AveragePixel(line, r, i, shift)} :: 0 <= i < |line| ==>
        run.out[i] == AveragePixel(line, r, i, shift))
  }

  function BlurredLine(line: seq<int>, r: nat, shift: nat): (out: seq<Word>)
    requires line != [] && PackedLine(line)
    ensures |out| == |line|
  {
    seq(|line|, i => AveragePixel(line, r, i, shift))
  }

  lemma RunExists(line: seq<int>, r: nat, shift: nat) returns (run: Run)
    requires line != [] && PackedLine(line) && r <= 15
    ensures RunsAlong(run, line, r, shift) && run.out == BlurredLine(line, r, shift)
  {
    forall i ensures 0 <= WindowSum(line, r, i) < WORD { SumFits(line, r, i); }
    var sums := seq(|line| + 1, i => Sums(WindowSum(line, r, i), Wrap(Slope(line, r, i))));
    run := Run(sums, BlurredLine(line, r, shift));
  }

  /** The accumulators after one update. */
  lemma RunStep(run: Run, line: seq<Word>, r: nat, shift: nat, x: nat)
    requires r <= 15 && x < |line| && PackedLine(line) && BlurShift(shift) && RunsAlong(run, line, r, shift)
    ensures run.sums[x + 1] == Advance(run.sums[x], At(line, x - r - 1), At(line, x), At(line, x + r + 1))
    ensures MaskLanes(ShiftRight(run.sums[x].sum, shift)) == run.out[x]
    ensures Lane(ShiftRight(run.sums[x].sum, shift), 0) == Lane(run.out[x], 0)
    ensures Lane(ShiftRight(run.sums[x].sum, shift), 1) == Lane(run.out[x], 1)
    ensures Lane(ShiftRight(run.sums[x].sum, shift), 2) == Lane(run.out[x], 2)
  {
    assert Tracks(run.sums[x], line, r, x) && Tracks(run.sums[x + 1], line, r, x + 1);
    AdvanceTracks(run.sums[x], line, r, x);
    OutputLanes(run.sums[x], line, r, x, shift);
    MaskedOutput(run.sums[x], line, r, x, shift);
  }

  /** The first n outputs of the line are stored from base on, and nothing else moved. */
  ghost predicate LineStored(out: seq<Word>, base: nat, n: nat, before: seq<Word>, after: seq<Word>) {
    && n <= |out|
    && base + |out| <= |after| == |before|
    && (forall i :: 0 <= i < n ==> after[base + i] == out[i])
    && (forall k :: 0 <= k < |after| && !(base <= k < base + n) ==> after[k] == before[k])
  }

  /** The update step of the first pass: store the output at x, then slide the window by one. */
  method UpdateRow(line: seq<Word>, radius: nat, shift: nat, s: Sums, rgb: array<Word>, base: nat, x: nat, start: nat,
      end: nat,
                   ghost run: Run, ghost before: seq<Word>)
    returns (next: Sums)
    requires radius <= 15 && x < |line| && PackedLine(line) && BlurShift(shift) && RunsAlong(run, line, radius, shift)
    requires start == Clamp(x - radius - 1, |line|) && end == Clamp(x + radius + 1, |line|)
    requires s == run.sums[x] && LineStored(run.out, base, x, before, rgb[..])
    modifies rgb
    ensures next == run.sums[x + 1]
    ensures LineStored(run.out, base, x + 1, before, rgb[..])
  {
    RunStep(run, line, radius, shift, x);
    rgb[base + x] := MaskLanes(ShiftRight(s.sum, shift));
    next := Advance(s, line[start], line[x], line[end]);
  }

  /** One row of the first pass.  The line is the row of packed colours; its blur goes to rgb[base..]. */
  method BlurRow(line: seq<Word>, radius: nat, shift: nat, rgb: array<Word>, base: nat, ghost run: Run)
    requires radius <= 15 && 2 * radius + 1 < |line| && PackedLine(line) && BlurShift(shift)
    requires RunsAlong(run, line, radius, shift)
    requires base + |line| <= rgb.Length
    modifies rgb
    ensures LineStored(run.out, base, |line|, old(rgb[..]), rgb[..])
  {
    var w, r1 := |line|, radius + 1;
    var we := w - r1;
    var s := FirstSums(line, radius);
    assert Tracks(run.sums[0], line, radius, 0);
    ghost var before := rgb[..];
    var x := 0;
    while x < r1
      invariant 0 <= x <= r1 && s == run.sums[x]
      invariant LineStored(run.out, base, x, before, rgb[..])
    {
      s := UpdateRow(line, radius, shift, s, rgb, base, x, 0, x + r1, run, before);
      x := x + 1;
    }
    while x < we
      invariant r1 <= x <= we && s == run.sums[x]
      invariant LineStored(run.out, base, x, before, rgb[..])
    {
      s := UpdateRow(line, radius, shift, s, rgb, base, x, x - r1, x + r1, run, before);
      x := x + 1;
    }
    while x < w
      invariant we <= x <= w && r1 <= x && s == run.sums[x]
      invariant LineStored(run.out, base, x, before, rgb[..])
    {
      s := UpdateRow(line, radius, shift, s, rgb, base, x, x - r1, w - 1, run, before);
      x := x + 1;
    }
  }

  // ---------------------------------------------------------------- the image

  /** Where the pixel at (x, y) starts, in an image whose rows have no padding. */
  function Offset(f: Format, w: nat, x: nat, y: nat): nat {
    y * (PixelSize(f) * w) + x * PixelSize(f)
  }

  lemma OffsetInRange(f: Format, w: nat, h: nat, x: nat, y: nat)
    requires x < w && y < h
    ensures Offset(f, w, x, y) + PixelSize(f) <= h * (PixelSize(f) * w)
  {
    var row := PixelSize(f) * w;
    assert (y + 1) * row <= h * row;
  }

  /** Different pixels do not overlap. */
  lemma OffsetsApart(f: Format, w: nat, x: nat, y: nat, x': nat, y': nat)
    requires x < w && x' < w && (x != x' || y != y')
    ensures var here, there := Offset(f, w, x, y), Offset(f, w, x', y');
            here + PixelSize(f) <= there || there + PixelSize(f) <= here
  {
    var row := PixelSize(f) * w;
    if y < y' {
      assert (y + 1) * row <= y' * row;
    } else if y' < y {
      assert (y' + 1) * row <= y * row;
    }
  }

  /** The column pass has stored the colours of all pixels in columns left of x and of the first y pixels of column x;
      outs[x][y] is the packed colour for (x, y).  Everything else, alpha bytes included, is as it was. */
  ghost predicate Stored(f: Format, w: nat, h: nat, outs: seq<seq<Word>>, x: nat, y: nat, before: seq<Byte>,
      after: seq<Byte>)
    requires |outs| == w && forall i :: 0 <= i < w ==> |outs[i]| == h
  {
    && |after| == |before| >= h * (PixelSize(f) * w)
    && (forall k :: h * (PixelSize(f) * w) <= k < |after| ==> after[k] == before[k])
    && (forall i, j, b :: 0 <= i < w && 0 <= j < h && 0 <= b < PixelSize(f) ==>
          ByteStored(f, w, h, outs, x, y, before, after, i, j, b))
  }

  ghost predicate ByteStored(f: Format, w: nat, h: nat, outs: seq<seq<Word>>, x: nat, y: nat, before: seq<Byte>,
      after: seq<Byte>, i: nat, j: nat, b: nat)
    requires |outs| == w && (forall i :: 0 <= i < w ==> |outs[i]| == h)
    requires |after| == |before| >= h * (PixelSize(f) * w) && i < w && j < h && b < PixelSize(f)
  {
    OffsetInRange(f, w, h, i, j);
    after[Offset(f, w, i, j) + b]
      == if b < ColorBytes(f) && (i < x || (i == x && j < y))
         then PixelByte(f, Lane(outs[i][j], 0), Lane(outs[i][j], 1), Lane(outs[i][j], 2), b)
         else before[Offset(f, w, i, j) + b]
  }

  lemma StoreStep(f: Format, w: nat, h: nat, outs: seq<seq<Word>>, x: nat, y: nat, before: seq<Byte>, mid: seq<Byte>,
      after: seq<Byte>)
    requires |outs| == w && (forall i :: 0 <= i < w ==> |outs[i]| == h) && x < w && y < h
    requires Stored(f, w, h, outs, x, y, before, mid) && |after| == |mid|
    requires Offset(f, w, x, y) + PixelSize(f) <= |after|
    requires forall b :: 0 <= b < ColorBytes(f) ==>
               after[Offset(f, w, x, y) + b]
                   == PixelByte(f, Lane(outs[x][y], 0), Lane(outs[x][y], 1), Lane(outs[x][y], 2), b)
    requires forall k :: 0 <= k < |after| && !(Offset(f, w, x, y) <= k < Offset(f, w, x, y) + ColorBytes(f)) ==>
              after[k] == mid[k]
    ensures Stored(f, w, h, outs, x, y + 1, before, after)
  {
    OffsetInRange(f, w, h, x, y);
    var next := y + 1;
    forall i, j, b | 0 <= i < w && 0 <= j < h && 0 <= b < PixelSize(f)
      ensures ByteStored(f, w, h, outs, x, next, before, after, i, j, b)
    {
      assert ByteStored(f, w, h, outs, x, y, before, mid, i, j, b);
      OffsetInRange(f, w, h, i, j);
      if i != x || j != y {
        OffsetsApart(f, w, x, y, i, j);
      }
    }
  }

  lemma NextColumn(f: Format, w: nat, h: nat, outs: seq<seq<Word>>, x: nat, before: seq<Byte>, after: seq<Byte>)
    requires |outs| == w && (forall i :: 0 <= i < w ==> |outs[i]| == h) && x < w
    requires Stored(f, w, h, outs, x, h, before, after)
    ensures Stored(f, w, h, outs, x + 1, 0, before, after)
  {
    var next := x + 1;
    forall i, j, b | 0 <= i < w && 0 <= j < h && 0 <= b < PixelSize(f)
      ensures ByteStored(f, w, h, outs, next, 0, before, after, i, j, b)
    {
      assert ByteStored(f, w, h, outs, x, h, before, after, i, j, b);
    }
  }

  /** The update step of the second pass: store the pixel at (x, y), then slide the window by one. */
  method UpdateColumn(f: Format, w: nat, line: seq<Word>, radius: nat, shift: nat, s: Sums, pix: array<Byte>, x: nat,
      y: nat, start: nat, end: nat,
                      ghost run: Run, ghost outs: seq<seq<Word>>, ghost before: seq<Byte>)
    returns (next: Sums)
    requires radius <= 15 && y < |line| && PackedLine(line) && BlurShift(shift) && RunsAlong(run, line, radius, shift)
    requires start == Clamp(y - radius - 1, |line|) && end == Clamp(y + radius + 1, |line|)
    requires s == run.sums[y]
    requires |outs| == w && (forall i :: 0 <= i < w ==> |outs[i]| == |line|) && x < w && outs[x] == run.out
    requires Stored(f, w, |line|, outs, x, y, before, pix[..])
    modifies pix
    ensures next == run.sums[y + 1]
    ensures Stored(f, w, |line|, outs, x, y + 1, before, pix[..])
  {
    RunStep(run, line, radius, shift, y);
    OffsetInRange(f, w, |line|, x, y);
    ghost var mid := pix[..];
    StorePixel(f, ShiftRight(s.sum, shift), pix, Offset(f, w, x, y));
    StoreStep(f, w, |line|, outs, x, y, before, mid, pix[..]);
    next := Advance(s, line[start], line[y], line[end]);
  }

  /** One column of the second pass.  The line is the column of the scratch image. */
  method BlurColumn(f: Format, w: nat, line: seq<Word>, radius: nat, shift: nat, pix: array<Byte>, x: nat,
                    ghost run: Run, ghost outs: seq<seq<Word>>, ghost before: seq<Byte>)
    requires radius <= 15 && 2 * radius + 1 < |line| && PackedLine(line) && BlurShift(shift)
    requires RunsAlong(run, line, radius, shift)
    requires |outs| == w && (forall i :: 0 <= i < w ==> |outs[i]| == |line|) && x < w && outs[x] == run.out
    requires Stored(f, w, |line|, outs, x, 0, before, pix[..])
    modifies pix
    ensures Stored(f, w, |line|, outs, x + 1, 0, before, pix[..])
  {
    var h, r1 := |line|, radius + 1;
    var he := h - r1;
    var s := FirstSums(line, radius);
    assert Tracks(run.sums[0], line, radius, 0);
    var y := 0;
    while y < r1
      invariant 0 <= y <= r1 && s == run.sums[y]
      invariant Stored(f, w, h, outs, x, y, before, pix[..])
    {
      s := UpdateColumn(f, w, line, radius, shift, s, pix, x, y, 0, y + r1, run, outs, before);
      y := y + 1;
    }
    while y < he
      invariant r1 <= y <= he && s == run.sums[y]
      invariant Stored(f, w, h, outs, x, y, before, pix[..])
    {
      s := UpdateColumn(f, w, line, radius, shift, s, pix, x, y, y - r1, y + r1, run, outs, before);
      y := y + 1;
    }
    while y < h
      invariant he <= y <= h && r1 <= y && s == run.sums[y]
      invariant Stored(f, w, h, outs, x, y, before, pix[..])
    {
      s := UpdateColumn(f, w, line, radius, shift, s, pix, x, y, y - r1, h - 1, run, outs, before);
      y := y + 1;
    }
    NextColumn(f, w, h, outs, x, before, pix[..]);
  }

  // ---------------------------------------------------------------- the two passes

  function Row(f: Format, s: seq<Byte>, w: nat, h: nat, y: nat): (line: seq<Word>)
    requires y < h && h * (PixelSize(f) * w) <= |s|
    ensures |line| == w
  {
    seq(w, x requires 0 <= x < w => OffsetInRange(f, w, h, x, y); Colors(f, s, Offset(f, w, x, y)))
  }

  /** One channel of a row, as 8-bit samples. */
  function ChannelRow(f: Format, s: seq<Byte>, w: nat, h: nat, y: nat, c: nat): (line: seq<Byte>)
    requires y < h && h * (PixelSize(f) * w) <= |s| && c < 3
    ensures |line| == w
  {
    seq(w, x requires 0 <= x < w => OffsetInRange(f, w, h, x, y); Channel(f, s, Offset(f, w, x, y), c))
  }

  lemma RowIsPacked(f: Format, s: seq<Byte>, w: nat, h: nat, y: nat)
    requires y < h && h * (PixelSize(f) * w) <= |s|
    ensures PackedLine(Row(f, s, w, h, y))
    ensures forall c :: 0 <= c < 3 ==> LaneLine(Row(f, s, w, h, y), c) == ChannelRow(f, s, w, h, y, c)
  {
    var line := Row(f, s, w, h, y);
    forall x | 0 <= x < w
      ensures line[x] < 0x1_0000_0000_0000
      ensures forall c :: 0 <= c < 3 ==> Lane(line[x], c) == ChannelRow(f, s, w, h, y, c)[x]
      ensures line[x] == Pack(Lane(line[x], 0), Lane(line[x], 1), Lane(line[x], 2))
    {
      OffsetInRange(f, w, h, x, y);
      var pos := Offset(f, w, x, y);
      ColorsPackChannels(f, s, pos);
      PackedLanes(Channel(f, s, pos, 0), Channel(f, s, pos, 1), Channel(f, s, pos, 2));
    }
  }

  /** The scratch image after the first pass. */
  function BlurredRow(f: Format, s: seq<Byte>, w: nat, h: nat, r: nat, shift: nat, y: nat): (line: seq<Word>)
    requires 0 < w && y < h && h * (PixelSize(f) * w) <= |s|
    ensures |line| == w
  {
    RowIsPacked(f, s, w, h, y);
    BlurredLine(Row(f, s, w, h, y), r, shift)
  }

  function BlurredRows(f: Format, s: seq<Byte>, w: nat, h: nat, r: nat, shift: nat): (rows: seq<seq<Word>>)
    requires 0 < w && h * (PixelSize(f) * w) <= |s|
    ensures |rows| == h && forall y :: 0 <= y < h ==> |rows[y]| == w
  {
    seq(h, y requires 0 <= y < h => BlurredRow(f, s, w, h, r, shift, y))
  }

  function Index(w: nat, x: nat, y: nat): nat {
    y * w + x
  }

  lemma IndexInRange(w: nat, h: nat, x: nat, y: nat)
    requires x < w && y < h
    ensures Index(w, x, y) < w * h && y * w + w <= w * h
  {
    assert (y + 1) * w <= h * w;
  }

  /** The first n rows of the scratch image are in place. */
  ghost predicate RowsDone(rgb: seq<Word>, w: nat, h: nat, rows: seq<seq<Word>>, n: nat)
    requires |rgb| == w * h && |rows| == h && n <= h && forall y :: 0 <= y < h ==> |rows[y]| == w
  {
    forall x, y :: 0 <= x < w && 0 <= y < n ==> (IndexInRange(w, h, x, y); rgb[Index(w, x, y)] == rows[y][x])
  }

  lemma RowsDoneStep(before: seq<Word>, after: seq<Word>, w: nat, h: nat, rows: seq<seq<Word>>, n: nat)
    requires |before| == |after| == w * h && |rows| == h && n < h && forall y :: 0 <= y < h ==> |rows[y]| == w
    requires RowsDone(before, w, h, rows, n) && LineStored(rows[n], n * w, w, before, after)
    ensures RowsDone(after, w, h, rows, n + 1)
  {
    forall x, y | 0 <= x < w && 0 <= y < n + 1
      ensures Index(w, x, y) < w * h && after[Index(w, x, y)] == rows[y][x]
    {
      IndexInRange(w, h, x, y);
      if y < n {
        IndexBefore(w, x, y, n);
      } else {
        assert after[n * w + x] == rows[n][x];
      }
    }
  }

  lemma IndexBefore(w: nat, x: nat, y: nat, n: nat)
    requires x < w && y < n
    ensures Index(w, x, y) < n * w
  {
    assert (y + 1) * w <= n * w;
  }

  method RowPass(f: Format, w: nat, h: nat, pix: array<Byte>, radius: nat, shift: nat, rgb: array<Word>)
    requires radius <= 15 && 2 * radius + 1 < w && BlurShift(shift)
    requires h * (PixelSize(f) * w) <= pix.Length && rgb.Length == w * h
    modifies rgb
    ensures RowsDone(rgb[..], w, h, BlurredRows(f, pix[..], w, h, radius, shift), h)
  {
    ghost var rows := BlurredRows(f, pix[..], w, h, radius, shift);
    for y := 0 to h
      invariant RowsDone(rgb[..], w, h, rows, y)
    {
      var line := Row(f, pix[..], w, h, y);
      RowIsPacked(f, pix[..], w, h, y);
      ghost var run := RunExists(line, radius, shift);
      IndexInRange(w, h, 0, y);
      ghost var before := rgb[..];
      BlurRow(line, radius, shift, rgb, y * w, run);
      RowsDoneStep(before, rgb[..], w, h, rows, y);
    }
  }

  /** Column x of the scratch image. */
  function Column(rows: seq<seq<Word>>, w: nat, x: nat): (line: seq<Word>)
    requires x < w && forall y :: 0 <= y < |rows| ==> |rows[y]| == w
    ensures |line| == |rows|
  {
    seq(|rows|, y requires 0 <= y < |rows| => rows[y][x])
  }

  predicate PackedRows(rows: seq<seq<Word>>) {
    forall y :: 0 <= y < |rows| ==> PackedLine(rows[y])
  }

  lemma ColumnIsPacked(rows: seq<seq<Word>>, w: nat, x: nat)
    requires x < w && PackedRows(rows) && forall y :: 0 <= y < |rows| ==> |rows[y]| == w
    ensures PackedLine(Column(rows, w, x))
  {
  }

  /** The packed colours that the second pass stores, column by column. */
  function BlurredColumns(rows: seq<seq<Word>>, w: nat, r: nat, shift: nat): (outs: seq<seq<Word>>)
    requires rows != [] && PackedRows(rows) && forall y :: 0 <= y < |rows| ==> |rows[y]| == w
    ensures |outs| == w && forall x :: 0 <= x < w ==> |outs[x]| == |rows|
  {
    seq(w, x requires 0 <= x < w => ColumnIsPacked(rows, w, x); BlurredLine(Column(rows, w, x), r, shift))
  }

  method ColumnPass(f: Format, w: nat, h: nat, pix: array<Byte>, radius: nat, shift: nat, rgb: array<Word>,
      ghost rows: seq<seq<Word>>)
    requires radius <= 15 && 2 * radius + 1 < h && BlurShift(shift)
    requires h * (PixelSize(f) * w) <= pix.Length && rgb.Length == w * h
    requires |rows| == h && PackedRows(rows) && (forall y :: 0 <= y < h ==> |rows[y]| == w)
    requires RowsDone(rgb[..], w, h, rows, h)
    modifies pix
    ensures Stored(f, w, h, BlurredColumns(rows, w, radius, shift), w, 0, old(pix[..]), pix[..])
  {
    ghost var outs := BlurredColumns(rows, w, radius, shift);
    ghost var before := pix[..];
    for x := 0 to w
      invariant Stored(f, w, h, outs, x, 0, before, pix[..])
    {
      var scratch := rgb[..];
      var line := seq(h, y requires 0 <= y < h => IndexInRange(w, h, x, y); scratch[Index(w, x, y)]);
      assert line == Column(rows, w, x);
      ColumnIsPacked(rows, w, x);
      ghost var run := RunExists(line, radius, shift);
      BlurColumn(f, w, line, radius, shift, pix, x, run, outs, before);
    }
  }
}
