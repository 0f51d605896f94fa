/** What the four blur functions leave in the pixels, and what that means for the picture. */
module FastBlurs {
  import opened Numbers
  import opened WindowSums
  import opened PackedColors
  import opened StackBlur

  // ---------------------------------------------------------------- the blurred colours

  /** Column x of one channel after the rows have been blurred. */
  function RowAverages(f: Format, s: seq<Byte>, w: nat, h: nat, r: nat, shift: nat, x: nat, c: nat): (line: seq<Byte>)
    requires 0 < w && h * (PixelSize(f) * w) <= |s| && c < 3
    ensures |line| == h
  {
    seq(h, y requires 0 <= y < h => Average(ChannelRow(f, s, w, h, y, c), r, x, shift))
  }

  /** Channel c of the output pixel: blur the rows, then the column, cutting to a byte after each. */
  function ShiftedBlur(f: Format, s: seq<Byte>, w: nat, h: nat, r: nat, shift: nat, x: nat, y: nat, c: nat): Byte
    requires 0 < w && 0 < h && h * (PixelSize(f) * w) <= |s| && c < 3
  {
    Average(RowAverages(f, s, w, h, r, shift, x, c), r, y, shift)
  }

  /** The clamped-edge triangular average: the weights sum to (r + 1) squared. */
  function TriangularAverage(line: seq<int>, r: nat, x: int): int
    requires line != []
  {
    WindowSum(line, r, x) / Total(r)
  }

  function Total(r: nat): (n: int)
    ensures n == Square(r + 1) > 0
  {
    (r + 1) * (r + 1)
  }

  function TriangularRows(f: Format, s: seq<Byte>, w: nat, h: nat, r: nat, x: nat, c: nat): (line: seq<int>)
    requires 0 < w && h * (PixelSize(f) * w) <= |s| && c < 3
    ensures |line| == h
  {
    seq(h, y requires 0 <= y < h => TriangularAverage(ChannelRow(f, s, w, h, y, c), r, x))
  }

  function TriangularBlur(f: Format, s: seq<Byte>, w: nat, h: nat, r: nat, x: nat, y: nat, c: nat): int
    requires 0 < w && 0 < h && h * (PixelSize(f) * w) <= |s| && c < 3
  {
    TriangularAverage(TriangularRows(f, s, w, h, r, x, c), r, y)
  }

  // ---------------------------------------------------------------- averages

  lemma QuotientBounds(lo: int, v: int, hi: int, n: int)
    requires 0 < n && lo * n <= v <= hi * n
    ensures lo <= v / n <= hi
  {
    AtLeast(n, v / n - hi);
    AtLeast(n, lo - v / n);
    assert n * (v / n) + v % n == v;
    assert n * (v / n - hi) == n * (v / n) - hi * n && n * (lo - v / n) == lo * n - n * (v / n);
  }

  /** A triangular average lies between the least and the greatest sample under its window. */
  lemma AverageBetween(line: seq<int>, r: nat, x: int, lo: int, hi: int)
    requires line != [] && Within(line, r, x, lo, hi)
    ensures lo <= TriangularAverage(line, r, x) <= hi
  {
    WindowSumBounds(line, r, x, lo, hi);
    QuotientBounds(lo, WindowSum(line, r, x), hi, Total(r));
  }

  lemma ExactAverage(line: seq<Byte>, r: nat, x: int, shift: nat)
    requires line != [] && Pow2(shift) == Square(r + 1)
    ensures Average(line, r, x, shift) == TriangularAverage(line, r, x)
  {
    assert Within(line, r, x, 0, 255);
    AverageBetween(line, r, x, 0, 255);
  }

  /** With the divisor equal to the sum of the weights, both passes are exact. */
  lemma ExactBlur(f: Format, s: seq<Byte>, w: nat, h: nat, r: nat, shift: nat, x: nat, y: nat, c: nat)
    requires 0 < w && 0 < h && h * (PixelSize(f) * w) <= |s| && c < 3 && Pow2(shift) == Square(r + 1)
    ensures ShiftedBlur(f, s, w, h, r, shift, x, y, c) == TriangularBlur(f, s, w, h, r, x, y, c)
  {
    forall j | 0 <= j < h
      ensures RowAverages(f, s, w, h, r, shift, x, c)[j] == TriangularRows(f, s, w, h, r, x, c)[j]
    {
      ExactAverage(ChannelRow(f, s, w, h, j, c), r, x, shift);
    }
    assert RowAverages(f, s, w, h, r, shift, x, c) == TriangularRows(f, s, w, h, r, x, c);
    ExactAverage(RowAverages(f, s, w, h, r, shift, x, c), r, y, shift);
  }

  /** Column x of one channel after the rows have been blurred by the divisor 64, nothing being cut to a byte. */
  function PlainRows(f: Format, s: seq<Byte>, w: nat, h: nat, r: nat, x: nat, c: nat): (line: seq<int>)
    requires 0 < w && h * (PixelSize(f) * w) <= |s| && c < 3
    ensures |line| == h
  {
    seq(h, y requires 0 <= y < h => WindowSum(ChannelRow(f, s, w, h, y, c), r, x) / 64)
  }

  /** What fastBlurMore would compute with room for every quotient. */
  function PlainBlur(f: Format, s: seq<Byte>, w: nat, h: nat, r: nat, x: nat, y: nat, c: nat): int
    requires 0 < w && 0 < h && h * (PixelSize(f) * w) <= |s| && c < 3
  {
    WindowSum(PlainRows(f, s, w, h, r, x, c), r, y) / 64
  }

  lemma QuotientFits(line: seq<Byte>, r: nat, x: int)
    requires line != [] && r <= 7
    ensures Average(line, r, x, 6) == WindowSum(line, r, x) / 64
  {
    BlurDivisors();
    assert Within(line, r, x, 0, 255);
    WindowSumBounds(line, r, x, 0, 255);
    assert Square(r + 1) <= 8 * (r + 1) <= 64;
  }

  lemma PlainUpToRadius7(f: Format, s: seq<Byte>, w: nat, h: nat, r: nat, x: nat, y: nat, c: nat)
    requires 0 < w && 0 < h && h * (PixelSize(f) * w) <= |s| && c < 3 && r <= 7
    ensures ShiftedBlur(f, s, w, h, r, 6, x, y, c) == PlainBlur(f, s, w, h, r, x, y, c)
  {
    var averages, plain := RowAverages(f, s, w, h, r, 6, x, c), PlainRows(f, s, w, h, r, x, c);
    forall j | 0 <= j < h ensures averages[j] == plain[j] {
      QuotientFits(ChannelRow(f, s, w, h, j, c), r, x);
    }
    assert averages == plain;
    QuotientFits(averages, r, y);
  }

  /** A window over samples of 255 or more, at a radius above 7, has a quotient above 255. */
  lemma QuotientOverflows(line: seq<int>, r: nat, x: int)
    requires line != [] && r > 7 && forall i :: 0 <= i < |line| ==> 255 <= line[i]
    ensures WindowSum(line, r, x) / 64 > 255
  {
    var most := Greatest(line);
    assert Within(line, r, x, 255, most);
    WindowSumBounds(line, r, x, 255, most);
    assert Square(r + 1) >= 9 * (r + 1) >= 81;
  }

  lemma {:induction false} Greatest(line: seq<int>) returns (most: int)
    ensures forall i :: 0 <= i < |line| ==> line[i] <= most
  {
    most := 0;
    if line != [] {
      var rest := Greatest(line[1..]);
      most := if line[0] > rest then line[0] else rest;
      assert forall i :: 0 < i < |line| ==> line[i] == line[1..][i - 1];
    }
  }

  /** A picture that is white all over. */
  function White(f: Format, w: nat, h: nat): (s: seq<Byte>)
    ensures |s| == h * (PixelSize(f) * w)
  {
    seq(h * (PixelSize(f) * w), _ => 255)
  }

  lemma WhiteOverflows(f: Format, w: nat, h: nat, r: nat, x: nat, y: nat, c: nat)
    requires 0 < w && 0 < h && c < 3 && r > 7
    ensures forall j :: 0 <= j < h ==> PlainRows(f, White(f, w, h), w, h, r, x, c)[j] > 255
    ensures PlainBlur(f, White(f, w, h), w, h, r, x, y, c) > 255
  {
    var s := White(f, w, h);
    forall j | 0 <= j < h ensures PlainRows(f, s, w, h, r, x, c)[j] > 255 {
      var row := ChannelRow(f, s, w, h, j, c);
      forall i | 0 <= i < w ensures row[i] == 255 {
        OffsetInRange(f, w, h, i, j);
      }
      QuotientOverflows(row, r, x);
    }
    QuotientOverflows(PlainRows(f, s, w, h, r, x, c), r, y);
  }

  /** For the pictures of any size that fastBlurMore accepts, both quotients by 64 fit into a byte, for every picture of
      that size, if and only if the radius is at most 7. */
  lemma NoWrapUpToRadius7(f: Format, w: nat, h: nat, r: nat)
    requires Accepted(f, w, h, PixelSize(f) * w, r)
    ensures (forall s: seq<Byte>, x, y, c :: |s| == h * (PixelSize(f) * w) && 0 <= x < w && 0 <= y < h && 0 <= c < 3 ==>
               ShiftedBlur(f, s, w, h, r, 6, x, y, c) == PlainBlur(f, s, w, h, r, x, y, c))
       <==> r <= 7
  {
    if r <= 7 {
      forall s: seq<Byte>, x, y, c | |s| == h * (PixelSize(f) * w) && 0 <= x < w && 0 <= y < h && 0 <= c < 3
        ensures ShiftedBlur(f, s, w, h, r, 6, x, y, c) == PlainBlur(f, s, w, h, r, x, y, c)
      {
        PlainUpToRadius7(f, s, w, h, r, x, y, c);
      }
    } else {
      WhiteOverflows(f, w, h, r, 0, 0, 0);
      var s := White(f, w, h);
      assert ShiftedBlur(f, s, w, h, r, 6, 0, 0, 0) != PlainBlur(f, s, w, h, r, 0, 0, 0);
    }
  }

  // ---------------------------------------------------------------- the picture

  /** Every sample of the clamped square of radius r around (x, y) lies between lo and hi. */
  ghost predicate NeighboursWithin(f: Format, s: seq<Byte>, w: nat, h: nat, r: nat, x: nat, y: nat, c: nat, lo: int,
      hi: int)
    requires 0 < w && 0 < h && h * (PixelSize(f) * w) <= |s| && c < 3
  {
    forall i, j :: x - r <= i <= x + r && y - r <= j <= y + r ==>
      lo <= At(ChannelRow(f, s, w, h, Clamp(j, h), c), i) <= hi
  }

  /** A blurred channel lies between the least and the greatest value of the channel in the neighbourhood. */
  lemma BlurBetween(f: Format, s: seq<Byte>, w: nat, h: nat, r: nat, x: nat, y: nat, c: nat, lo: int, hi: int)
    requires 0 < w && 0 < h && h * (PixelSize(f) * w) <= |s| && c < 3
    requires NeighboursWithin(f, s, w, h, r, x, y, c, lo, hi)
    ensures lo <= TriangularBlur(f, s, w, h, r, x, y, c) <= hi
  {
    var line := TriangularRows(f, s, w, h, r, x, c);
    forall j | y - r <= j <= y + r ensures lo <= At(line, j) <= hi {
      var row := ChannelRow(f, s, w, h, Clamp(j, h), c);
      assert Within(row, r, x, lo, hi);
      AverageBetween(row, r, x, lo, hi);
    }
    AverageBetween(line, r, y, lo, hi);
  }

  lemma BlurIsByte(f: Format, s: seq<Byte>, w: nat, h: nat, r: nat, x: nat, y: nat, c: nat)
    requires 0 < w && 0 < h && h * (PixelSize(f) * w) <= |s| && c < 3
    ensures 0 <= TriangularBlur(f, s, w, h, r, x, y, c) < 256
  {
    BlurBetween(f, s, w, h, r, x, y, c, 0, 255);
  }

  /** after is before with the colour bytes of every pixel replaced by its blurred colour; alpha and any bytes past
      the pixels are as they were. */
  ghost predicate ShiftedPicture(f: Format, w: nat, h: nat, r: nat, shift: nat, before: seq<Byte>, after: seq<Byte>)
    requires 0 < w && 0 < h
  {
    && |after| == |before| >= h * (PixelSize(f) * w)
    && (forall k :: h * (PixelSize(f) * w) <= k < |after| ==> after[k] == before[k])
    && (forall x, y, b :: 0 <= x < w && 0 <= y < h && 0 <= b < PixelSize(f) ==>
        ShiftedByte(f, w, h, r, shift, before, after, x, y, b))
  }

  ghost predicate ShiftedByte(f: Format, w: nat, h: nat, r: nat, shift: nat, before: seq<Byte>, after: seq<Byte>,
      x: nat, y: nat, b: nat)
    requires |after| == |before| >= h * (PixelSize(f) * w) && x < w && y < h && b < PixelSize(f)
  {
    OffsetInRange(f, w, h, x, y);
    after[Offset(f, w, x, y) + b]
      == if b < ColorBytes(f)
         then PixelByte(f, ShiftedBlur(f, before, w, h, r, shift, x, y, 0),
             ShiftedBlur(f, before, w, h, r, shift, x, y, 1),
                        ShiftedBlur(f, before, w, h, r, shift, x, y, 2), b)
         else before[Offset(f, w, x, y) + b]
  }

  ghost predicate TriangularPicture(f: Format, w: nat, h: nat, r: nat, before: seq<Byte>, after: seq<Byte>)
    requires 0 < w && 0 < h
  {
    && |after| == |before| >= h * (PixelSize(f) * w)
    && (forall k :: h * (PixelSize(f) * w) <= k < |after| ==> after[k] == before[k])
    && (forall x, y, b :: 0 <= x < w && 0 <= y < h && 0 <= b < PixelSize(f) ==>
        TriangularByte(f, w, h, r, before, after, x, y, b))
  }

  ghost predicate TriangularByte(f: Format, w: nat, h: nat, r: nat, before: seq<Byte>, after: seq<Byte>, x: nat,
      y: nat, b: nat)
    requires |after| == |before| >= h * (PixelSize(f) * w) && x < w && y < h && b < PixelSize(f)
  {
    OffsetInRange(f, w, h, x, y);
    BlurIsByte(f, before, w, h, r, x, y, 0);
    BlurIsByte(f, before, w, h, r, x, y, 1);
    BlurIsByte(f, before, w, h, r, x, y, 2);
    after[Offset(f, w, x, y) + b]
      == if b < ColorBytes(f)
         then PixelByte(f, TriangularBlur(f, before, w, h, r, x, y, 0), TriangularBlur(f, before, w, h, r, x, y, 1),
                        TriangularBlur(f, before, w, h, r, x, y, 2), b)
         else before[Offset(f, w, x, y) + b]
  }

  /** A shift by the logarithm of the total weight gives the triangular picture. */
  lemma ExactPicture(f: Format, w: nat, h: nat, r: nat, shift: nat, before: seq<Byte>, after: seq<Byte>)
    requires 0 < w && 0 < h && Pow2(shift) == Square(r + 1) && ShiftedPicture(f, w, h, r, shift, before, after)
    ensures TriangularPicture(f, w, h, r, before, after)
  {
    forall x, y, b | 0 <= x < w && 0 <= y < h && 0 <= b < PixelSize(f)
      ensures TriangularByte(f, w, h, r, before, after, x, y, b)
    {
      assert ShiftedByte(f, w, h, r, shift, before, after, x, y, b);
      ExactBlur(f, before, w, h, r, shift, x, y, 0);
      ExactBlur(f, before, w, h, r, shift, x, y, 1);
      ExactBlur(f, before, w, h, r, shift, x, y, 2);
    }
  }

  // ---------------------------------------------------------------- the functions

  lemma StoredColours(f: Format, s: seq<Byte>, w: nat, h: nat, r: nat, shift: nat, x: nat, y: nat, c: nat)
    requires 0 < w && 0 < h && h * (PixelSize(f) * w) <= |s| && c < 3 && x < w && y < h
    ensures PackedRows(BlurredRows(f, s, w, h, r, shift))
    ensures Lane(BlurredColumns(BlurredRows(f, s, w, h, r, shift), w, r, shift)[x][y], c)
              == ShiftedBlur(f, s, w, h, r, shift, x, y, c)
  {
    var rows := BlurredRows(f, s, w, h, r, shift);
    forall j | 0 <= j < h
      ensures PackedLine(rows[j]) && Lane(rows[j][x], c) == Average(ChannelRow(f, s, w, h, j, c), r, x, shift)
    {
      RowIsPacked(f, s, w, h, j);
      assert rows[j] == BlurredLine(Row(f, s, w, h, j), r, shift);
    }
    ColumnIsPacked(rows, w, x);
    assert LaneLine(Column(rows, w, x), c) == RowAverages(f, s, w, h, r, shift, x, c);
  }

  method BlurPasses(f: Format, w: nat, h: nat, pix: array<Byte>, radius: nat, shift: nat)
    requires radius <= 15 && 2 * radius + 1 < w && 2 * radius + 1 < h && BlurShift(shift)
    requires h * (PixelSize(f) * w) <= pix.Length
    modifies pix
    ensures ShiftedPicture(f, w, h, radius, shift, old(pix[..]), pix[..])
  {
    ghost var before := pix[..];
    var rgb := new Word[w * h];
    RowPass(f, w, h, pix, radius, shift, rgb);
    ghost var rows := BlurredRows(f, before, w, h, radius, shift);
    StoredColours(f, before, w, h, radius, shift, 0, 0, 0);
    ColumnPass(f, w, h, pix, radius, shift, rgb, rows);
    forall x, y, b | 0 <= x < w && 0 <= y < h && 0 <= b < PixelSize(f)
      ensures ShiftedByte(f, w, h, radius, shift, before, pix[..], x, y, b)
    {
      assert ByteStored(f, w, h, BlurredColumns(rows, w, radius, shift), w, 0, before, pix[..], x, y, b);
      StoredColours(f, before, w, h, radius, shift, x, y, 0);
      StoredColours(f, before, w, h, radius, shift, x, y, 1);
      StoredColours(f, before, w, h, radius, shift, x, y, 2);
    }
  }

  predicate Accepted(f: Format, w: int, h: int, stride: int, radius: int) {
    radius <= 15 && 2 * radius + 1 < w && 2 * radius + 1 < h && w * h <= 150 * 150 && stride <= PixelSize(f) * w
  }

  /** The guard at its limits. */
  lemma AcceptedAtTheLimits(f: Format)
    ensures Accepted(f, 150, 150, PixelSize(f) * 150, 15) && Accepted(f, 32, 32, PixelSize(f) * 32, 15)
    ensures Accepted(f, 4, 5625, PixelSize(f) * 4, 1)
    ensures !Accepted(f, 150, 151, PixelSize(f) * 150, 1) && !Accepted(f, 31, 32, PixelSize(f) * 31, 15)
    ensures !Accepted(f, 32, 31, PixelSize(f) * 32, 15) && !Accepted(f, 100, 100, PixelSize(f) * 100, 16)
    ensures !Accepted(f, 100, 100, PixelSize(f) * 100 + 1, 1)
  {
  }

  method FastBlur(w: int, h: int, stride: int, pix: array?<Byte>, radius: int)
    requires pix != null ==> 4 * w <= stride && h * stride <= pix.Length
    modifies pix
    ensures pix != null && radius in {1, 3, 7, 15} && Accepted(Rgba8888, w, h, stride, radius) ==>
              TriangularPicture(Rgba8888, w, h, radius, old(pix[..]), pix[..])
    ensures pix != null && !(radius in {1, 3, 7, 15} && Accepted(Rgba8888, w, h, stride, radius)) ==>
              pix[..] == old(pix[..])
  {
    if pix == null {
      return;
    }
    var div := radius * 2 + 1;
    var shift;
    if radius == 1 {
      shift := 2;
    } else if radius == 3 {
      shift := 4;
    } else if radius == 7 {
      shift := 6;
    } else if radius == 15 {
      shift := 8;
    } else {
      return;
    }
    if radius > 15 || div >= w || div >= h || w * h > 150 * 150 || stride > w * 4 {
      return;
    }
    BlurDivisors();
    ghost var before := pix[..];
    BlurPasses(Rgba8888, w, h, pix, radius, shift);
    ExactPicture(Rgba8888, w, h, radius, shift, before, pix[..]);
  }

  method FastBlur565(w: int, h: int, stride: int, pix: array?<Byte>, radius: int)
    requires pix != null ==> 2 * w <= stride && h * stride <= pix.Length
    modifies pix
    ensures pix != null && radius in {1, 3, 7, 15} && Accepted(Rgb565, w, h, stride, radius) ==>
              TriangularPicture(Rgb565, w, h, radius, old(pix[..]), pix[..])
    ensures pix != null && !(radius in {1, 3, 7, 15} && Accepted(Rgb565, w, h, stride, radius)) ==>
              pix[..] == old(pix[..])
  {
    if pix == null {
      return;
    }
    var div := radius * 2 + 1;
    var shift;
    if radius == 1 {
      shift := 2;
    } else if radius == 3 {
      shift := 4;
    } else if radius == 7 {
      shift := 6;
    } else if radius == 15 {
      shift := 8;
    } else {
      return;
    }
    if radius > 15 || div >= w || div >= h || w * h > 150 * 150 || stride > w * 2 {
      return;
    }
    BlurDivisors();
    ghost var before := pix[..];
    BlurPasses(Rgb565, w, h, pix, radius, shift);
    ExactPicture(Rgb565, w, h, radius, shift, before, pix[..]);
  }

  method FastBlurMore(w: int, h: int, stride: int, pix: array<Byte>, radius: nat)
    requires 4 * w <= stride && h * stride <= pix.Length
    modifies pix
    ensures Accepted(Rgba8888, w, h, stride, radius) ==>
              ShiftedPicture(Rgba8888, w, h, radius, 6, old(pix[..]), pix[..])
    ensures !Accepted(Rgba8888, w, h, stride, radius) ==> pix[..] == old(pix[..])
  {
    var div := radius * 2 + 1;
    if radius > 15 || div >= w || div >= h || w * h > 150 * 150 || stride > w * 4 {
      return;
    }
    BlurPasses(Rgba8888, w, h, pix, radius, 6);
  }

  method FastBlurMore565(w: int, h: int, stride: int, pix: array<Byte>, radius: nat)
    requires 2 * w <= stride && h * stride <= pix.Length
    modifies pix
    ensures Accepted(Rgb565, w, h, stride, radius) ==> ShiftedPicture(Rgb565, w, h, radius, 6, old(pix[..]), pix[..])
    ensures !Accepted(Rgb565, w, h, stride, radius) ==> pix[..] == old(pix[..])
  {
    var div := radius * 2 + 1;
    if radius > 15 || div >= w || div >= h || w * h > 150 * 150 || stride > w * 2 {
      return;
    }
    BlurPasses(Rgb565, w, h, pix, radius, 6);
  }

  // ---------------------------------------------------------------- consequences

  /** The blurred picture is determined by the picture. */
  lemma PictureIsUnique(f: Format, w: nat, h: nat, r: nat, before: seq<Byte>, one: seq<Byte>, two: seq<Byte>)
    requires 0 < w && 0 < h && TriangularPicture(f, w, h, r, before, one) && TriangularPicture(f, w, h, r, before, two)
    ensures one == two
  {
    forall k | 0 <= k < |one| ensures one[k] == two[k] {
      if k < h * (PixelSize(f) * w) {
        var x, y, b := Locate(f, w, h, k);
        assert TriangularByte(f, w, h, r, before, one, x, y, b) && TriangularByte(f, w, h, r, before, two, x, y, b);
      }
    }
  }

  /** At radius 7 the two blurs store the same pixels. */
  lemma BlursAgreeAtRadius7(f: Format, w: nat, h: nat, before: seq<Byte>, fast: seq<Byte>, more: seq<Byte>)
    requires 0 < w && 0 < h && TriangularPicture(f, w, h, 7, before, fast)
    requires ShiftedPicture(f, w, h, 7, 6, before, more)
    ensures fast == more
  {
    BlurDivisors();
    ExactPicture(f, w, h, 7, 6, before, more);
    PictureIsUnique(f, w, h, 7, before, fast, more);
  }

  /** Every byte of the picture belongs to a pixel. */
  lemma Locate(f: Format, w: nat, h: nat, k: nat) returns (x: nat, y: nat, b: nat)
    requires k < h * (PixelSize(f) * w)
    ensures x < w && y < h && b < PixelSize(f) && k == Offset(f, w, x, y) + b
  {
    var size := PixelSize(f);
    var row := size * w;
    assert row != 0;
    Divide(k, row, h);
    y := k / row;
    Divide(k % row, size, w);
    x, b := k % row / size, k % row % size;
  }

  lemma Divide(k: nat, d: int, n: nat)
    requires 0 < d && k < n * d
    ensures 0 <= k / d < n && k == k / d * d + k % d
  {
    AtLeast(d, k / d - n + 1);
    assert d * (k / d - n + 1) == k / d * d - n * d + d;
  }

  /** All pixels of the picture have the colour bytes of the first. */
  ghost predicate OneColour(f: Format, w: nat, h: nat, s: seq<Byte>)
    requires 0 < w && 0 < h && h * (PixelSize(f) * w) <= |s|
  {
    forall x, y, b :: 0 <= x < w && 0 <= y < h && 0 <= b < ColorBytes(f) ==> SameAsFirst(f, w, h, s, x, y, b)
  }

  ghost predicate SameAsFirst(f: Format, w: nat, h: nat, s: seq<Byte>, x: nat, y: nat, b: nat)
    requires h * (PixelSize(f) * w) <= |s| && x < w && y < h && b < ColorBytes(f)
  {
    OffsetInRange(f, w, h, x, y);
    OffsetInRange(f, w, h, 0, 0);
    s[Offset(f, w, x, y) + b] == s[b]
  }

  /** Expanding a 565 pixel to bytes and truncating it again gives the pixel back. */
  lemma PixelRoundTrip(f: Format, s: seq<Byte>, pos: nat, b: nat)
    requires pos + PixelSize(f) <= |s| && b < ColorBytes(f)
    ensures PixelByte(f, Channel(f, s, pos, 0), Channel(f, s, pos, 1), Channel(f, s, pos, 2), b) == s[pos + b]
  {
    if f.Rgb565? {
      var v := Halfword(s, pos);
      ExpandTruncate5(v / 0x800);
      ExpandTruncate6(v / 0x20 % 0x40);
      ExpandTruncate5(v % 0x20);
      SplitFields(v);
      Halves(s[pos], s[pos + 1]);
    }
  }

  lemma Halves(low: Byte, high: Byte)
    ensures (low as int + 256 * high as int) % 256 == low && (low as int + 256 * high as int) / 256 == high
  {
  }

  lemma SplitFields(v: nat)
    ensures v / 0x800 * 0x800 + v / 0x20 % 0x40 * 0x20 + v % 0x20 == v
  {
  }

  lemma ExpandTruncate5(field: int)
    requires 0 <= field < 32
    ensures Expand(field, 31) / 8 == field
  {
  }

  lemma ExpandTruncate6(field: int)
    requires 0 <= field < 64
    ensures Expand(field, 63) / 4 == field
  {
  }

  /** A picture of one colour is a fixed point of the blur, also through the lossy 565 form. */
  lemma OneColourIsFixed(f: Format, w: nat, h: nat, r: nat, before: seq<Byte>, after: seq<Byte>)
    requires 0 < w && 0 < h && TriangularPicture(f, w, h, r, before, after) && OneColour(f, w, h, before)
    ensures after == before
  {
    forall k | 0 <= k < |after| ensures after[k] == before[k] {
      if k < h * (PixelSize(f) * w) {
        var x, y, b := Locate(f, w, h, k);
        assert TriangularByte(f, w, h, r, before, after, x, y, b);
        if b < ColorBytes(f) {
          OneColourByte(f, w, h, r, before, after, x, y, b);
        }
      }
    }
  }

  lemma OneColourByte(f: Format, w: nat, h: nat, r: nat, before: seq<Byte>, after: seq<Byte>, x: nat, y: nat, b: nat)
    requires |after| == |before| >= h * (PixelSize(f) * w) && x < w && y < h && b < ColorBytes(f)
    requires TriangularByte(f, w, h, r, before, after, x, y, b) && OneColour(f, w, h, before)
    ensures Offset(f, w, x, y) + b < |after| && after[Offset(f, w, x, y) + b] == before[Offset(f, w, x, y) + b]
  {
    OneColourBlur(f, w, h, r, before, x, y, 0);
    OneColourBlur(f, w, h, r, before, x, y, 1);
    OneColourBlur(f, w, h, r, before, x, y, 2);
    OffsetInRange(f, w, h, x, y);
    PixelRoundTrip(f, before, 0, b);
    assert SameAsFirst(f, w, h, before, x, y, b);
  }

  lemma OneColourBlur(f: Format, w: nat, h: nat, r: nat, s: seq<Byte>, x: nat, y: nat, c: nat)
    requires 0 < w && 0 < h && h * (PixelSize(f) * w) <= |s| && c < 3 && OneColour(f, w, h, s)
    ensures Offset(f, w, 0, 0) + PixelSize(f) <= |s|
    ensures TriangularBlur(f, s, w, h, r, x, y, c) == Channel(f, s, 0, c)
  {
    OffsetInRange(f, w, h, 0, 0);
    var v := Channel(f, s, 0, c);
    forall i, j | x - r <= i <= x + r && y - r <= j <= y + r
      ensures v <= At(ChannelRow(f, s, w, h, Clamp(j, h), c), i) <= v
    {
      SameChannel(f, w, h, s, Clamp(i, w), Clamp(j, h), c);
    }
    BlurBetween(f, s, w, h, r, x, y, c, v, v);
  }

  lemma SameChannel(f: Format, w: nat, h: nat, s: seq<Byte>, x: nat, y: nat, c: nat)
    requires x < w && y < h && h * (PixelSize(f) * w) <= |s| && c < 3 && OneColour(f, w, h, s)
    ensures Offset(f, w, x, y) + PixelSize(f) <= |s| && PixelSize(f) <= |s|
    ensures Channel(f, s, Offset(f, w, x, y), c) == Channel(f, s, 0, c)
  {
    OffsetInRange(f, w, h, x, y);
    OffsetInRange(f, w, h, 0, 0);
    if f.Rgba8888? {
      assert SameAsFirst(f, w, h, s, x, y, c);
    } else {
      assert SameAsFirst(f, w, h, s, x, y, 0) && SameAsFirst(f, w, h, s, x, y, 1);
      assert Halfword(s, Offset(f, w, x, y)) == Halfword(s, 0);
    }
  }
}
