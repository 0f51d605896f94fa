/** Contrast-limited histogram equalisation of one tile, from calcCDT in image.c: clip the histogram, spread what was
    clipped over all the bins, and turn the running total into a tone map.  The map is taken in exact arithmetic. */
module Clahe {
  import opened Numbers

  const BINS := 256

  type Uint32 = n: int | 0 <= n < 0x1_0000_0000

  predicate IsHistogram(h: seq<Uint32>) {
    |h| == BINS && SumTo(h, BINS) < 0x1_0000_0000
  }

  function SumTo(h: seq<Uint32>, n: nat): (s: nat)
    requires n <= |h|
  {
    if n == 0 then 0 else SumTo(h, n - 1) + h[n - 1]
  }

  lemma {:induction false} SumGrows(h: seq<Uint32>, k: nat, n: nat)
    requires k <= n <= |h|
    ensures SumTo(h, k) <= SumTo(h, n)
    decreases n
  {
    if k < n {
      SumGrows(h, k, n - 1);
    }
  }

  lemma BinWithinSum(h: seq<Uint32>, k: nat, n: nat)
    requires k < n <= |h|
    ensures h[k] <= SumTo(h, n)
  {
  }

  // ---------------------------------------------------------------- clip and redistribute, as functions

  function ClippedBin(count: Uint32, limit: Uint32): Uint32 {
    if count > limit then limit else count
  }

  function Clipped(h: seq<Uint32>, limit: Uint32): (r: seq<Uint32>)
    ensures |r| == |h|
  {
    seq(|h|, j requires 0 <= j < |h| => ClippedBin(h[j], limit))
  }

  /** What the first n bins hold above the limit. */
  function Excess(h: seq<Uint32>, limit: Uint32, n: nat): nat
    requires n <= |h|
  {
    if n == 0 then 0 else Excess(h, limit, n - 1) + (h[n - 1] - ClippedBin(h[n - 1], limit))
  }

  /** What bin j gets back of an excess: an even share, and one of what does not divide evenly. */
  function Share(excess: nat, j: nat): nat {
    excess / BINS + if j < excess % BINS then 1 else 0
  }

  function ShareTo(excess: nat, n: nat): nat {
    if n == 0 then 0 else ShareTo(excess, n - 1) + Share(excess, n - 1)
  }

  /** The bin counts after clipping and redistribution, as a specification. */
  ghost predicate IsRedistribution(h: seq<Uint32>, limit: Uint32, r: seq<Uint32>)
    requires |h| == BINS
  {
    && |r| == BINS
    && forall j :: 0 <= j < BINS ==> r[j] == ClippedBin(h[j], limit) + Share(Excess(h, limit, BINS), j)
  }

  lemma {:induction false} ClippedAndExcess(h: seq<Uint32>, limit: Uint32, n: nat)
    requires n <= |h|
    ensures SumTo(Clipped(h, limit), n) + Excess(h, limit, n) == SumTo(h, n)
  {
    if n > 0 {
      ClippedAndExcess(h, limit, n - 1);
    }
  }

  lemma {:induction false} SharesUpTo(excess: nat, n: nat)
    ensures ShareTo(excess, n) == n * (excess / BINS) + if n < excess % BINS then n else excess % BINS
  {
    if n > 0 {
      SharesUpTo(excess, n - 1);
      assert n * (excess / BINS) == (n - 1) * (excess / BINS) + excess / BINS;
    }
  }

  /** All of the excess is handed out again. */
  lemma SharesAddUp(excess: nat)
    ensures ShareTo(excess, BINS) == excess
  {
    SharesUpTo(excess, BINS);
  }

  lemma {:induction false} SumWithShares(h: seq<Uint32>, excess: nat, r: seq<Uint32>, n: nat)
    requires n <= |h| == |r| && forall j :: 0 <= j < n ==> r[j] == h[j] + Share(excess, j)
    ensures SumTo(r, n) == SumTo(h, n) + ShareTo(excess, n)
  {
    if n > 0 {
      SumWithShares(h, excess, r, n - 1);
    }
  }

  /** Clipping and redistributing keeps the total. */
  lemma TotalIsKept(h: seq<Uint32>, limit: Uint32, r: seq<Uint32>)
    requires |h| == BINS && IsRedistribution(h, limit, r)
    ensures SumTo(r, BINS) == SumTo(h, BINS)
  {
    var excess := Excess(h, limit, BINS);
    ClippedAndExcess(h, limit, BINS);
    SumWithShares(Clipped(h, limit), excess, r, BINS);
    SharesAddUp(excess);
  }

  /** No bin ends up above the limit, its even share and one; the bins below the limit never lose. */
  lemma BinsAreLimited(h: seq<Uint32>, limit: Uint32, r: seq<Uint32>, j: nat)
    requires |h| == BINS && IsRedistribution(h, limit, r) && j < BINS
    ensures r[j] <= limit + Excess(h, limit, BINS) / BINS + 1
    ensures h[j] <= limit ==> h[j] <= r[j]
  {
  }

  /** What the bins get back on top of their clipped counts: shares that differ by at most one, the larger ones first.
      Together with the kept total this determines the result. */
  lemma SharesAreEven(h: seq<Uint32>, limit: Uint32, r: seq<Uint32>, i: nat, j: nat)
    requires |h| == BINS && IsRedistribution(h, limit, r) && i < j < BINS
    ensures var first := (r[i] as int) - (if h[i] > limit then limit else h[i]);
            var second := (r[j] as int) - (if h[j] > limit then limit else h[j]);
            0 <= second <= first <= second + 1
  {
  }

  /** A histogram within the limit is left as it is. */
  lemma WithinLimitIsKept(h: seq<Uint32>, limit: Uint32, r: seq<Uint32>)
    requires |h| == BINS && IsRedistribution(h, limit, r) && forall j :: 0 <= j < BINS ==> h[j] <= limit
    ensures r == h
  {
    NoExcess(h, limit, BINS);
  }

  lemma {:induction false} NoExcess(h: seq<Uint32>, limit: Uint32, n: nat)
    requires n <= |h| && forall j :: 0 <= j < n ==> h[j] <= limit
    ensures Excess(h, limit, n) == 0
  {
    if n > 0 {
      NoExcess(h, limit, n - 1);
    }
  }

  // ---------------------------------------------------------------- clip and redistribute, in place

  /** What a bin may hold without the 32-bit counters overflowing: every redistributed bin is within the kept total. */
  lemma RedistributedFits(h: seq<Uint32>, limit: Uint32, j: nat)
    requires IsHistogram(h) && j < BINS
    ensures ClippedBin(h[j], limit) + Share(Excess(h, limit, BINS), j) <= SumTo(h, BINS)
  {
    ClippedAndExcess(h, limit, BINS);
    BinWithinSum(Clipped(h, limit), j, BINS);
    var excess := Excess(h, limit, BINS);
    assert Share(excess, j) <= excess;
  }

  /** The first loop: cut every bin to the limit and count what was cut off. */
  method Clip(hist: array<Uint32>, limit: Uint32) returns (clipped: Uint32)
    requires IsHistogram(hist[..])
    modifies hist
    ensures hist[..] == Clipped(old(hist[..]), limit)
    ensures clipped == Excess(old(hist[..]), limit, BINS)
  {
    ghost var h := hist[..];
    clipped := 0;
    for j := 0 to BINS
      invariant forall k :: 0 <= k < j ==> hist[k] == ClippedBin(h[k], limit)
      invariant forall k :: j <= k < BINS ==> hist[k] == h[k]
      invariant clipped == Excess(h, limit, j)
    {
      ClippedAndExcess(h, limit, j + 1);
      SumGrows(h, j + 1, BINS);
      if hist[j] > limit {
        clipped := clipped + (hist[j] - limit);
        hist[j] := limit;
      }
    }
  }

  /** The next two loops: hand out the even shares, then one each of the rest. */
  method Redistribute(hist: array<Uint32>, clipped: Uint32, ghost h: seq<Uint32>, ghost limit: Uint32)
    requires IsHistogram(h) && hist[..] == Clipped(h, limit) && clipped == Excess(h, limit, BINS)
    modifies hist
    ensures IsRedistribution(h, limit, hist[..])
  {
    var redistBatch := clipped / BINS;
    var residual := clipped - redistBatch * BINS;
    assert residual == clipped % BINS;
    for j := 0 to BINS
      invariant forall k :: 0 <= k < j ==> hist[k] == ClippedBin(h[k], limit) + redistBatch
      invariant forall k :: j <= k < BINS ==> hist[k] == ClippedBin(h[k], limit)
    {
      RedistributedFits(h, limit, j);
      hist[j] := hist[j] + redistBatch;
    }
    for j := 0 to residual
      invariant forall k :: 0 <= k < j ==> hist[k] == ClippedBin(h[k], limit) + redistBatch + 1
      invariant forall k :: j <= k < BINS ==> hist[k] == ClippedBin(h[k], limit) + redistBatch
    {
      RedistributedFits(h, limit, j);
      hist[j] := hist[j] + 1;
    }
  }

  // ---------------------------------------------------------------- the tone map

  /** A running total scaled to a tone. */
  function Tone(cdf: nat, tileArea: nat): Byte
    requires tileArea > 0
  {
    if cdf * 255 / tileArea < 255 then cdf * 255 / tileArea else 255
  }

  function ToneMap(h: seq<Uint32>, tileArea: nat): (map_: seq<Byte>)
    requires tileArea > 0
    ensures |map_| == |h|
  {
    seq(|h|, j requires 0 <= j < |h| => Tone(SumTo(h, j + 1), tileArea))
  }

  lemma ToneMonotone(a: nat, b: nat, tileArea: nat)
    requires a <= b && tileArea > 0
    ensures Tone(a, tileArea) <= Tone(b, tileArea)
  {
    QuotientMonotone(a * 255, b * 255, tileArea);
  }

  lemma QuotientMonotone(a: nat, b: nat, d: nat)
    requires a <= b && d > 0
    ensures a / d <= b / d
  {
    var p, q := a / d, b / d;
    assert p > q ==> (q + 1) * d <= p * d;
  }

  /** The quotient of a sum is at most one above the sum of the quotients. */
  lemma QuotientOfSum(a: nat, b: nat, d: nat)
    requires d > 0
    ensures (a + b) / d <= a / d + b / d + 1
  {
    QuotientOfParts(a, b, d, a / d, a % d, b / d, b % d);
  }

  lemma QuotientOfParts(a: nat, b: nat, d: nat, p: nat, x: nat, q: nat, y: nat)
    requires a == d * p + x && x < d && b == d * q + y && y < d
    ensures (a + b) / d <= p + q + 1
  {
    Distributes(d, p, q);
    Distributes(d, p + q, 1);
    if x + y < d {
      Quotient(a + b, d, p + q, x + y);
    } else {
      Quotient(a + b, d, p + q + 1, x + y - d);
    }
  }

  lemma Distributes(d: int, p: int, q: int)
    ensures d * (p + q) == d * p + d * q
  {
  }

  /** The tone of a bin is the share of the pixels up to it, scaled to 255 and rounded down. */
  lemma ToneIsShare(h: seq<Uint32>, tileArea: nat, j: nat)
    requires tileArea > 0 && j < |h|
    ensures var t, c := ToneMap(h, tileArea)[j], SumTo(h, j + 1);
            if c >= tileArea then t == 255 else t * tileArea <= 255 * c < (t + 1) * tileArea
  {
    var c := SumTo(h, j + 1);
    ToneBounds(c, tileArea, c * 255 / tileArea);
  }

  lemma ToneBounds(c: nat, tileArea: nat, q: nat)
    requires tileArea > 0 && q == c * 255 / tileArea
    ensures if c >= tileArea then q >= 255 else q < 255 && q * tileArea <= 255 * c < (q + 1) * tileArea
  {
    assert c * 255 == tileArea * q + c * 255 % tileArea;
    if c >= tileArea {
      QuotientMonotone(255 * tileArea, c * 255, tileArea);
      Quotient(255 * tileArea, tileArea, 255, 0);
    } else {
      QuotientMonotone(c * 255, 255 * tileArea - 1, tileArea);
      Quotient(255 * tileArea - 1, tileArea, 254, tileArea - 1);
    }
  }

  /** The map never turns tones around. */
  lemma MapMonotone(h: seq<Uint32>, tileArea: nat, j: nat, k: nat)
    requires tileArea > 0 && j <= k < |h|
    ensures ToneMap(h, tileArea)[j] <= ToneMap(h, tileArea)[k]
  {
    SumGrows(h, j + 1, k + 1);
    ToneMonotone(SumTo(h, j + 1), SumTo(h, k + 1), tileArea);
  }

  /** The brightest tone is reached exactly when the tile holds at least tileArea pixels. */
  lemma MapReachesWhite(h: seq<Uint32>, tileArea: nat)
    requires tileArea > 0 && |h| == BINS
    ensures ToneMap(h, tileArea)[BINS - 1] == 255 <==> SumTo(h, BINS) >= tileArea
  {
    var total := SumTo(h, BINS);
    if total >= tileArea {
      QuotientMonotone(255 * tileArea, total * 255, tileArea);
      Quotient(255 * tileArea, tileArea, 255, 0);
    } else {
      QuotientMonotone(total * 255, 255 * tileArea - 1, tileArea);
      Quotient(255 * tileArea - 1, tileArea, 254, tileArea - 1);
    }
  }

  /** What the limit is for: neighbouring tones are driven apart by no more than the limited bin stands for. */
  lemma ContrastIsLimited(h: seq<Uint32>, limit: Uint32, r: seq<Uint32>, tileArea: nat, j: nat)
    requires tileArea > 0 && |h| == BINS && IsRedistribution(h, limit, r) && 0 < j < BINS
    ensures var most := limit + Excess(h, limit, BINS) / BINS + 1;
            ToneMap(r, tileArea)[j] <= ToneMap(r, tileArea)[j - 1] + most * 255 / tileArea + 1
  {
    var a, b, most: int := SumTo(r, j), r[j] as int, limit + Excess(h, limit, BINS) / BINS + 1;
    BinsAreLimited(h, limit, r, j);
    assert SumTo(r, j + 1) == a + b;
    ToneOfSum(a, b, most, tileArea);
  }

  lemma ToneOfSum(a: nat, b: nat, most: nat, tileArea: nat)
    requires tileArea > 0 && b <= most
    ensures Tone(a + b, tileArea) <= Tone(a, tileArea) + most * 255 / tileArea + 1
  {
    var step := ScaledSum(a * 255, b * 255, most * 255, (a + b) * 255, tileArea);
    Capped(a, a + b, tileArea, step.0, step.1, step.2);
  }

  /** The quotients of the scaled values. */
  lemma ScaledSum(x: nat, y: nat, z: nat, sum: nat, d: nat) returns (q: (nat, nat, nat))
    requires d > 0 && y <= z && sum == x + y
    ensures q == (x / d, sum / d, z / d) && q.1 <= q.0 + q.2 + 1
  {
    QuotientOfSum(x, y, d);
    QuotientMonotone(y, z, d);
    q := (x / d, sum / d, z / d);
  }

  lemma Capped(a: nat, b: nat, tileArea: nat, p: nat, q: nat, step: nat)
    requires tileArea > 0 && p == a * 255 / tileArea && q == b * 255 / tileArea && q <= p + step + 1
    ensures Tone(b, tileArea) <= Tone(a, tileArea) + step + 1
  {
  }

  ghost predicate EmptyBefore(h: seq<Uint32>, first: nat)
    requires first < |h|
  {
    forall j :: 0 <= j < first ==> h[j] == 0
  }

  lemma ToneIsZeroIff(cdf: nat, tileArea: nat)
    requires tileArea > 0
    ensures Tone(cdf, tileArea) == 0 <==> cdf * 255 < tileArea
  {
    if cdf * 255 < tileArea {
      Quotient(cdf * 255, tileArea, 0, cdf * 255);
    } else {
      QuotientMonotone(tileArea, cdf * 255, tileArea);
    }
  }

  /** The tone of bin 0, which is reported as the minimum, is that of the first used bin exactly if bin 0 is used or the
      first used bin is too small to get a tone of its own. */
  lemma MinimumIsIntendedIff(h: seq<Uint32>, tileArea: nat, first: nat)
    requires tileArea > 0 && first < |h| && EmptyBefore(h, first)
    ensures ToneMap(h, tileArea)[0] == ToneMap(h, tileArea)[first] <==> first == 0 || h[first] * 255 < tileArea
  {
    if first > 0 {
      EmptyBinsAddNothing(h, first);
      assert SumTo(h, 1) == SumTo(h, 0) + h[0] == 0;
      assert SumTo(h, first + 1) == h[first] as int;
      ToneIsZeroIff(0, tileArea);
      ToneIsZeroIff(h[first] as int, tileArea);
    }
  }

  /** Bin 0 is the first to get what was clipped, so it stays empty exactly if nothing was clipped and it was empty. */
  lemma FirstBinStaysEmptyIff(h: seq<Uint32>, limit: Uint32, r: seq<Uint32>)
    requires limit > 0 && |h| == BINS && IsRedistribution(h, limit, r)
    ensures r[0] == 0 <==> h[0] == 0 && Excess(h, limit, BINS) == 0
  {
    assert r[0] == ClippedBin(h[0], limit) + Share(Excess(h, limit, BINS), 0);
  }

  /** One pixel each of the tones 1 to 128. */
  function Ramp(): (h: seq<Uint32>)
    ensures |h| == BINS
  {
    seq(BINS, j => if 1 <= j <= 128 then 1 else 0)
  }

  lemma {:induction false} RampSum(n: nat)
    requires n <= BINS
    ensures SumTo(Ramp(), n) == if n == 0 then 0 else if n <= 129 then n - 1 else 128
  {
    if n > 0 {
      RampSum(n - 1);
    }
  }

  /** A tile of 128 pixels within its limit whose reported minimum is not the tone of its first used bin. */
  lemma MinimumMayDiffer()
    ensures SumTo(Ramp(), BINS) == 128 && IsRedistribution(Ramp(), 1, Ramp()) && EmptyBefore(Ramp(), 1)
    ensures ToneMap(Ramp(), 128)[0] == 0 && ToneMap(Ramp(), 128)[1] == 1
  {
    RampSum(BINS);
    RampSum(1);
    RampSum(2);
    NoExcess(Ramp(), 1, BINS);
  }

  /** The search for the first bin.  It tests the row pointers of all the tiles in place of the counts, and these are
      set: the search always ends at 0. */
  method FirstBin(cdfs: seq<array?<Uint32>>) returns (hMin: nat)
    requires |cdfs| > 0 && cdfs[0] != null
    ensures hMin == 0
  {
    hMin := BINS - 1;
    var j := 0;
    while j < hMin
      invariant (j == 0 && hMin == BINS - 1) || (j == 1 && hMin == 0)
      decreases hMin - j
    {
      if cdfs[j] != null {
        hMin := j;
      }
      j := j + 1;
    }
  }

  /** Empty bins at the start leave the running total at zero, so that it may start at any bin with only empty ones
      before it. */
  lemma {:induction false} EmptyBinsAddNothing(h: seq<Uint32>, n: nat)
    requires n <= |h| && forall j :: 0 <= j < n ==> h[j] == 0
    ensures SumTo(h, n) == 0
  {
    if n > 0 {
      EmptyBinsAddNothing(h, n - 1);
    }
  }

  /** One tile of the loop: the histogram is limited in place and its map goes to the tile's row of cdfs. */
  method EqualiseTile(hist: array<Uint32>, limit: Uint32, tileArea: nat, cdfs: seq<array?<Uint32>>, i: nat)
    returns (cdfMin: Byte, cdfMax: Byte)
    requires IsHistogram(hist[..]) && tileArea > 0
    requires i < |cdfs| && cdfs[0] != null && cdfs[i] != null && cdfs[i] != hist && cdfs[i].Length == BINS
    modifies hist, cdfs[i]
    ensures limit > 0 ==> IsRedistribution(old(hist[..]), limit, hist[..])
    ensures limit == 0 ==> hist[..] == old(hist[..])
    ensures SumTo(hist[..], BINS) == old(SumTo(hist[..], BINS))
    ensures cdfs[i][..] == ToneMap(hist[..], tileArea)
    ensures forall j :: 0 <= j < BINS ==> cdfMin <= cdfs[i][j] <= cdfMax
    ensures cdfMin == cdfs[i][0] && cdfMax == cdfs[i][BINS - 1]
    ensures forall first :: 0 <= first < BINS && EmptyBefore(hist[..], first) ==>
              (cdfMin == cdfs[i][first] <==> first == 0 || hist[first] * 255 < tileArea)
  {
    if limit > 0 {
      ghost var h := hist[..];
      var clipped := Clip(hist, limit);
      Redistribute(hist, clipped, h, limit);
      TotalIsKept(h, limit, hist[..]);
    }
    var row := cdfs[i];
    ghost var h := hist[..];
    for j := 0 to BINS
      invariant hist[..] == h
      invariant forall k :: 0 <= k < j ==> row[k] == h[k]
    {
      row[j] := hist[j];
    }
    var hMin := FirstBin(cdfs);
    Accumulate(row, tileArea, hMin, h);
    forall j | 0 <= j < BINS ensures ToneMap(h, tileArea)[0] <= row[j] <= ToneMap(h, tileArea)[BINS - 1] {
      MapMonotone(h, tileArea, 0, j);
      MapMonotone(h, tileArea, j, BINS - 1);
    }
    forall first | 0 <= first < BINS && EmptyBefore(h, first)
      ensures row[0] == row[first] <==> first == 0 || h[first] * 255 < tileArea
    {
      MinimumIsIntendedIff(h, tileArea, first);
    }
    cdfMin, cdfMax := row[hMin], row[BINS - 1];
  }

  /** The last loop: the running total, scaled, overwrites the counts. */
  method Accumulate(row: array<Uint32>, tileArea: nat, hMin: nat, ghost h: seq<Uint32>)
    requires row[..] == h && IsHistogram(h) && tileArea > 0 && hMin < BINS
    requires forall j :: 0 <= j < hMin ==> h[j] == 0
    modifies row
    ensures row[..] == ToneMap(h, tileArea)
  {
    var cdf: Uint32 := 0;
    ghost var tones := ToneMap(h, tileArea);
    EmptyBinsAddNothing(h, hMin);
    forall k | 0 <= k < hMin ensures row[k] == tones[k] {
      EmptyBinsAddNothing(h, k + 1);
    }
    for j := hMin to BINS
      invariant cdf == SumTo(h, j)
      invariant forall k :: 0 <= k < j ==> row[k] == tones[k]
      invariant forall k :: j <= k < BINS ==> row[k] == h[k]
    {
      SumGrows(h, j + 1, BINS);
      cdf := cdf + row[j];
      row[j] := Tone(cdf, tileArea);
    }
  }
}
