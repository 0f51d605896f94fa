/** Edge tracing by hysteresis, from fast-edge.cpp.  The recursive trace returns as soon as one neighbour could be
    traced, so it does not flood: it walks, marking one pixel after the other, until no neighbour is left to go to. */
module Hysteresis {
  import opened Numbers

  datatype Image = Image(width: nat, height: nat, data: seq<Byte>) {
    predicate Valid() {
      |data| == width * height
    }

    predicate InRange(x: int, y: int) {
      0 <= x < width && 0 <= y < height
    }

    /** The index of a pixel: the rows follow one another. */
    function Pos(x: nat, y: nat): nat {
      if y == 0 then x else width + Pos(x, y - 1)
    }

    lemma {:induction false} PosFormula(x: nat, y: nat)
      ensures Pos(x, y) == y * width + x
    {
      if y > 0 {
        PosFormula(x, y - 1);
        assert y * width == (y - 1) * width + width;
      }
    }

    lemma PosInRange(x: nat, y: nat)
      requires Valid() && InRange(x, y)
      ensures Pos(x, y) < |data|
    {
      PosFormula(x, y);
      RowsApart(y, height);
      Commute(width, height);
    }

    lemma PosIsInjective(x: nat, y: nat, x': nat, y': nat)
      requires InRange(x, y) && InRange(x', y') && Pos(x, y) == Pos(x', y')
      ensures x == x' && y == y'
    {
      PosFormula(x, y);
      PosFormula(x', y');
      RowsApart(y, y');
      RowsApart(y', y);
    }

    lemma RowsApart(y: nat, y': nat)
      ensures y < y' ==> y * width + width <= y' * width
    {
      assert y < y' ==> (y + 1) * width <= y' * width;
    }

    function Pixel(x: nat, y: nat): Byte
      requires Valid() && InRange(x, y)
    {
      PosInRange(x, y);
      data[Pos(x, y)]
    }
  }

  // ---------------------------------------------------------------- the walk

  /** The neighbours in the order they are tried: k from 0 to 8, row by row. */
  function OffX(k: nat): int {
    if k < 3 then k - 1 else if k < 6 then k - 4 else k - 7
  }

  function OffY(k: nat): int {
    if k < 3 then -1 else if k < 6 then 0 else 1
  }

  /** Neighbour k passes the test of trace.  The test on y, not on its offset, makes row 0 skip its own column. */
  predicate Passes(img: Image, low: int, x: nat, y: nat, k: nat)
    requires img.Valid() && img.InRange(x, y)
  {
    && !(y == 0 && OffX(k) == 0)
    && img.InRange(x + OffX(k), y + OffY(k))
    && img.Pixel(x + OffX(k), y + OffY(k)) >= low
  }

  predicate Marked(img: Image, out: seq<Byte>, x: nat, y: nat)
    requires img.Valid() && |out| == |img.data| && img.InRange(x, y)
  {
    img.PosInRange(x, y);
    out[img.Pos(x, y)] != 0
  }

  predicate Open(img: Image, low: int, out: seq<Byte>, x: nat, y: nat, k: nat)
    requires img.Valid() && |out| == |img.data| && img.InRange(x, y)
  {
    Passes(img, low, x, y, k) && !Marked(img, out, x + OffX(k), y + OffY(k))
  }

  /** The first open neighbour from k on, or 9. */
  function FirstOpen(img: Image, low: int, out: seq<Byte>, x: nat, y: nat, k: nat): (r: nat)
    requires img.Valid() && |out| == |img.data| && img.InRange(x, y) && k <= 9
    ensures k <= r <= 9 && (r < 9 ==> Open(img, low, out, x, y, r))
    decreases 9 - k
  {
    if k == 9 || Open(img, low, out, x, y, k) then k else FirstOpen(img, low, out, x, y, k + 1)
  }

  function Mark(img: Image, out: seq<Byte>, x: nat, y: nat): (r: seq<Byte>)
    requires img.Valid() && |out| == |img.data| && img.InRange(x, y)
    ensures |r| == |out|
  {
    img.PosInRange(x, y);
    out[img.Pos(x, y) := 0xFF]
  }

  function Unmarked(out: seq<Byte>): set<nat> {
    set i: nat | i < |out| && out[i] == 0
  }

  lemma MarkShrinks(img: Image, out: seq<Byte>, x: nat, y: nat)
    requires img.Valid() && |out| == |img.data| && img.InRange(x, y) && !Marked(img, out, x, y)
    ensures Unmarked(Mark(img, out, x, y)) < Unmarked(out)
  {
    img.PosInRange(x, y);
    assert img.Pos(x, y) in Unmarked(out) && img.Pos(x, y) !in Unmarked(Mark(img, out, x, y));
  }

  /** The walk from (x, y): mark the pixel, unless it is marked already, and walk on. */
  function Walk(img: Image, low: int, out: seq<Byte>, x: nat, y: nat): (r: seq<Byte>)
    requires img.Valid() && |out| == |img.data| && img.InRange(x, y)
    ensures |r| == |out|
    decreases Unmarked(out), 0
  {
    if Marked(img, out, x, y) then out
    else
      MarkShrinks(img, out, x, y);
      WalkOn(img, low, Mark(img, out, x, y), x, y)
  }

  /** Walk on from (x, y) to its first open neighbour, if there is one. */
  function WalkOn(img: Image, low: int, out: seq<Byte>, x: nat, y: nat): (r: seq<Byte>)
    requires img.Valid() && |out| == |img.data| && img.InRange(x, y)
    ensures |r| == |out|
    decreases Unmarked(out), 1
  {
    var k := FirstOpen(img, low, out, x, y, 0);
    if k == 9 then out else Walk(img, low, out, x + OffX(k), y + OffY(k))
  }

  // ---------------------------------------------------------------- trace and hysteresis

  /** trace marks exactly the walk from (x, y), and tells whether it marked anything. */
  method Trace(img: Image, low: int, out: array<Byte>, x: nat, y: nat) returns (traced: bool)
    requires img.Valid() && out.Length == |img.data| && img.InRange(x, y)
    modifies out
    ensures out[..] == Walk(img, low, old(out[..]), x, y)
    ensures traced <==> !Marked(img, old(out[..]), x, y)
    decreases Unmarked(out[..]), 2
  {
    img.PosInRange(x, y);
    if out[img.Pos(x, y)] == 0 {
      ghost var before, next := out[..], Mark(img, out[..], x, y);
      MarkShrinks(img, before, x, y);
      out[img.Pos(x, y)] := 0xFF;
      assert out[..] == next;
      TraceNeighbours(img, low, out, x, y, next);
      return true;
    }
    return false;
  }

  /** The two loops over the neighbours: go on with the first open one, if there is one. */
  method TraceNeighbours(img: Image, low: int, out: array<Byte>, x: nat, y: nat, ghost next: seq<Byte>)
    requires img.Valid() && out.Length == |img.data| && img.InRange(x, y) && out[..] == next
    modifies out
    ensures out[..] == WalkOn(img, low, next, x, y)
    decreases Unmarked(next), 5
  {
    ghost var first := FirstOpen(img, low, next, x, y, 0);
    for yOff := -1 to 2
      invariant out[..] == next && first == FirstOpen(img, low, next, x, y, 3 * (yOff + 1))
    {
      var deeper := TraceRow(img, low, out, x, y, yOff);
      if deeper {
        return;
      }
    }
  }

  /** One row of neighbours: go on with the first open one, if there is one. */
  method TraceRow(img: Image, low: int, out: array<Byte>, x: nat, y: nat, yOff: int) returns (deeper: bool)
    requires img.Valid() && out.Length == |img.data| && img.InRange(x, y) && -1 <= yOff <= 1
    modifies out
    ensures var k := FirstOpen(img, low, old(out[..]), x, y, 3 * (yOff + 1));
            && (deeper <==> k < 3 * (yOff + 2))
            && (deeper ==> out[..] == Walk(img, low, old(out[..]), x + OffX(k), y + OffY(k)))
            && (!deeper ==> out[..] == old(out[..]) && k == FirstOpen(img, low, old(out[..]), x, y, 3 * (yOff + 2)))
    decreases Unmarked(out[..]), 4
  {
    ghost var next, first, k := out[..], 3 * (yOff + 1), 3 * (yOff + 1);
    for xOff := -1 to 2
      invariant k == first + (xOff + 1) && out[..] == next
      invariant FirstOpen(img, low, next, x, y, first) == FirstOpen(img, low, next, x, y, k)
    {
      NeighbourOffsets(yOff, xOff);
      deeper := TraceNeighbour(img, low, out, x, y, xOff, yOff, k);
      if deeper {
        return true;
      }
      k := k + 1;
    }
    return false;
  }

  /** The body of the two loops: trace neighbour k if it passes the test. */
  method TraceNeighbour(img: Image, low: int, out: array<Byte>, x: nat, y: nat, xOff: int, yOff: int, ghost k: nat)
    returns (deeper: bool)
    requires img.Valid() && out.Length == |img.data| && img.InRange(x, y) && k < 9 && OffX(k) == xOff && OffY(k) == yOff
    modifies out
    ensures deeper <==> Open(img, low, old(out[..]), x, y, k)
    ensures deeper ==> out[..] == Walk(img, low, old(out[..]), x + xOff, y + yOff)
    ensures !deeper ==> out[..] == old(out[..])
    decreases Unmarked(out[..]), 3
  {
    deeper := false;
    if !(y == 0 && xOff == 0) && img.InRange(x + xOff, y + yOff) && img.Pixel(x + xOff, y + yOff) >= low {
      deeper := Trace(img, low, out, x + xOff, y + yOff);
    }
  }

  lemma NeighbourOffsets(yOff: int, xOff: int)
    requires -1 <= yOff <= 1 && -1 <= xOff <= 1
    ensures OffX(3 * (yOff + 1) + (xOff + 1)) == xOff && OffY(3 * (yOff + 1) + (xOff + 1)) == yOff
  {
  }

  // ---------------------------------------------------------------- the scan for seeds

  /** One pixel of the scan: walk from it if it is a seed. */
  function Visit(img: Image, high: int, low: int, out: seq<Byte>, x: nat, y: nat): (r: seq<Byte>)
    requires img.Valid() && |out| == |img.data| && img.InRange(x, y)
    ensures |r| == |out|
  {
    if img.Pixel(x, y) >= high then Walk(img, low, out, x, y) else out
  }

  function ScanRow(img: Image, high: int, low: int, out: seq<Byte>, y: nat, n: nat): (r: seq<Byte>)
    requires img.Valid() && |out| == |img.data| && y < img.height && n <= img.width
    ensures |r| == |out|
  {
    if n == 0 then out else Visit(img, high, low, ScanRow(img, high, low, out, y, n - 1), n - 1, y)
  }

  function Blank(img: Image): (out: seq<Byte>)
    ensures |out| == |img.data|
  {
    seq(|img.data|, _ => 0)
  }

  function Scan(img: Image, high: int, low: int, n: nat): (r: seq<Byte>)
    requires img.Valid() && n <= img.height
    ensures |r| == |img.data|
  {
    if n == 0 then Blank(img) else ScanRow(img, high, low, Scan(img, high, low, n - 1), n - 1, img.width)
  }

  /** hysteresis: blank the output, then walk from every seed in the order of the scan. */
  method Run(high: int, low: int, img: Image, out: array<Byte>)
    requires img.Valid() && out.Length == |img.data|
    modifies out
    ensures out[..] == Scan(img, high, low, img.height)
    ensures GoodScan(img, high, low, out[..], 0, img.height)
  {
    ScanIsSound(img, high, low, img.height);
    for n := 0 to out.Length
      invariant forall i :: 0 <= i < n ==> out[i] == 0
    {
      out[n] := 0x00;
    }
    assert out[..] == Blank(img);
    for y := 0 to img.height
      invariant out[..] == Scan(img, high, low, y)
    {
      for x := 0 to img.width
        invariant out[..] == ScanRow(img, high, low, Scan(img, high, low, y), y, x)
      {
        if img.Pixel(x, y) >= high {
          var traced := Trace(img, low, out, x, y);
        }
      }
    }
  }

  // ---------------------------------------------------------------- what the result means

  datatype Point = Point(x: nat, y: nat)

  /** The scan as one loop over the pixels in the order they are stored. */
  function ScanPixels(img: Image, high: int, low: int, n: nat): (r: seq<Byte>)
    requires img.Valid() && n <= |img.data|
    ensures |r| == |img.data|
  {
    if n == 0 then Blank(img)
    else
      Located(img, n - 1);
      Visit(img, high, low, ScanPixels(img, high, low, n - 1), (n - 1) % img.width, (n - 1) / img.width)
  }

  lemma Located(img: Image, i: nat)
    requires img.Valid() && i < |img.data|
    ensures 0 < img.width && img.InRange(i % img.width, i / img.width)
  {
    if img.width > 0 && i / img.width >= img.height {
      AtMost(img.width, img.height, i / img.width);
    }
  }

  lemma AtMost(w: nat, h: nat, q: nat)
    requires h <= q
    ensures w * h <= w * q
  {
  }

  lemma NextPixel(img: Image, high: int, low: int, b: nat, y: nat, n: nat)
    requires img.Valid() && y < img.height && n < img.width && b == y * img.width && b + n < |img.data|
    ensures ScanPixels(img, high, low, b + n + 1) == Visit(img, high, low, ScanPixels(img, high, low, b + n), n, y)
  {
    Quotient(b + n, img.width, y, n);
  }

  lemma {:induction false} ScanRowPixels(img: Image, high: int, low: int, b: nat, y: nat, n: nat)
    requires img.Valid() && y < img.height && n <= img.width && b == y * img.width && b + n <= |img.data|
    requires Scan(img, high, low, y) == ScanPixels(img, high, low, b)
    ensures ScanRow(img, high, low, Scan(img, high, low, y), y, n) == ScanPixels(img, high, low, b + n)
  {
    if n > 0 {
      ScanRowPixels(img, high, low, b, y, n - 1);
      NextPixel(img, high, low, b, y, n - 1);
    }
  }

  /** The scan visits the pixels row by row. */
  lemma {:induction false} ScanIsRowMajor(img: Image, high: int, low: int, y: nat)
    requires img.Valid() && y <= img.height
    ensures 0 <= y * img.width <= |img.data|
    ensures Scan(img, high, low, y) == ScanPixels(img, high, low, y * img.width)
  {
    AtMost(img.width, y, img.height);
    if y > 0 {
      ScanIsRowMajor(img, high, low, y - 1);
      assert (y - 1) * img.width + img.width == y * img.width;
      ScanRowPixels(img, high, low, (y - 1) * img.width, y - 1, img.width);
    }
  }

  ghost predicate Step(img: Image, low: int, p: Point, q: Point)
    requires img.Valid() && img.InRange(p.x, p.y)
  {
    exists k :: 0 <= k < 9 && StepsTo(img, low, p, q, k)
  }

  predicate StepsTo(img: Image, low: int, p: Point, q: Point, k: nat)
    requires img.Valid() && img.InRange(p.x, p.y)
  {
    Passes(img, low, p.x, p.y, k) && q.x == p.x + OffX(k) && q.y == p.y + OffY(k)
  }

  predicate Near(p: Point, q: Point) {
    -1 <= q.x - p.x <= 1 && -1 <= q.y - p.y <= 1
  }

  /** The number of a neighbour in the order they are tried. */
  function NeighbourNumber(p: Point, q: Point): (k: int)
    requires Near(p, q)
    ensures 0 <= k < 9 && q.x == p.x + OffX(k) && q.y == p.y + OffY(k)
  {
    3 * (q.y - p.y + 1) + (q.x - p.x + 1)
  }

  /** What the test of trace admits: the pixels at or above the low threshold of the 3 by 3 square inside the image,
      for a pixel of row 0 without its own column. */
  predicate Admits(img: Image, low: int, p: Point, q: Point)
    requires img.Valid()
  {
    img.InRange(q.x, q.y) && Near(p, q) && (p.y > 0 || q.x != p.x) && img.Pixel(q.x, q.y) >= low
  }

  lemma StepIs(img: Image, low: int, p: Point, q: Point)
    requires img.Valid() && img.InRange(p.x, p.y)
    ensures Step(img, low, p, q) <==>
              img.InRange(q.x, q.y) && Near(p, q) && (p.y > 0 || q.x != p.x) && img.Pixel(q.x, q.y) >= low
  {
    if Admits(img, low, p, q) {
      assert StepsTo(img, low, p, q, NeighbourNumber(p, q));
    }
  }

  /** The first open neighbour comes before every other open one. */
  lemma {:induction false} FirstOpenIsFirst(img: Image, low: int, out: seq<Byte>, x: nat, y: nat, k: nat, m: nat)
    requires img.Valid() && |out| == |img.data| && img.InRange(x, y) && k <= m < 9 && Open(img, low, out, x, y, m)
    ensures FirstOpen(img, low, out, x, y, k) <= m
    decreases m - k
  {
    if k < m {
      FirstOpenIsFirst(img, low, out, x, y, k + 1, m);
    }
  }

  /** A walk goes on to the unmarked pixel the test admits that is first in the order of the rows, and in a row from the
      left. */
  lemma WalkGoesToFirst(img: Image, low: int, out: seq<Byte>, p: Point, q: Point, q': Point)
    requires img.Valid() && |out| == |img.data| && img.InRange(p.x, p.y) && FirstOpen(img, low, out, p.x, p.y, 0) < 9
    requires var k := FirstOpen(img, low, out, p.x, p.y, 0); q == Point(p.x + OffX(k), p.y + OffY(k))
    requires Admits(img, low, p, q') && !Marked(img, out, q'.x, q'.y)
    ensures WalkOn(img, low, out, p.x, p.y) == Walk(img, low, out, q.x, q.y)
    ensures Admits(img, low, p, q) && !Marked(img, out, q.x, q.y)
    ensures q.y < q'.y || (q.y == q'.y && q.x <= q'.x)
  {
    var k, m := FirstOpen(img, low, out, p.x, p.y, 0), NeighbourNumber(p, q');
    AdmittedIsOpen(img, low, out, p, q');
    FirstOpenIsFirst(img, low, out, p.x, p.y, 0, m);
    OpenIsAdmitted(img, low, out, p, q, k);
    NumbersAreInOrder(p, q, q', k, m);
  }

  lemma AdmittedIsOpen(img: Image, low: int, out: seq<Byte>, p: Point, q: Point)
    requires img.Valid() && |out| == |img.data| && img.InRange(p.x, p.y)
    requires Admits(img, low, p, q) && !Marked(img, out, q.x, q.y)
    ensures Open(img, low, out, p.x, p.y, NeighbourNumber(p, q))
  {
  }

  lemma OpenIsAdmitted(img: Image, low: int, out: seq<Byte>, p: Point, q: Point, k: nat)
    requires img.Valid() && |out| == |img.data| && img.InRange(p.x, p.y) && k < 9 && Open(img, low, out, p.x, p.y, k)
    requires q.x == p.x + OffX(k) && q.y == p.y + OffY(k)
    ensures Admits(img, low, p, q) && !Marked(img, out, q.x, q.y)
  {
  }

  lemma NumbersAreInOrder(p: Point, q: Point, q': Point, k: nat, m: nat)
    requires k <= m < 9 && q.x == p.x + OffX(k) && q.y == p.y + OffY(k)
    requires q'.x == p.x + OffX(m) && q'.y == p.y + OffY(m)
    ensures q.y < q'.y || (q.y == q'.y && q.x <= q'.x)
  {
  }

  /** A chain of marked pixels from a seed on, each passing the test of trace from the one before. */
  ghost predicate Chain(img: Image, high: int, low: int, out: seq<Byte>, path: seq<Point>)
    requires img.Valid() && |out| == |img.data|
  {
    && path != []
    && (forall i :: 0 <= i < |path| ==> img.InRange(path[i].x, path[i].y) && Marked(img, out, path[i].x, path[i].y))
    && img.Pixel(path[0].x, path[0].y) >= high
    && (forall i :: 0 < i < |path| ==> Step(img, low, path[i - 1], path[i]))
  }

  ghost predicate Joined(img: Image, high: int, low: int, out: seq<Byte>, p: Point)
    requires img.Valid() && |out| == |img.data|
  {
    exists path: seq<Point> :: Chain(img, high, low, out, path) && path[|path| - 1] == p
  }

  ghost predicate AllJoined(img: Image, high: int, low: int, out: seq<Byte>)
    requires img.Valid() && |out| == |img.data|
  {
    forall p: Point {:trigger Joined(img, high, low, out, p)} ::
      img.InRange(p.x, p.y) && Marked(img, out, p.x, p.y) ==> Joined(img, high, low, out, p)
  }

  predicate Binary(out: seq<Byte>) {
    forall i :: 0 <= i < |out| ==> out[i] == 0 || out[i] == 0xFF
  }

  /** Marks are only added. */
  predicate Grows(out: seq<Byte>, after: seq<Byte>) {
    |after| == |out| && forall i :: 0 <= i < |out| && out[i] != 0 ==> after[i] == out[i]
  }

  /** The pixel may be marked next: it is a seed, or it passes the test from a pixel that is joined to one. */
  ghost predicate MayMark(img: Image, high: int, low: int, out: seq<Byte>, q: Point)
    requires img.Valid() && |out| == |img.data| && img.InRange(q.x, q.y)
  {
    || img.Pixel(q.x, q.y) >= high
    || exists p: Point :: img.InRange(p.x, p.y) && Joined(img, high, low, out, p) && Step(img, low, p, q)
  }

  lemma MarkJoins(img: Image, high: int, low: int, out: seq<Byte>, q: Point)
    requires img.Valid() && |out| == |img.data| && img.InRange(q.x, q.y) && MayMark(img, high, low, out, q)
    ensures Joined(img, high, low, Mark(img, out, q.x, q.y), q)
  {
    var after := Mark(img, out, q.x, q.y);
    img.PosInRange(q.x, q.y);
    assert Marked(img, after, q.x, q.y);
    if img.Pixel(q.x, q.y) >= high {
      SeedJoins(img, high, low, after, q);
    } else {
      var p: Point :| img.InRange(p.x, p.y) && Joined(img, high, low, out, p) && Step(img, low, p, q);
      JoinedGrowsByMark(img, high, low, out, q, p);
      StepJoins(img, high, low, after, p, q);
    }
  }

  lemma SeedJoins(img: Image, high: int, low: int, out: seq<Byte>, q: Point)
    requires img.Valid() && |out| == |img.data| && img.InRange(q.x, q.y) && img.Pixel(q.x, q.y) >= high
    requires Marked(img, out, q.x, q.y)
    ensures Joined(img, high, low, out, q)
  {
    assert Chain(img, high, low, out, [q]);
  }

  /** A chain goes on with every marked pixel that passes the test from its end. */
  lemma StepJoins(img: Image, high: int, low: int, out: seq<Byte>, p: Point, q: Point)
    requires img.Valid() && |out| == |img.data| && img.InRange(p.x, p.y) && img.InRange(q.x, q.y)
    requires Joined(img, high, low, out, p) && Step(img, low, p, q) && Marked(img, out, q.x, q.y)
    ensures Joined(img, high, low, out, q)
  {
    var path: seq<Point> :| Chain(img, high, low, out, path) && path[|path| - 1] == p;
    var longer := path + [q];
    forall i | 0 < i < |longer| ensures Step(img, low, longer[i - 1], longer[i]) {
      assert i < |path| ==> longer[i - 1] == path[i - 1] && longer[i] == path[i];
    }
    assert Chain(img, high, low, out, longer) && longer[|longer| - 1] == q;
  }

  lemma JoinedGrowsByMark(img: Image, high: int, low: int, out: seq<Byte>, q: Point, p: Point)
    requires img.Valid() && |out| == |img.data| && img.InRange(q.x, q.y) && Joined(img, high, low, out, p)
    ensures Joined(img, high, low, Mark(img, out, q.x, q.y), p)
  {
    var path: seq<Point> :| Chain(img, high, low, out, path) && path[|path| - 1] == p;
    var after := Mark(img, out, q.x, q.y);
    forall i | 0 <= i < |path| ensures Marked(img, after, path[i].x, path[i].y) {
      img.PosInRange(path[i].x, path[i].y);
    }
    assert Chain(img, high, low, after, path);
  }

  lemma MarkKeepsJoined(img: Image, high: int, low: int, out: seq<Byte>, q: Point)
    requires img.Valid() && |out| == |img.data| && img.InRange(q.x, q.y) && MayMark(img, high, low, out, q)
    requires AllJoined(img, high, low, out)
    ensures AllJoined(img, high, low, Mark(img, out, q.x, q.y))
  {
    var after := Mark(img, out, q.x, q.y);
    forall p: Point | img.InRange(p.x, p.y) && Marked(img, after, p.x, p.y) ensures Joined(img, high, low, after, p) {
      img.PosInRange(p.x, p.y);
      img.PosInRange(q.x, q.y);
      if img.Pos(p.x, p.y) == img.Pos(q.x, q.y) {
        img.PosIsInjective(p.x, p.y, q.x, q.y);
        MarkJoins(img, high, low, out, q);
      } else {
        assert Joined(img, high, low, out, p);
        JoinedGrowsByMark(img, high, low, out, q, p);
      }
    }
  }

  /** A walk only adds marks, that of the pixel it starts from in any case. */
  lemma {:induction false} WalkGrows(img: Image, low: int, out: seq<Byte>, x: nat, y: nat)
    requires img.Valid() && |out| == |img.data| && img.InRange(x, y)
    ensures Grows(out, Walk(img, low, out, x, y)) && Marked(img, Walk(img, low, out, x, y), x, y)
    ensures Binary(out) ==> Binary(Walk(img, low, out, x, y))
    decreases Unmarked(out)
  {
    if !Marked(img, out, x, y) {
      MarkShrinks(img, out, x, y);
      var next := Mark(img, out, x, y);
      img.PosInRange(x, y);
      var k := FirstOpen(img, low, next, x, y, 0);
      if k < 9 {
        WalkGrows(img, low, next, x + OffX(k), y + OffY(k));
      }
    }
  }

  /** The pixel that a walk goes to from a joined pixel may be marked. */
  lemma OpenMayBeMarked(img: Image, high: int, low: int, out: seq<Byte>, q: Point, k: nat)
    requires img.Valid() && |out| == |img.data| && img.InRange(q.x, q.y) && Joined(img, high, low, out, q) && k < 9
    requires Passes(img, low, q.x, q.y, k)
    ensures MayMark(img, high, low, out, Point(q.x + OffX(k), q.y + OffY(k)))
  {
    var n := Point(q.x + OffX(k), q.y + OffY(k));
    assert StepsTo(img, low, q, n, k);
    assert Step(img, low, q, n);
  }

  /** A walk keeps every mark joined to a seed. */
  lemma {:induction false} WalkKeepsJoined(img: Image, high: int, low: int, out: seq<Byte>, q: Point)
    requires img.Valid() && |out| == |img.data| && img.InRange(q.x, q.y) && MayMark(img, high, low, out, q)
    requires AllJoined(img, high, low, out)
    ensures AllJoined(img, high, low, Walk(img, low, out, q.x, q.y))
    decreases Unmarked(out)
  {
    if !Marked(img, out, q.x, q.y) {
      MarkShrinks(img, out, q.x, q.y);
      var next := Mark(img, out, q.x, q.y);
      MarkKeepsJoined(img, high, low, out, q);
      MarkJoins(img, high, low, out, q);
      var k := FirstOpen(img, low, next, q.x, q.y, 0);
      if k < 9 {
        OpenMayBeMarked(img, high, low, next, q, k);
        WalkKeepsJoined(img, high, low, next, Point(q.x + OffX(k), q.y + OffY(k)));
      }
    }
  }

  ghost predicate SeedsMarked(img: Image, high: int, out: seq<Byte>, x: nat, y: nat)
    requires img.Valid() && |out| == |img.data|
  {
    forall p: Point :: img.InRange(p.x, p.y) && (p.y < y || (p.y == y && p.x < x)) && img.Pixel(p.x, p.y) >= high ==>
        Marked(img, out, p.x, p.y)
  }

  ghost predicate GoodScan(img: Image, high: int, low: int, out: seq<Byte>, x: nat, y: nat)
    requires img.Valid() && |out| == |img.data|
  {
    AllJoined(img, high, low, out) && Binary(out) && SeedsMarked(img, high, out, x, y)
  }

  lemma VisitKeeps(img: Image, high: int, low: int, out: seq<Byte>, x: nat, y: nat)
    requires img.Valid() && |out| == |img.data| && img.InRange(x, y) && GoodScan(img, high, low, out, x, y)
    ensures GoodScan(img, high, low, Visit(img, high, low, out, x, y), x + 1, y)
  {
    if img.Pixel(x, y) >= high {
      var r := Walk(img, low, out, x, y);
      WalkKeepsJoined(img, high, low, out, Point(x, y));
      WalkGrows(img, low, out, x, y);
      forall p: Point | img.InRange(p.x, p.y) && (p.y < y || (p.y == y && p.x < x + 1)) && img.Pixel(p.x, p.y) >= high
        ensures Marked(img, r, p.x, p.y)
      {
        img.PosInRange(p.x, p.y);
        assert p == Point(x, y) || Marked(img, out, p.x, p.y);
      }
    }
  }

  lemma {:induction false} ScanRowKeeps(img: Image, high: int, low: int, out: seq<Byte>, y: nat, n: nat)
    requires img.Valid() && |out| == |img.data| && y < img.height && n <= img.width
    requires GoodScan(img, high, low, out, 0, y)
    ensures GoodScan(img, high, low, ScanRow(img, high, low, out, y, n), n, y)
  {
    if n > 0 {
      ScanRowKeeps(img, high, low, out, y, n - 1);
      VisitKeeps(img, high, low, ScanRow(img, high, low, out, y, n - 1), n - 1, y);
    }
  }

  /** The result holds only 0 and 255, marks every seed, and every marked pixel is joined to a seed by a chain of marked
      neighbours at or above the low threshold. */
  lemma {:induction false} ScanIsSound(img: Image, high: int, low: int, n: nat)
    requires img.Valid() && n <= img.height
    ensures GoodScan(img, high, low, Scan(img, high, low, n), 0, n)
  {
    if n == 0 {
      forall p: Point | img.InRange(p.x, p.y) ensures !Marked(img, Blank(img), p.x, p.y) {
        img.PosInRange(p.x, p.y);
      }
    } else {
      ScanIsSound(img, high, low, n - 1);
      ScanRowKeeps(img, high, low, Scan(img, high, low, n - 1), n - 1, img.width);
    }
  }

  /** A walk goes on for as long as it can: it ends at a pixel that it marked and that has no open neighbour left. */
  lemma {:induction false} WalkEnds(img: Image, low: int, out: seq<Byte>, x: nat, y: nat) returns (end: Point)
    requires img.Valid() && |out| == |img.data| && img.InRange(x, y) && !Marked(img, out, x, y)
    ensures img.InRange(end.x, end.y) && !Marked(img, out, end.x, end.y)
    ensures Stops(img, low, Walk(img, low, out, x, y), end)
    decreases Unmarked(out)
  {
    MarkShrinks(img, out, x, y);
    var next := Mark(img, out, x, y);
    img.PosInRange(x, y);
    var k := FirstOpen(img, low, next, x, y, 0);
    if k == 9 {
      end := Point(x, y);
    } else {
      end := WalkEnds(img, low, next, x + OffX(k), y + OffY(k));
      UnmarkedBefore(img, out, x, y, end);
    }
  }

  /** So its last pixel is marked and has no unmarked pixel next to it that the test admits. */
  lemma WalkLeavesNothing(img: Image, low: int, out: seq<Byte>, x: nat, y: nat) returns (end: Point)
    requires img.Valid() && |out| == |img.data| && img.InRange(x, y) && !Marked(img, out, x, y)
    ensures img.InRange(end.x, end.y) && !Marked(img, out, end.x, end.y)
    ensures Marked(img, Walk(img, low, out, x, y), end.x, end.y)
    ensures forall q: Point :: Admits(img, low, end, q) ==> Marked(img, Walk(img, low, out, x, y), q.x, q.y)
  {
    end := WalkEnds(img, low, out, x, y);
    forall q: Point | Admits(img, low, end, q) ensures Marked(img, Walk(img, low, out, x, y), q.x, q.y) {
      StopsAt(img, low, Walk(img, low, out, x, y), end, q);
    }
  }

  lemma StopsAt(img: Image, low: int, out: seq<Byte>, p: Point, q: Point)
    requires img.Valid() && |out| == |img.data| && img.InRange(p.x, p.y) && Stops(img, low, out, p)
    requires Admits(img, low, p, q)
    ensures Marked(img, out, q.x, q.y)
  {
    if !Marked(img, out, q.x, q.y) {
      FirstOpenIsFirst(img, low, out, p.x, p.y, 0, NeighbourNumber(p, q));
    }
  }

  /** The pixel is marked and has no open neighbour. */
  predicate Stops(img: Image, low: int, out: seq<Byte>, p: Point)
    requires img.Valid() && |out| == |img.data| && img.InRange(p.x, p.y)
  {
    Marked(img, out, p.x, p.y) && FirstOpen(img, low, out, p.x, p.y, 0) == 9
  }

  lemma UnmarkedBefore(img: Image, out: seq<Byte>, x: nat, y: nat, p: Point)
    requires img.Valid() && |out| == |img.data| && img.InRange(x, y) && img.InRange(p.x, p.y)
    requires !Marked(img, Mark(img, out, x, y), p.x, p.y)
    ensures !Marked(img, out, p.x, p.y)
  {
    img.PosInRange(p.x, p.y);
  }

  // ---------------------------------------------------------------- when the result is complete

  /** A flood: every neighbour at or above the low threshold of a marked pixel is marked. */
  ghost predicate Complete(img: Image, low: int, out: seq<Byte>)
    requires img.Valid() && |out| == |img.data|
  {
    forall p: Point, q: Point ::
      (&& img.InRange(p.x, p.y) && img.InRange(q.x, q.y) && Near(p, q)
       && Marked(img, out, p.x, p.y) && img.Pixel(q.x, q.y) >= low) ==> Marked(img, out, q.x, q.y)
  }

  /** No pixel lies between the thresholds. */
  ghost predicate Decided(img: Image, high: int, low: int)
    requires img.Valid()
  {
    forall q: Point :: img.InRange(q.x, q.y) && img.Pixel(q.x, q.y) >= low ==> img.Pixel(q.x, q.y) >= high
  }

  lemma JoinedNeedsSeed(img: Image, high: int, low: int, out: seq<Byte>, p: Point)
    requires img.Valid() && |out| == |img.data| && Joined(img, high, low, out, p)
    ensures exists q: Point :: img.InRange(q.x, q.y) && img.Pixel(q.x, q.y) >= high
  {
    var path: seq<Point> :| Chain(img, high, low, out, path) && path[|path| - 1] == p;
    assert img.InRange(path[0].x, path[0].y);
  }

  /** On an image with no pixel between the thresholds, and on one without a seed, the result is complete. */
  lemma CompleteIfDecided(img: Image, high: int, low: int)
    requires img.Valid()
    requires Decided(img, high, low) || forall p: Point :: img.InRange(p.x, p.y) ==> img.Pixel(p.x, p.y) < high
    ensures Complete(img, low, Scan(img, high, low, img.height))
  {
    ScanIsSound(img, high, low, img.height);
    var out := Scan(img, high, low, img.height);
    if !Decided(img, high, low) {
      forall p: Point | img.InRange(p.x, p.y) ensures !Marked(img, out, p.x, p.y) {
        if Joined(img, high, low, out, p) {
          JoinedNeedsSeed(img, high, low, out, p);
        }
      }
    }
  }

  /** The result is complete on every image if and only if the thresholds leave nothing to trace: no value lies between
      them, or every pixel is a seed, or none is. */
  lemma CompleteIff(high: int, low: int)
    ensures (forall img: Image :: img.Valid() ==> Complete(img, low, Scan(img, high, low, img.height)))
       <==> high <= low || high <= 0 || high > 255
  {
    if high <= low || high <= 0 || high > 255 {
      forall img: Image | img.Valid() ensures Complete(img, low, Scan(img, high, low, img.height)) {
        CompleteIfDecided(img, high, low);
      }
    } else {
      var img := Image(1, 2, [high, high - 1]);
      TopRowSkipsItsColumn(high, high - 1, high, low);
      var p, q := Point(0, 0), Point(0, 1);
      assert img.Pos(0, 1) == 1 && Near(p, q);
      assert Marked(img, Scan(img, high, low, 2), p.x, p.y) && !Marked(img, Scan(img, high, low, 2), q.x, q.y);
    }
  }

  // ---------------------------------------------------------------- the two ways to miss a neighbour

  /** Row 0 skips its own column: the pixel below a seed is missed, although nothing else was traced. */
  lemma TopRowSkipsItsColumn(h: Byte, v: Byte, high: int, low: int)
    requires low <= v < high <= h
    ensures var img := Image(1, 2, [h, v]); img.Valid() && Scan(img, high, low, 2) == [0xFF, 0]
  {
    var img := Image(1, 2, [h, v]);
    var blank: seq<Byte>, top: seq<Byte> := [0, 0], [0xFF, 0];
    assert img.Pos(0, 0) == 0 && img.Pos(0, 1) == 1;
    assert Blank(img) == blank && Mark(img, blank, 0, 0) == top;
    assert forall k :: 0 <= k < 9 ==> !Open(img, low, top, 0, 0, k);
    NothingOpen(img, low, top, 0, 0, 0);
    assert WalkOn(img, low, top, 0, 0) == top;
    assert Walk(img, low, blank, 0, 0) == top;
    assert ScanRow(img, high, low, blank, 0, 0) == blank;
    assert ScanRow(img, high, low, blank, 0, 1) == top;
    assert Scan(img, high, low, 0) == blank;
    assert Scan(img, high, low, 1) == top;
    assert ScanRow(img, high, low, top, 1, 0) == top;
    assert ScanRow(img, high, low, top, 1, 1) == top;
  }

  lemma {:induction false} NothingOpen(img: Image, low: int, out: seq<Byte>, x: nat, y: nat, k: nat)
    requires img.Valid() && |out| == |img.data| && img.InRange(x, y) && k <= 9
    requires forall i :: k <= i < 9 ==> !Open(img, low, out, x, y, i)
    ensures FirstOpen(img, low, out, x, y, k) == 9
    decreases 9 - k
  {
    if k < 9 {
      NothingOpen(img, low, out, x, y, k + 1);
    }
  }

  /** The early return: from a seed in the middle of a row the walk goes left, and the right neighbour is missed,
      although it passes the same test. */
  lemma NotAFlood(h: Byte, v: Byte, high: int, low: int)
    requires low <= v < high <= h
    ensures var img := Image(3, 1, [v, h, v]);
            img.Valid() && Passes(img, low, 1, 0, 5) && Scan(img, high, low, 1) == [0xFF, 0xFF, 0]
  {
    var img := Image(3, 1, [v, h, v]);
    var a: seq<Byte>, b: seq<Byte>, c: seq<Byte> := [0, 0, 0], [0, 0xFF, 0], [0xFF, 0xFF, 0];
    assert img.Pos(0, 0) == 0 && img.Pos(1, 0) == 1 && img.Pos(2, 0) == 2;
    assert Blank(img) == a && Mark(img, a, 1, 0) == b && Mark(img, b, 0, 0) == c;
    LeftFirst(img, low, b);
    assert forall k :: 0 <= k < 9 ==> !Open(img, low, c, 0, 0, k);
    NothingOpen(img, low, c, 0, 0, 0);
    assert Walk(img, low, b, 0, 0) == c;
    assert Walk(img, low, a, 1, 0) == c;
    assert ScanRow(img, high, low, a, 0, 0) == a;
    assert ScanRow(img, high, low, a, 0, 1) == a;
    assert ScanRow(img, high, low, a, 0, 2) == c;
    assert ScanRow(img, high, low, a, 0, 3) == c;
    assert Scan(img, high, low, 0) == a;
  }

  lemma LeftFirst(img: Image, low: int, b: seq<Byte>)
    requires img.Valid() && img.width == 3 && img.height == 1 && b == [0, 0xFF, 0] && img.data[0] >= low
    ensures FirstOpen(img, low, b, 1, 0, 0) == 3
  {
    assert img.Pos(0, 0) == 0;
    assert Open(img, low, b, 1, 0, 3);
    assert FirstOpen(img, low, b, 1, 0, 3) == 3;
    assert FirstOpen(img, low, b, 1, 0, 1) == FirstOpen(img, low, b, 1, 0, 2) == FirstOpen(img, low, b, 1, 0, 3);
  }
}
