/** The triangular window that the stack blur slides over one line of samples, and its two differences.

    A line is read with clamped edges: an index before the line reads its first sample, an index past it
    the last one.  Samples are unbounded integers here, so that the same sums serve single colour channels
    and packed colours alike. */
module WindowSums {

  function Clamp(i: int, n: int): (r: int)
    requires 0 < n
    ensures 0 <= r < n
    ensures 0 <= i < n ==> r == i
  {
    if i < 0 then 0 else if i < n then i else n - 1
  }

  function At(line: seq<int>, i: int): int
    requires line != []
  {
    line[Clamp(i, |line|)]
  }

  /** The part of the window around x that lies within distance k: the sum of (r + 1 - |d|) * line[x + d]. */
  function Window(line: seq<int>, r: int, x: int, k: nat): int
    requires line != []
  {
    if k == 0 then (r + 1) * At(line, x)
    else Window(line, r, x, k - 1) + (r + 1 - k) * (At(line, x - k) + At(line, x + k))
  }

  function WindowSum(line: seq<int>, r: nat, x: int): int
    requires line != []
  {
    Window(line, r, x, r)
  }

  /** The weighted samples from x + lo to x + hi: the sample at distance d counts r + 1 - |d| times,
      and past an end of the line it is the one at that end. */
  function Triangular(line: seq<int>, r: int, x: int, lo: int, hi: int): int
    requires line != []
    decreases hi - lo
  {
    if hi < lo then 0
    else
      var sample := if x + hi < 0 then line[0] else if x + hi < |line| then line[x + hi] else line[|line| - 1];
      Triangular(line, r, x, lo, hi - 1) + (r + 1 - if hi < 0 then -hi else hi) * sample
  }

  lemma {:induction false} TriangularFromLeft(line: seq<int>, r: int, x: int, lo: int, hi: int)
    requires line != [] && lo <= hi
    ensures Triangular(line, r, x, lo, hi)
         == (r + 1 - if lo < 0 then -lo else lo) * At(line, x + lo) + Triangular(line, r, x, lo + 1, hi)
    decreases hi - lo
  {
    if lo < hi {
      TriangularFromLeft(line, r, x, lo, hi - 1);
    }
  }

  lemma {:induction false} WindowIsTriangular(line: seq<int>, r: int, x: int, k: nat)
    requires line != []
    ensures Window(line, r, x, k) == Triangular(line, r, x, 0 - k, k)
  {
    if k > 0 {
      WindowIsTriangular(line, r, x, k - 1);
      TriangularFromLeft(line, r, x, 0 - k, k);
      BothEnds(r + 1 - k, At(line, x - k), At(line, x + k));
    }
  }

  lemma BothEnds(weight: int, left: int, right: int)
    ensures weight * (left + right) == weight * left + weight * right
  {
  }

  /** The window sum is the triangular sum of the samples up to distance r. */
  lemma WindowSumIsTriangular(line: seq<int>, r: nat, x: int)
    requires line != []
    ensures WindowSum(line, r, x) == Triangular(line, r, x, 0 - r, r)
  {
    WindowIsTriangular(line, r, x, r);
  }

  /** The first difference of the window sum, which the running accumulator holds. */
  function Slope(line: seq<int>, r: nat, x: int): int
    requires line != []
  {
    WindowSum(line, r, x) - WindowSum(line, r, x - 1)
  }

  /** The flat window of half-width k. */
  function Box(line: seq<int>, x: int, k: nat): int
    requires line != []
  {
    if k == 0 then At(line, x) else Box(line, x, k - 1) + At(line, x - k) + At(line, x + k)
  }

  lemma {:induction false} WindowWidens(line: seq<int>, r: int, x: int, k: nat)
    requires line != []
    ensures Window(line, r, x, k) == Window(line, r - 1, x, k) + Box(line, x, k)
  {
    if k > 0 {
      WindowWidens(line, r, x, k - 1);
      var s := At(line, x - k) + At(line, x + k);
      assert (r + 1 - k) * s == (r - k) * s + s;
    }
  }

  lemma {:induction false} BoxSlides(line: seq<int>, x: int, k: nat)
    requires line != []
    ensures Box(line, x, k) - Box(line, x - 1, k) == At(line, x + k) - At(line, x - 1 - k)
  {
    if k > 0 {
      BoxSlides(line, x, k - 1);
    }
  }

  /** Widening the window by one adds the two samples at its new ends to the slope. */
  lemma SlopeWidens(line: seq<int>, r: nat, x: int)
    requires line != [] && 0 < r
    ensures Slope(line, r, x) == Slope(line, r - 1, x) + At(line, x + r) - At(line, x - 1 - r)
  {
    WindowWidens(line, r, x, r);
    WindowWidens(line, r, x - 1, r);
    BoxSlides(line, x, r);
  }

  /** The second difference of the window sum needs three samples only: this is why a running sum of a
      running sum computes the blur. */
  lemma {:induction false} SecondDifference(line: seq<int>, r: nat, x: int)
    requires line != []
    ensures Slope(line, r, x + 1) == Slope(line, r, x) + At(line, x - r - 1) - 2 * At(line, x) + At(line, x + r + 1)
  {
    if r == 0 {
      assert 1 * At(line, x) == At(line, x);
      assert 1 * At(line, x + 1) == At(line, x + 1) && 1 * At(line, x - 1) == At(line, x - 1);
    } else {
      SecondDifference(line, r - 1, x);
      SlopeWidens(line, r, x);
      SlopeWidens(line, r, x + 1);
    }
  }

  function Triangle(n: nat): nat {
    n * (n + 1) / 2
  }

  lemma TriangleStep(n: nat)
    ensures Triangle(n + 1) == Triangle(n) + n + 1
  {
  }

  /** Every sample under the window lies between lo and hi. */
  ghost predicate Within(line: seq<int>, r: nat, x: int, lo: int, hi: int)
    requires line != []
  {
    forall i :: x - r <= i <= x + r ==> lo <= At(line, i) <= hi
  }

  /** The weights sum to (r + 1) squared, so the window sum lies between that many times the least and the
      greatest sample under the window. */
  lemma WindowSumBounds(line: seq<int>, r: nat, x: int, lo: int, hi: int)
    requires line != [] && Within(line, r, x, lo, hi)
    ensures lo * Square(r + 1) <= WindowSum(line, r, x) <= hi * Square(r + 1)
  {
    WindowBounds(line, r, x, lo, hi, r);
    WeightTotal(r);
    LevelFormula(lo, r, r);
    LevelFormula(hi, r, r);
  }

  function Square(n: int): int {
    n * n
  }

  /** The weights within distance k, added up. */
  function Weight(r: int, k: nat): int {
    if k == 0 then r + 1 else Weight(r, k - 1) + 2 * (r + 1 - k)
  }

  lemma {:induction false} WeightFormula(r: int, k: nat)
    ensures Weight(r, k) == (r + 1) + k * (2 * r + 1 - k)
  {
    if k > 0 {
      WeightFormula(r, k - 1);
      assert k * (2 * r + 1 - k) == (k - 1) * (2 * r + 1 - (k - 1)) + 2 * (r + 1 - k);
    }
  }

  lemma WeightTotal(r: nat)
    ensures Weight(r, r) == Square(r + 1)
  {
    WeightFormula(r, r);
    assert r * (2 * r + 1 - r) == r * (r + 1);
  }

  /** The window over a line that is v everywhere. */
  function Level(v: int, r: int, k: nat): int {
    if k == 0 then (r + 1) * v else Level(v, r, k - 1) + (r + 1 - k) * (v + v)
  }

  lemma {:induction false} LevelFormula(v: int, r: int, k: nat)
    ensures Level(v, r, k) == v * Weight(r, k)
  {
    if k > 0 {
      LevelFormula(v, r, k - 1);
      var w, n := Weight(r, k - 1), r + 1 - k;
      assert v * (w + 2 * n) == v * w + n * (v + v);
    }
  }

  lemma {:induction false} WindowBounds(line: seq<int>, r: nat, x: int, lo: int, hi: int, k: nat)
    requires line != [] && Within(line, r, x, lo, hi) && k <= r
    ensures Level(lo, r, k) <= Window(line, r, x, k) <= Level(hi, r, k)
  {
    if k == 0 {
      ScaleBounds(r + 1, lo, At(line, x), hi);
    } else {
      WindowBounds(line, r, x, lo, hi, k - 1);
      ScaleBounds(r + 1 - k, lo + lo, At(line, x - k) + At(line, x + k), hi + hi);
    }
  }

  lemma ScaleBounds(k: nat, lo: int, v: int, hi: int)
    requires lo <= v <= hi
    ensures k * lo <= k * v <= k * hi
  {
  }

  const LANE := 0x1_0000
  const LANE2 := 0x1_0000_0000

  /** line is the lane-wise packing of the three lines a, b and c. */
  ghost predicate Packs(line: seq<int>, a: seq<int>, b: seq<int>, c: seq<int>) {
    && |line| == |a| == |b| == |c|
    && forall i :: 0 <= i < |line| ==> line[i] == a[i] + LANE * b[i] + LANE2 * c[i]
  }

  /** The window sum is linear in the line: the window sum of packed samples is the packing of the window sums. */
  lemma {:induction false} WindowLinear(line: seq<int>, a: seq<int>, b: seq<int>, c: seq<int>, r: int, x: int, k: nat)
    requires line != [] && Packs(line, a, b, c)
    ensures Window(line, r, x, k) == Window(a, r, x, k) + LANE * Window(b, r, x, k) + LANE2 * Window(c, r, x, k)
  {
    if k == 0 {
      Distribute(r + 1, At(a, x), At(b, x), At(c, x));
    } else {
      WindowLinear(line, a, b, c, r, x, k - 1);
      Distribute(r + 1 - k, At(a, x - k) + At(a, x + k), At(b, x - k) + At(b, x + k), At(c, x - k) + At(c, x + k));
    }
  }

  lemma Distribute(k: int, u: int, v: int, w: int)
    ensures k * (u + LANE * v + LANE2 * w) == k * u + LANE * (k * v) + LANE2 * (k * w)
  {
  }
}
