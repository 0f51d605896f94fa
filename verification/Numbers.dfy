/** What several of the models need of numbers. */
module Numbers {

  type Byte = b: int | 0 <= b < 256

  function Pow2(n: nat): (p: nat)
    ensures 0 < p
  {
    if n == 0 then 1 else 2 * Pow2(n - 1)
  }

  lemma Commute(a: int, b: int)
    ensures a * b == b * a
  {
  }

  lemma Quotient(v: int, d: int, q: int, r: int)
    requires 0 < d && 0 <= r < d && v == d * q + r
    ensures v / d == q && v % d == r
  {
    var k := v / d - q;
    assert d * k == d * (v / d) - d * q;
    AtLeast(d, k);
  }

  lemma AtLeast(d: int, k: int)
    requires 0 < d
    ensures 1 <= k ==> d <= d * k
    ensures k <= -1 ==> d * k <= -d
  {
  }

  /** Exclusive or of the low n bits. */
  function XorBits(a: nat, b: nat, n: nat): nat {
    if n == 0 then 0 else (if a % 2 == b % 2 then 0 else 1) + 2 * XorBits(a / 2, b / 2, n - 1)
  }

  lemma {:induction false} XorRange(a: nat, b: nat, n: nat)
    ensures XorBits(a, b, n) < Pow2(n)
  {
    if n > 0 {
      XorRange(a / 2, b / 2, n - 1);
    }
  }

  lemma {:induction false} XorBitsTwice(a: nat, k: nat, n: nat)
    requires a < Pow2(n)
    ensures XorBits(XorBits(a, k, n), k, n) == a
  {
    if n > 0 {
      XorBitsTwice(a / 2, k / 2, n - 1);
      assert XorBits(a, k, n) / 2 == XorBits(a / 2, k / 2, n - 1);
    }
  }

  /** Bit i of a number. */
  predicate Bit(a: nat, i: nat) {
    if i == 0 then a % 2 == 1 else Bit(a / 2, i - 1)
  }

  lemma {:induction false} XorBit(a: nat, b: nat, n: nat, i: nat)
    requires i < n
    ensures Bit(XorBits(a, b, n), i) <==> Bit(a, i) != Bit(b, i)
  {
    assert XorBits(a, b, n) / 2 == XorBits(a / 2, b / 2, n - 1);
    if i > 0 {
      XorBit(a / 2, b / 2, n - 1, i - 1);
    }
  }

  lemma {:induction false} XorZero(a: nat, n: nat)
    requires a < Pow2(n)
    ensures XorBits(a, 0, n) == a
  {
    if n > 0 {
      XorZero(a / 2, n - 1);
    }
  }

  lemma {:induction false} XorCommutes(a: nat, b: nat, n: nat)
    ensures XorBits(a, b, n) == XorBits(b, a, n)
  {
    if n > 0 {
      XorCommutes(a / 2, b / 2, n - 1);
    }
  }

  /** Against ones, the exclusive or is the complement. */
  lemma {:induction false} XorOnes(a: nat, n: nat)
    requires a < Pow2(n)
    ensures XorBits(a, Pow2(n) - 1, n) == Pow2(n) - 1 - a
  {
    if n > 0 {
      var half: int := Pow2(n - 1);
      assert (2 * half - 1) / 2 == half - 1 && (2 * half - 1) % 2 == 1;
      XorOnes(a / 2, n - 1);
    }
  }

  /** The low n bits, and the bits above them. */
  lemma {:induction false} XorSplit(a: nat, b: nat, n: nat, m: nat)
    ensures XorBits(a, b, n + m) == XorBits(a, b, n) + Pow2(n) * XorBits(Above(a, n), Above(b, n), m)
  {
    if n > 0 {
      XorSplit(a / 2, b / 2, n - 1, m);
      Double(XorBits(a / 2, b / 2, n - 1), Pow2(n - 1), XorBits(Above(a, n), Above(b, n), m));
    }
  }

  lemma Double(low: nat, p: nat, high: nat)
    ensures 2 * (low + p * high) == 2 * low + (2 * p) * high
  {
  }

  function Above(a: nat, n: nat): nat {
    if n == 0 then a else Above(a / 2, n - 1)
  }
}
