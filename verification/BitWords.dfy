/** Fixed-width words as sequences of bits, the lowest bit first.  A shift moves the sequence, and the bytes of a
    little-endian word are its consecutive pieces. */
module BitWords {
  import opened Numbers

  type Bits = seq<bool>
  type Word = w: Bits | |w| == 32 witness seq(32, _ => false)
  type Byte = b: Bits | |b| == 8 witness seq(8, _ => false)

  function Zeros(n: nat): (z: Bits)
    ensures |z| == n
  {
    seq(n, _ => false)
  }

  function Xor(a: Bits, b: Bits): (c: Bits)
    requires |a| == |b|
    ensures |c| == |a|
  {
    seq(|a|, i requires 0 <= i < |a| => a[i] != b[i])
  }

  function Or(a: Bits, b: Bits): (c: Bits)
    requires |a| == |b|
    ensures |c| == |a|
  {
    seq(|a|, i requires 0 <= i < |a| => a[i] || b[i])
  }

  function ShiftRight(w: Word, n: nat): Word
    requires n <= 32
  {
    w[n..] + Zeros(n)
  }

  function ShiftLeft(w: Word, n: nat): Word
    requires n <= 32
  {
    Zeros(n) + w[..32 - n]
  }

  /** The low n bits of a number. */
  function FromNat(v: nat, n: nat): (b: Bits)
    ensures |b| == n
  {
    if n == 0 then [] else [v % 2 == 1] + FromNat(v / 2, n - 1)
  }

  function Value(b: Bits): nat {
    if b == [] then 0 else (if b[0] then 1 else 0) + 2 * Value(b[1..])
  }

  lemma {:induction false} LowBits(v: nat, n: nat, m: nat)
    requires n <= m
    ensures FromNat(v, m)[..n] == FromNat(v, n)
    decreases n
  {
    if n > 0 {
      LowBits(v / 2, n - 1, m - 1);
    }
  }

  lemma {:induction false} ValueRoundTrip(b: Bits)
    ensures FromNat(Value(b), |b|) == b
  {
    if b != [] {
      ValueRoundTrip(b[1..]);
      assert Value(b) / 2 == Value(b[1..]);
    }
  }

  lemma {:induction false} BitsRoundTrip(v: nat, n: nat)
    requires v < Pow2(n)
    ensures Value(FromNat(v, n)) == v
  {
    if n > 0 {
      BitsRoundTrip(v / 2, n - 1);
    }
  }

  lemma {:induction false} ValueRange(b: Bits)
    ensures Value(b) < Pow2(|b|)
  {
    if b != [] {
      ValueRange(b[1..]);
    }
  }

  lemma ByteValue(b: Byte)
    ensures Value(b) < 256
  {
    ValueRange(b);
    assert Pow2(4) == 16;
  }

  lemma {:induction false} ValueJoined(a: Bits, b: Bits)
    ensures Value(a + b) == Value(a) + Pow2(|a|) * Value(b)
  {
    if a == [] {
      assert a + b == b;
    } else {
      ValueJoined(a[1..], b);
      assert (a + b)[1..] == a[1..] + b;
      assert 2 * (Pow2(|a| - 1) * Value(b)) == Pow2(|a|) * Value(b);
    }
  }
}
