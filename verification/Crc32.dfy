/** The checksum of emoji_suggestions.cpp: a table built with the forward polynomial between two bit reversals,
    and a loop that consumes a byte per table lookup.  It computes the bit-serial reflected CRC-32.

    A 32-bit word is its sequence of bits, lowest first, so that a shift moves the sequence and a reversal
    reverses it. */
module Crc32 {

  import opened BitWords

  function Reverse(w: Bits): (r: Bits)
    ensures |r| == |w|
  {
    seq(|w|, i requires 0 <= i < |w| => w[|w| - 1 - i])
  }

  // ---------------------------------------------------------------- section 8 of RFC 1952, one bit at a time

  /** The four bits of a hexadecimal digit. */
  function Hex(d: nat): (b: Bits)
    ensures |b| == 4
  {
    [d % 2 == 1, d / 2 % 2 == 1, d / 4 % 2 == 1, d / 8 % 2 == 1]
  }

  /** Four digits, the lowest first. */
  function Digits(a: nat, b: nat, c: nat, d: nat): (w: Bits)
    ensures |w| == 16
  {
    Hex(a) + Hex(b) + Hex(c) + Hex(d)
  }

  /** 0x04C11DB7. */
  const POLYNOMIAL: Word := Digits(0x7, 0xB, 0xD, 0x1) + Digits(0x1, 0xC, 0x4, 0x0)

  /** 0xEDB88320. */
  const REFLECTED_POLYNOMIAL: Word := Digits(0x0, 0x2, 0x3, 0x8) + Digits(0x8, 0xB, 0xD, 0xE)

  lemma PolynomialsMirror()
    ensures Reverse(POLYNOMIAL) == REFLECTED_POLYNOMIAL
  {
  }

  function BitStep(c: Word): Word {
    if c[0] then Xor(ShiftRight(c, 1), REFLECTED_POLYNOMIAL) else ShiftRight(c, 1)
  }

  function Steps(c: Word, n: nat): Word
    decreases n
  {
    if n == 0 then c else BitStep(Steps(c, n - 1))
  }

  /** Feed message bits into the register one after the other. */
  function FeedBits(c: Word, bits: Bits): Word
    decreases |bits|
  {
    if bits == [] then c else FeedBits(BitStep(c[0 := c[0] != bits[0]]), bits[1..])
  }

  /** Feed whole bytes, the lowest bit of each first. */
  function Feed(c: Word, data: seq<Byte>): Word
    decreases |data|
  {
    if data == [] then c else FeedBits(Feed(c, data[..|data| - 1]), data[|data| - 1])
  }

  function Ones(): Word {
    seq(32, _ => true)
  }

  function Checksum(data: seq<Byte>): Word {
    Xor(Feed(Ones(), data), Ones())
  }

  // ---------------------------------------------------------------- the register is linear

  lemma BitStepLinear(a: Word, b: Word)
    ensures BitStep(Xor(a, b)) == Xor(BitStep(a), BitStep(b))
  {
  }

  lemma {:induction false} StepsLinear(a: Word, b: Word, n: nat)
    ensures Steps(Xor(a, b), n) == Xor(Steps(a, n), Steps(b, n))
  {
    if n > 0 {
      StepsLinear(a, b, n - 1);
      BitStepLinear(Steps(a, n - 1), Steps(b, n - 1));
    }
  }

  /** Bits that do not reach the low end only move. */
  lemma {:induction false} HighBitsMove(h: Word, n: nat)
    requires n <= 32 && forall i :: 0 <= i < n ==> !h[i]
    ensures Steps(h, n) == ShiftRight(h, n)
  {
    if n > 0 {
      HighBitsMove(h, n - 1);
    }
  }

  lemma {:induction false} StepsFromFront(c: Word, n: nat)
    ensures Steps(c, n + 1) == Steps(BitStep(c), n)
  {
    if n > 0 {
      StepsFromFront(c, n - 1);
    }
  }

  function Padded(bits: Bits): Word
    requires |bits| <= 32
  {
    bits + Zeros(32 - |bits|)
  }

  lemma FeedOneBit(c: Word, bits: Bits)
    requires 0 < |bits| <= 32
    ensures BitStep(Xor(c, Padded(bits))) == Xor(BitStep(c[0 := c[0] != bits[0]]), Padded(bits[1..]))
  {
    var all, first: Word, rest := Xor(c, Padded(bits)), c[0 := c[0] != bits[0]], Padded(bits[1..]);
    assert all[0] == first[0];
    assert ShiftRight(all, 1) == Xor(ShiftRight(first, 1), rest);
    if all[0] {
      assert Xor(Xor(ShiftRight(first, 1), rest), REFLECTED_POLYNOMIAL)
          == Xor(Xor(ShiftRight(first, 1), REFLECTED_POLYNOMIAL), rest);
    }
  }

  /** Feeding bits one by one is the same as adding them all and stepping. */
  lemma {:induction false} FeedIsStep(c: Word, bits: Bits)
    requires |bits| <= 32
    ensures FeedBits(c, bits) == Steps(Xor(c, Padded(bits)), |bits|)
    decreases |bits|
  {
    if bits == [] {
      assert Xor(c, Padded(bits)) == c;
    } else {
      FeedOneBit(c, bits);
      FeedIsStep(BitStep(c[0 := c[0] != bits[0]]), bits[1..]);
      StepsFromFront(Xor(c, Padded(bits)), |bits| - 1);
    }
  }

  /** One table lookup does the work of eight single steps. */
  lemma LookupIsEightSteps(c: Word, b: Byte)
    ensures FeedBits(c, b) == Xor(ShiftRight(c, 8), Steps(Padded(Xor(c[..8], b)), 8))
  {
    FeedIsStep(c, b);
    var low, high := Padded(Xor(c[..8], b)), Zeros(8) + c[8..];
    assert Xor(c, Padded(b)) == Xor(high, low);
    StepsLinear(high, low, 8);
    HighBitsMove(high, 8);
    assert ShiftRight(high, 8) == ShiftRight(c, 8);
  }

  // ---------------------------------------------------------------- the table

  function ForwardStep(t: Word): Word {
    if t[31] then Xor(ShiftLeft(t, 1), POLYNOMIAL) else ShiftLeft(t, 1)
  }

  lemma ReverseShift(t: Word)
    ensures Reverse(ShiftLeft(t, 1)) == ShiftRight(Reverse(t), 1)
  {
  }

  lemma ReverseXor(a: Word, b: Word)
    ensures Reverse(Xor(a, b)) == Xor(Reverse(a), Reverse(b))
  {
  }

  lemma ReverseStep(t: Word, polynomial: Word)
    ensures Reverse(if t[31] then Xor(ShiftLeft(t, 1), polynomial) else ShiftLeft(t, 1))
         == if Reverse(t)[0] then Xor(ShiftRight(Reverse(t), 1), Reverse(polynomial)) else ShiftRight(Reverse(t), 1)
  {
    ReverseShift(t);
    ReverseXor(ShiftLeft(t, 1), polynomial);
  }

  /** A forward step seen through the reversal is a reflected step. */
  lemma ForwardIsReflected(t: Word)
    ensures Reverse(ForwardStep(t)) == BitStep(Reverse(t))
  {
    ReverseStep(t, POLYNOMIAL);
    PolynomialsMirror();
  }

  method Reflect(val: Word, ch: nat) returns (result: Word)
    requires ch == 8 || ch == 32
    ensures result == Padded(Reverse(val[..ch]))
  {
    var v := val;
    result := Zeros(32);
    for i := 1 to ch + 1
      invariant v == ShiftRight(val, i - 1)
      invariant forall j :: 0 <= j < 32 ==> result[j] == (ch - i < j < ch && val[ch - 1 - j])
    {
      if v[0] {
        result := result[ch - i := true];
      }
      v := ShiftRight(v, 1);
    }
  }

  ghost predicate TableEntry(t: Word, i: nat) {
    t == Steps(Padded(FromNat(i, 8)), 8)
  }

  method BuildEntry(i: nat) returns (t: Word)
    ensures TableEntry(t, i)
  {
    t := Reflect(FromNat(i, 32), 8);
    t := ShiftLeft(t, 24);
    LowBits(i, 8, 32);
    ghost var start := Padded(FromNat(i, 8));
    assert Reverse(t) == start;
    for j := 0 to 8
      invariant Reverse(t) == Steps(start, j)
    {
      ForwardIsReflected(t);
      t := ForwardStep(t);
    }
    ghost var reversed := Reverse(t);
    t := Reflect(t, 32);
    assert t == reversed;
  }

  method InitTable() returns (table: array<Word>)
    ensures fresh(table) && table.Length == 256
    ensures forall i :: 0 <= i < 256 ==> TableEntry(table[i], i)
  {
    table := new Word[256];
    for i := 0 to 256
      invariant forall k :: 0 <= k < i ==> TableEntry(table[k], k)
    {
      var t := BuildEntry(i);
      table[i] := t;
    }
  }

  // ---------------------------------------------------------------- the checksum

  method CountChecksum(data: array<Byte>) returns (result: Word)
    ensures result == Checksum(data[..])
  {
    var table := InitTable();
    result := Ones();
    for i := 0 to data.Length
      invariant result == Feed(Ones(), data[..i])
      invariant table.Length == 256 && forall k :: 0 <= k < 256 ==> TableEntry(table[k], k)
    {
      var low: Byte := Xor(result[..8], data[i]);
      ByteValue(low);
      ValueRoundTrip(low);
      LookupIsEightSteps(result, data[i]);
      assert TableEntry(table[Value(low)], Value(low));
      assert data[..i + 1][..i] == data[..i];
      result := Xor(ShiftRight(result, 8), table[Value(low)]);
    }
    assert data[..] == data[..data.Length];
    result := Xor(result, Ones());
  }
}
