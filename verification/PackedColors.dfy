/** Three colour channels in one 64-bit word, as image.c keeps them: one 16-bit lane per channel.
    Words are integers below 2^64 and every assignment to one wraps explicitly. */
module PackedColors {
  import opened Numbers
  import opened WindowSums

  const WORD := 0x1_0000_0000_0000_0000

  type Word = v: int | 0 <= v < WORD

  function Wrap(v: int): Word {
    v % WORD
  }

  lemma WrapAdd(a: int, b: int)
    ensures Wrap(Wrap(a) + b) == Wrap(a + b)
  {
  }

  function ShiftRight(v: Word, n: nat): Word {
    ShiftShrinks(v, Pow2(n));
    v / Pow2(n)
  }

  lemma ShiftShrinks(v: Word, q: int)
    requires 0 < q
    ensures 0 <= v / q <= v
  {
  }

  /** The low byte of lane c. */
  function Lane(v: Word, c: int): Byte {
    if c == 0 then v % 256 else if c == 1 then v / LANE % 256 else v / LANE2 % 256
  }

  /** v & 0x00FF00FF00FF00FF. */
  function MaskLanes(v: Word): Word {
    v % 256 + v / LANE % 256 * LANE + v / LANE2 % 256 * LANE2 + v / 0x1_0000_0000_0000 % 256 * 0x1_0000_0000_0000
  }

  function Pack(a: int, b: int, c: int): int {
    a + LANE * b + LANE2 * c
  }

  lemma MaskedLanes(v: Word)
    requires v < 0x1_0000_0000_0000
    ensures MaskLanes(v) == Pack(Lane(v, 0), Lane(v, 1), Lane(v, 2))
  {
  }

  lemma PackedLanes(a: Byte, b: Byte, c: Byte)
    ensures 0 <= Pack(a, b, c) < 0x1_0000_0000_0000
    ensures Lane(Pack(a, b, c), 0) == a && Lane(Pack(a, b, c), 1) == b && Lane(Pack(a, b, c), 2) == c
  {
    var v := Pack(a, b, c);
    Quotient(v, LANE, b + LANE * c, a);
    Quotient(v, LANE2, c, a + LANE * b);
    ModMultiple(a, 0x100, 0x100 * (b + LANE * c));
    ModMultiple(b, 0x100, 0x100 * c);
  }

  /** The shift amounts the blur uses; none of them lets the low byte of a lane see the next lane. */
  predicate BlurShift(shift: nat) {
    shift == 2 || shift == 4 || shift == 6 || shift == 8
  }

  /** Shifting a word whose lanes are exact divides every lane on its own. */
  lemma ShiftedLanes(a: int, b: int, c: int, shift: nat)
    requires 0 <= a < LANE && 0 <= b < LANE && 0 <= c < LANE && BlurShift(shift)
    ensures 0 <= Pack(a, b, c) < 0x1_0000_0000_0000
    ensures var v := ShiftRight(Pack(a, b, c), shift);
            && v < 0x1_0000_0000_0000
            && Lane(v, 0) == a / Pow2(shift) % 256
            && Lane(v, 1) == b / Pow2(shift) % 256
            && Lane(v, 2) == c / Pow2(shift) % 256
  {
    BlurDivisors();
    if
    case shift == 2 => LaneQuotients(a, b, c, 4, 0x4000);
    case shift == 4 => LaneQuotients(a, b, c, 16, 0x1000);
    case shift == 6 => LaneQuotients(a, b, c, 64, 0x400);
    case shift == 8 => LaneQuotients(a, b, c, 256, 0x100);
  }

  lemma BlurDivisors()
    ensures Pow2(2) == 4 && Pow2(4) == 16 && Pow2(6) == 64 && Pow2(8) == 256
  {
  }

  /** q is a divisor of the blur and m the number of times it goes into a lane. */
  predicate Divides(q: int, m: int) {
    (q == 4 && m == 0x4000) || (q == 16 && m == 0x1000) || (q == 64 && m == 0x400) || (q == 256 && m == 0x100)
  }

  lemma LaneQuotients(a: int, b: int, c: int, q: int, m: int)
    requires 0 <= a < LANE && 0 <= b < LANE && 0 <= c < LANE && Divides(q, m)
    ensures var v := Pack(a, b, c) / q;
            && v % 256 == a / q % 256
            && v / LANE % 256 == b / q % 256
            && v / LANE2 % 256 == c / q % 256
  {
    WholeQuotient(a, b, c, q, m);
    UpperQuotients(a, b, c, q, m);
    ModMultiple(a / q, m, b + LANE * c);
    ModMultiple(b / q, m, c);
  }

  lemma WholeQuotient(a: int, b: int, c: int, q: int, m: int)
    requires 0 <= a < LANE && 0 <= b < LANE && 0 <= c < LANE && Divides(q, m)
    ensures Pack(a, b, c) / q == a / q + m * (b + LANE * c)
  {
  }

  lemma UpperQuotients(a: int, b: int, c: int, q: int, m: int)
    requires 0 <= a < LANE && 0 <= b < LANE && 0 <= c < LANE && Divides(q, m)
    ensures (a / q + m * (b + LANE * c)) / LANE == b / q + m * c
    ensures (a / q + m * (b + LANE * c)) / LANE2 == c / q
  {
  }

  lemma ModMultiple(x: int, m: int, k: int)
    requires m == 0x4000 || m == 0x1000 || m == 0x400 || m == 0x100
    ensures (x + m * k) % 256 == x % 256
  {
    if
    case m == 0x4000 => Mod256(x, 0x40 * k);
    case m == 0x1000 => Mod256(x, 0x10 * k);
    case m == 0x400 => Mod256(x, 0x4 * k);
    case m == 0x100 => Mod256(x, k);
  }

  lemma Mod256(x: int, k: int)
    ensures (x + 256 * k) % 256 == x % 256
  {
  }
}
