/** check_utf8 of TgNetWrapper.cpp: a validator that tests bits of successive bytes and relies on the terminating
    NUL to stop a truncated sequence.  It accepts exactly the encodings of sequences of Unicode scalar values. */
module Utf8 {

  type Bytes = seq<bv8>

  // ---------------------------------------------------------------- section 3 of RFC 3629

  type Scalar = v: bv32 | v <= 0x10FFFF && !(0xD800 <= v <= 0xDFFF)

  function Continuation(v: bv32): bv8 {
    (0x80 | (v & 0x3F)) as bv8
  }

  function EncodeScalar(v: Scalar): (s: Bytes)
    ensures 1 <= |s| <= 4
  {
    if v < 0x80 then [v as bv8]
    else if v < 0x800 then [(0xC0 | (v >> 6)) as bv8, Continuation(v)]
    else if v < 0x1_0000 then [(0xE0 | (v >> 12)) as bv8, Continuation(v >> 6), Continuation(v)]
    else [(0xF0 | (v >> 18)) as bv8, Continuation(v >> 12), Continuation(v >> 6), Continuation(v)]
  }

  function Encode(vs: seq<Scalar>): Bytes {
    if vs == [] then [] else EncodeScalar(vs[0]) + Encode(vs[1..])
  }

  ghost predicate WellFormed(s: Bytes) {
    exists vs: seq<Scalar> :: Encode(vs) == s
  }

  // ---------------------------------------------------------------- section 4 of RFC 3629

  predicate Tail(b: bv8) {
    0x80 <= b <= 0xBF
  }

  predicate IsUtf8Two(a: bv8, b: bv8) {
    0xC2 <= a <= 0xDF && Tail(b)
  }

  predicate IsUtf8Three(a: bv8, b: bv8, c: bv8) {
    && Tail(c)
    && (|| (a == 0xE0 && 0xA0 <= b <= 0xBF)
        || (0xE1 <= a <= 0xEC && Tail(b))
        || (a == 0xED && 0x80 <= b <= 0x9F)
        || (0xEE <= a <= 0xEF && Tail(b)))
  }

  predicate IsUtf8Four(a: bv8, b: bv8, c: bv8, d: bv8) {
    && Tail(c) && Tail(d)
    && (|| (a == 0xF0 && 0x90 <= b <= 0xBF)
        || (0xF1 <= a <= 0xF3 && Tail(b))
        || (a == 0xF4 && 0x80 <= b <= 0x8F))
  }

  /** The length of the UTF-8 character at the start of s, or 0 if there is none. */
  function CharLength(s: Bytes): (n: nat)
    ensures n <= |s|
  {
    if |s| >= 1 && s[0] <= 0x7F then 1
    else if |s| >= 2 && IsUtf8Two(s[0], s[1]) then 2
    else if |s| >= 3 && IsUtf8Three(s[0], s[1], s[2]) then 3
    else if |s| >= 4 && IsUtf8Four(s[0], s[1], s[2], s[3]) then 4
    else 0
  }

  predicate Parses(s: Bytes) {
    s == [] || (CharLength(s) > 0 && Parses(s[CharLength(s)..]))
  }

  // ---------------------------------------------------------------- the two sections agree

  /** An encoded scalar value is one character, whatever follows it. */
  lemma EncodedIsChar(v: Scalar, rest: Bytes)
    ensures CharLength(EncodeScalar(v) + rest) == |EncodeScalar(v)|
  {
  }

  lemma DecodeTwo(a: bv8, b: bv8) returns (v: bv32)
    requires IsUtf8Two(a, b)
    ensures 0x80 <= v < 0x800 && (0xC0 | (v >> 6)) as bv8 == a && Continuation(v) == b
  {
    v := (((a & 0x1F) as bv32) << 6) | ((b & 0x3F) as bv32);
  }

  lemma DecodeThree(a: bv8, b: bv8, c: bv8) returns (v: bv32)
    requires IsUtf8Three(a, b, c)
    ensures 0x800 <= v < 0x1_0000 && !(0xD800 <= v <= 0xDFFF)
    ensures (0xE0 | (v >> 12)) as bv8 == a && Continuation(v >> 6) == b && Continuation(v) == c
  {
    v := (((a & 0x0F) as bv32) << 12) | (((b & 0x3F) as bv32) << 6) | ((c & 0x3F) as bv32);
  }

  lemma DecodeFour(a: bv8, b: bv8, c: bv8, d: bv8) returns (v: bv32)
    requires IsUtf8Four(a, b, c, d)
    ensures 0x1_0000 <= v <= 0x10FFFF
    ensures (0xF0 | (v >> 18)) as bv8 == a && Continuation(v >> 12) == b && Continuation(v >> 6) == c
    ensures Continuation(v) == d
  {
    v := (((a & 0x07) as bv32) << 18) | (((b & 0x3F) as bv32) << 12)
       | (((c & 0x3F) as bv32) << 6) | ((d & 0x3F) as bv32);
  }

  lemma ScalarOfTwo(a: bv8, b: bv8) returns (v: Scalar)
    requires IsUtf8Two(a, b)
    ensures EncodeScalar(v) == [a, b]
  {
    v := DecodeTwo(a, b);
  }

  lemma ScalarOfThree(a: bv8, b: bv8, c: bv8) returns (v: Scalar)
    requires IsUtf8Three(a, b, c)
    ensures EncodeScalar(v) == [a, b, c]
  {
    v := DecodeThree(a, b, c);
  }

  lemma ScalarOfFour(a: bv8, b: bv8, c: bv8, d: bv8) returns (v: Scalar)
    requires IsUtf8Four(a, b, c, d)
    ensures EncodeScalar(v) == [a, b, c, d]
  {
    v := DecodeFour(a, b, c, d);
  }

  /** Every character is the encoding of some scalar value. */
  lemma CharIsEncoded(s: Bytes) returns (v: Scalar)
    requires CharLength(s) > 0
    ensures EncodeScalar(v) == s[..CharLength(s)]
  {
    if s[0] <= 0x7F {
      v := s[0] as bv32;
    } else if CharLength(s) == 2 {
      v := ScalarOfTwo(s[0], s[1]);
    } else if CharLength(s) == 3 {
      v := ScalarOfThree(s[0], s[1], s[2]);
    } else {
      v := ScalarOfFour(s[0], s[1], s[2], s[3]);
    }
  }

  lemma {:induction false} EncodedParses(vs: seq<Scalar>)
    ensures Parses(Encode(vs))
  {
    if vs != [] {
      var head, rest := EncodeScalar(vs[0]), Encode(vs[1..]);
      EncodedIsChar(vs[0], rest);
      EncodedParses(vs[1..]);
      assert (head + rest)[|head|..] == rest;
    }
  }

  lemma {:induction false} ParsedIsEncoded(s: Bytes) returns (vs: seq<Scalar>)
    requires Parses(s)
    ensures Encode(vs) == s
  {
    if s == [] {
      vs := [];
    } else {
      var n := CharLength(s);
      var v := CharIsEncoded(s);
      var rest := ParsedIsEncoded(s[n..]);
      vs := [v] + rest;
      assert vs[1..] == rest && s == s[..n] + s[n..];
    }
  }

  /** The grammar of section 4 describes exactly the encodings of section 3. */
  lemma WellFormedIffParses(s: Bytes)
    ensures WellFormed(s) <==> Parses(s)
  {
    if WellFormed(s) {
      var vs: seq<Scalar> :| Encode(vs) == s;
      EncodedParses(vs);
    }
    if Parses(s) {
      var vs := ParsedIsEncoded(s);
    }
  }

  // ---------------------------------------------------------------- the validator

  predicate TwoBits(a: bv32) {
    (a & 0x1e) > 0
  }

  predicate ThreeBits(a: bv32, b: bv32) {
    var x := ((a & 0x0f) << 6) | (b & 0x20);
    x != 0 && x != 0x360
  }

  predicate FourBits(a: bv32, b: bv32) {
    var t := ((a & 0x07) << 6) | (b & 0x30);
    0 < t && t < 0x110
  }

  lemma TailBits(b: bv8)
    ensures (b as bv32 & 0xc0) == 0x80 <==> Tail(b)
  {
  }

  lemma LeadBits(a: bv8)
    ensures (a as bv32 & 0x80) == 0 <==> a <= 0x7F
    ensures (a as bv32 & 0x80) != 0 && (a as bv32 & 0x40) == 0 <==> 0x80 <= a <= 0xBF
    ensures 0xC0 <= a && (a as bv32 & 0x20) == 0 <==> 0xC0 <= a <= 0xDF
    ensures 0xE0 <= a && (a as bv32 & 0x10) == 0 <==> 0xE0 <= a <= 0xEF
    ensures 0xF0 <= a && (a as bv32 & 0x08) == 0 <==> 0xF0 <= a <= 0xF7
  {
  }

  lemma TwoBitsMeans(a: bv8, b: bv8)
    requires 0xC0 <= a <= 0xDF && Tail(b)
    ensures TwoBits(a as bv32) <==> IsUtf8Two(a, b)
  {
  }

  lemma ThreeBitsMeans(a: bv8, b: bv8, c: bv8)
    requires 0xE0 <= a <= 0xEF && Tail(b) && Tail(c)
    ensures ThreeBits(a as bv32, b as bv32) <==> IsUtf8Three(a, b, c)
  {
  }

  lemma FourBitsMeans(a: bv8, b: bv8, c: bv8, d: bv8)
    requires 0xF0 <= a <= 0xF7 && Tail(b) && Tail(c) && Tail(d)
    ensures FourBits(a as bv32, b as bv32) <==> IsUtf8Four(a, b, c, d)
  {
  }

  /** The validator reads data[0..len] only: the NUL at index len stops every sequence that runs into it.
      A NUL before len is the character U+0000. */
  method CheckUtf8(data: array<bv8>, len: nat) returns (ok: bool)
    requires data.Length == len + 1 && data[len] == 0
    ensures ok <==> WellFormed(data[..len])
  {
    WellFormedIffParses(data[..len]);
    var p := 0;
    while true
      invariant 0 <= p <= len
      invariant Parses(data[..len]) <==> Parses(data[p..len])
      decreases len - p
    {
      ghost var rest := data[p..len];
      ghost var start := p;
      var a := data[p] as bv32;
      p := p + 1;
      LeadBits(data[start]);
      if (a & 0x80) == 0 {
        if p == len + 1 {
          return true;
        }
        assert rest[1..] == data[p..len];
        continue;
      }
      if !((a & 0x40) != 0) {
        return false;
      }
      var b := data[p] as bv32;
      p := p + 1;
      TailBits(data[start + 1]);
      if !((b & 0xc0) == 0x80) {
        return false;
      }
      if (a & 0x20) == 0 {
        TwoBitsMeans(data[start], data[start + 1]);
        if !TwoBits(a) {
          return false;
        }
        assert rest[2..] == data[p..len];
        continue;
      }
      var c := data[p] as bv32;
      p := p + 1;
      TailBits(data[start + 2]);
      if !((c & 0xc0) == 0x80) {
        return false;
      }
      if (a & 0x10) == 0 {
        ThreeBitsMeans(data[start], data[start + 1], data[start + 2]);
        if !ThreeBits(a, b) {
          return false;
        }
        assert rest[3..] == data[p..len];
        continue;
      }
      var d := data[p] as bv32;
      p := p + 1;
      TailBits(data[start + 3]);
      if !((d & 0xc0) == 0x80) {
        return false;
      }
      if (a & 0x08) == 0 {
        FourBitsMeans(data[start], data[start + 1], data[start + 2], data[start + 3]);
        if !FourBits(a, b) {
          return false;
        }
        assert rest[4..] == data[p..len];
        continue;
      }
      return false;
    }
  }

  // ---------------------------------------------------------------- what the encoding is

  function PayloadTwo(a: bv8, b: bv8): bv32 {
    (((a & 0x1F) as bv32) << 6) | ((b & 0x3F) as bv32)
  }

  function PayloadThree(a: bv8, b: bv8, c: bv8): bv32 {
    (((a & 0x0F) as bv32) << 12) | (((b & 0x3F) as bv32) << 6) | ((c & 0x3F) as bv32)
  }

  function PayloadFour(a: bv8, b: bv8, c: bv8, d: bv8): bv32 {
    (((a & 0x07) as bv32) << 18) | (((b & 0x3F) as bv32) << 12) | (((c & 0x3F) as bv32) << 6) | ((d & 0x3F) as bv32)
  }

  /** The scalar value whose payload bits the bytes carry. */
  function Payload(s: Bytes): bv32
    requires 1 <= |s| <= 4
  {
    if |s| == 1 then s[0] as bv32
    else if |s| == 2 then PayloadTwo(s[0], s[1])
    else if |s| == 3 then PayloadThree(s[0], s[1], s[2])
    else PayloadFour(s[0], s[1], s[2], s[3])
  }

  lemma TwoCarry(v: bv32)
    requires v < 0x800
    ensures PayloadTwo((0xC0 | (v >> 6)) as bv8, Continuation(v)) == v
  {
  }

  lemma ThreeCarry(v: bv32)
    requires v < 0x1_0000
    ensures PayloadThree((0xE0 | (v >> 12)) as bv8, Continuation(v >> 6), Continuation(v)) == v
  {
  }

  lemma FourCarry(v: bv32)
    requires v < 0x20_0000
    ensures PayloadFour((0xF0 | (v >> 18)) as bv8, Continuation(v >> 12), Continuation(v >> 6), Continuation(v)) == v
  {
  }

  /** The encoding carries the value, and in the fewest bytes that have room for it: 7, 11, 16 or 21 bits. */
  lemma EncodingCarriesValue(v: Scalar)
    ensures Payload(EncodeScalar(v)) == v
    ensures |EncodeScalar(v)| == if v < 0x80 then 1 else if v < 0x800 then 2 else if v < 0x1_0000 then 3 else 4
  {
    if v < 0x80 {
      assert (v as bv8) as bv32 == v;
    } else if v < 0x800 {
      TwoCarry(v);
    } else if v < 0x1_0000 {
      ThreeCarry(v);
    } else {
      FourCarry(v);
    }
  }

  /** Different texts have different encodings. */
  lemma {:induction false} EncodeIsInjective(vs: seq<Scalar>, ws: seq<Scalar>)
    requires Encode(vs) == Encode(ws)
    ensures vs == ws
  {
    if vs != [] && ws != [] {
      var v, w := EncodeScalar(vs[0]), EncodeScalar(ws[0]);
      var s := Encode(vs);
      EncodedIsChar(vs[0], Encode(vs[1..]));
      EncodedIsChar(ws[0], Encode(ws[1..]));
      assert v == s[..|v|] && w == s[..|w|];
      EncodingCarriesValue(vs[0]);
      EncodingCarriesValue(ws[0]);
      assert Encode(vs[1..]) == s[|v|..] && Encode(ws[1..]) == s[|w|..];
      EncodeIsInjective(vs[1..], ws[1..]);
    } else {
      NotEmpty(vs);
      NotEmpty(ws);
    }
  }

  lemma NotEmpty(vs: seq<Scalar>)
    ensures Encode(vs) == [] <==> vs == []
  {
    if vs != [] {
      assert |Encode(vs)| >= |EncodeScalar(vs[0])|;
    }
  }

  /** Characters from the examples of section 7 of RFC 3629. */
  lemma Examples()
    ensures EncodeScalar(0x0041) == [0x41] && EncodeScalar(0x0391) == [0xCE, 0x91]
    ensures EncodeScalar(0x2262) == [0xE2, 0x89, 0xA2] && EncodeScalar(0x2_33B4) == [0xF0, 0xA3, 0x8E, 0xB4]
  {
  }

  /** The forms next to what is admitted: overlong ones, surrogates, and what is past the last scalar value. */
  lemma Boundaries()
    ensures WellFormed([0x00]) && WellFormed([0x7F]) && !WellFormed([0x80]) && !WellFormed([0xC1, 0xBF])
    ensures WellFormed([0xC2, 0x80]) && !WellFormed([0xC2]) && !WellFormed([0xC2, 0xC0])
  {
    OneChar([0x00]);
    OneChar([0x7F]);
    OneChar([0x80]);
    OneChar([0xC1, 0xBF]);
    OneChar([0xC2, 0x80]);
    OneChar([0xC2]);
    OneChar([0xC2, 0xC0]);
  }

  lemma BoundariesOfThree()
    ensures !WellFormed([0xE0, 0x9F, 0xBF]) && WellFormed([0xE0, 0xA0, 0x80])
    ensures WellFormed([0xED, 0x9F, 0xBF]) && !WellFormed([0xED, 0xA0, 0x80]) && WellFormed([0xEE, 0x80, 0x80])
  {
    OneChar([0xE0, 0x9F, 0xBF]);
    OneChar([0xE0, 0xA0, 0x80]);
    OneChar([0xED, 0x9F, 0xBF]);
    OneChar([0xED, 0xA0, 0x80]);
    OneChar([0xEE, 0x80, 0x80]);
  }

  lemma BoundariesOfFour()
    ensures !WellFormed([0xF0, 0x8F, 0xBF, 0xBF]) && WellFormed([0xF0, 0x90, 0x80, 0x80])
    ensures WellFormed([0xF4, 0x8F, 0xBF, 0xBF]) && !WellFormed([0xF4, 0x90, 0x80, 0x80])
  {
    OneChar([0xF0, 0x8F, 0xBF, 0xBF]);
    OneChar([0xF0, 0x90, 0x80, 0x80]);
    OneChar([0xF4, 0x8F, 0xBF, 0xBF]);
    OneChar([0xF4, 0x90, 0x80, 0x80]);
  }

  lemma OneChar(s: Bytes)
    requires s != []
    ensures CharLength(s) == |s| ==> WellFormed(s)
    ensures CharLength(s) == 0 ==> !WellFormed(s)
  {
    WellFormedIffParses(s);
    assert s[|s|..] == [];
  }
}
