/** Random access into a CTR stream, as aesCtrDecryption and aesCtrDecryptionByteArray of jni.c do it.
    AES is an arbitrary function from blocks to blocks; the CTR driver is that of section 6.5 of NIST SP 800-38A, fed
    through the counter block, the leftover keystream block and the position inside it. */
module CtrStreams {
  import opened Numbers

  type Block = s: seq<Byte> | |s| == 16 witness seq(16, _ => 0)

  lemma EightBits()
    ensures Pow2(8) == 256
  {
  }

  function Xor(a: Byte, b: Byte): Byte {
    XorRange(a, b, 8);
    EightBits();
    XorBits(a, b, 8)
  }

  lemma XorTwice(a: Byte, k: Byte)
    ensures Xor(Xor(a, k), k) == a
  {
    EightBits();
    XorBitsTwice(a, k, 8);
  }

  /** Each bit of the exclusive or tells whether the bits differ; with zero nothing changes. */
  lemma XorIsBitwise(a: Byte, k: Byte, i: nat)
    requires i < 8
    ensures Bit(Xor(a, k), i) <==> Bit(a, i) != Bit(k, i)
    ensures Xor(a, 0) == a
  {
    EightBits();
    XorBit(a, k, 8, i);
    XorZero(a, 8);
  }

  // ---------------------------------------------------------------- counters

  /** The big-endian counter plus one, modulo 256 to the length. */
  function Inc(s: seq<Byte>): (r: seq<Byte>)
    ensures |r| == |s|
  {
    if s == [] then []
    else
      var n := |s| - 1;
      if s[n] < 255 then s[..n] + [s[n] + 1] else Inc(s[..n]) + [0]
  }

  function BigEndianValue(s: seq<Byte>): nat {
    if s == [] then 0 else 256 * BigEndianValue(s[..|s| - 1]) + s[|s| - 1]
  }

  lemma {:induction false} ValueRange(s: seq<Byte>)
    ensures BigEndianValue(s) < Power256(|s|)
  {
    if s != [] {
      ValueRange(s[..|s| - 1]);
    }
  }

  /** The increment is the successor, and wraps to zero at the top. */
  lemma {:induction false} IncIsSuccessor(s: seq<Byte>)
    ensures BigEndianValue(Inc(s)) == if BigEndianValue(s) + 1 == Power256(|s|) then 0 else BigEndianValue(s) + 1
  {
    if s != [] {
      var n := |s| - 1;
      ValueRange(s);
      ValueRange(s[..n]);
      IncIsSuccessor(s[..n]);
      assert Inc(s)[..n] == if s[n] < 255 then s[..n] else Inc(s[..n]);
    }
  }

  function IncTimes(iv: Block, k: nat): Block {
    if k == 0 then iv else Inc(IncTimes(iv, k - 1))
  }

  function BigEndian(v: nat, n: nat): (s: seq<Byte>)
    ensures |s| == n
  {
    if n == 0 then [] else BigEndian(v / 256, n - 1) + [v % 256]
  }

  function Power256(n: nat): nat {
    if n == 0 then 1 else 256 * Power256(n - 1)
  }

  /** As long as the low bytes do not overflow, only they count. */
  lemma {:induction false} IncLowBytes(prefix: seq<Byte>, v: nat, n: nat)
    requires v + 1 < Power256(n)
    ensures Inc(prefix + BigEndian(v, n)) == prefix + BigEndian(v + 1, n)
  {
    var s := prefix + BigEndian(v, n);
    var init := prefix + BigEndian(v / 256, n - 1);
    assert s[..|s| - 1] == init && s[|s| - 1] == v % 256;
    if v % 256 < 255 {
      assert (v + 1) / 256 == v / 256 && (v + 1) % 256 == v % 256 + 1;
    } else {
      assert (v + 1) / 256 == v / 256 + 1 && (v + 1) % 256 == 0;
      IncLowBytes(prefix, v / 256, n - 1);
    }
  }

  /** The initial counter of the stream: the last four bytes of the IV cleared. */
  function StreamStart(iv: Block): Block {
    iv[..12] + BigEndian(0, 4)
  }

  function WithCounter(iv: Block, o: nat): Block {
    iv[..12] + BigEndian(o, 4)
  }

  /** Writing a block number into the last four bytes counts that many blocks from the start of the stream. */
  lemma {:induction false} CounterOfBlock(iv: Block, o: nat)
    requires o < Power256(4)
    ensures WithCounter(iv, o) == IncTimes(StreamStart(iv), o)
  {
    if o > 0 {
      CounterOfBlock(iv, o - 1);
      IncLowBytes(iv[..12], o - 1, 4);
    }
  }

  lemma FourBytes(o: nat)
    ensures BigEndian(o, 4) == [o / 0x100_0000 % 256, o / 0x1_0000 % 256, o / 0x100 % 256, o % 256]
  {
    assert o / 256 / 256 == o / 0x1_0000 && o / 256 / 256 / 256 == o / 0x100_0000;
    assert BigEndian(o / 256 / 256 / 256, 1) == [o / 0x100_0000 % 256];
    assert BigEndian(o / 256 / 256, 2) == [o / 0x100_0000 % 256, o / 0x1_0000 % 256];
    assert BigEndian(o / 256, 3) == [o / 0x100_0000 % 256, o / 0x1_0000 % 256, o / 0x100 % 256];
  }

  lemma FourBytesRange()
    ensures Power256(4) == 0x1_0000_0000
  {
  }

  // ---------------------------------------------------------------- the stream

  function Keystream(aes: Block -> Block, start: Block, i: nat): Byte {
    aes(IncTimes(start, i / 16))[i % 16]
  }

  /** Block k of the keystream is the encryption of the counter that is k above the start, modulo 2^128. */
  lemma KeystreamBlock(aes: Block -> Block, start: Block, k: nat) returns (counter: Block)
    ensures Power256(16) > 0 && BigEndianValue(counter) == (BigEndianValue(start) + k) % Power256(16)
    ensures forall j :: 0 <= j < 16 ==> Keystream(aes, start, 16 * k + j) == aes(counter)[j]
  {
    counter := IncTimes(start, k);
    ValueRange(start);
    CounterValue(start, k, Power256(16));
    forall j | 0 <= j < 16 ensures Keystream(aes, start, 16 * k + j) == aes(counter)[j] {
      Quotient(16 * k + j, 16, k, j);
    }
  }

  lemma {:induction false} CounterValue(start: Block, k: nat, m: nat)
    requires m == Power256(16) > 0
    ensures BigEndianValue(IncTimes(start, k)) == (BigEndianValue(start) + k) % m
  {
    if k > 0 {
      CounterValue(start, k - 1, m);
      NextCounter(IncTimes(start, k - 1), m);
      NextRemainder(BigEndianValue(start) + k - 1, m);
    } else {
      ValueRange(start);
      Quotient(BigEndianValue(start), m, 0, BigEndianValue(start));
    }
  }

  lemma NextCounter(c: Block, m: nat)
    requires m == Power256(16)
    ensures BigEndianValue(Inc(c)) == if BigEndianValue(c) + 1 == m then 0 else BigEndianValue(c) + 1
  {
    IncIsSuccessor(c);
  }

  lemma NextRemainder(n: nat, m: nat)
    requires m > 0
    ensures (n + 1) % m == if n % m + 1 == m then 0 else n % m + 1
  {
    var q := n / m;
    assert n == m * q + n % m;
    if n % m + 1 == m {
      assert m * (q + 1) == m * q + m;
      Quotient(n + 1, m, q + 1, 0);
    } else {
      Quotient(n + 1, m, q, n % m + 1);
    }
  }

  /** The stream starts with the last four bytes of the IV cleared. */
  lemma StreamStartClears(iv: Block, i: nat)
    requires i < 16
    ensures StreamStart(iv)[i] == if i < 12 then iv[i] else 0
  {
  }

  /** The bytes at position pos of the stream, decrypted. */
  function Decrypted(aes: Block -> Block, start: Block, pos: nat, data: seq<Byte>): (r: seq<Byte>)
    ensures |r| == |data|
  {
    seq(|data|, i requires 0 <= i < |data| => Xor(data[i], Keystream(aes, start, pos + i)))
  }

  /** The driver stands at byte pos of the stream. */
  ghost predicate StandsAt(aes: Block -> Block, start: Block, pos: nat, iv: seq<Byte>, count: seq<Byte>, num: nat) {
    && num == pos % 16
    && iv == IncTimes(start, (pos + 15) / 16)
    && (num != 0 ==> count == aes(IncTimes(start, pos / 16)))
  }

  /** Decrypting a slice of the stream gives the slice of the decrypted stream. */
  lemma SliceOfStream(aes: Block -> Block, start: Block, data: seq<Byte>, from: nat, to: nat)
    requires from <= to <= |data|
    ensures Decrypted(aes, start, from, data[from..to]) == Decrypted(aes, start, 0, data)[from..to]
  {
  }

  function Joined(chunks: seq<seq<Byte>>): seq<Byte> {
    if chunks == [] then [] else chunks[0] + Joined(chunks[1..])
  }

  /** Each chunk decrypted on its own, from its own position. */
  function DecryptedChunks(aes: Block -> Block, start: Block, pos: nat, chunks: seq<seq<Byte>>): seq<seq<Byte>>
    decreases |chunks|
  {
    if chunks == [] then []
    else [Decrypted(aes, start, pos, chunks[0])] + DecryptedChunks(aes, start, pos + |chunks[0]|, chunks[1..])
  }

  /** However the stream is cut, the chunks put together are the stream decrypted at once. */
  lemma {:induction false} ChunksReassemble(aes: Block -> Block, start: Block, pos: nat, chunks: seq<seq<Byte>>)
    ensures Joined(DecryptedChunks(aes, start, pos, chunks)) == Decrypted(aes, start, pos, Joined(chunks))
    decreases |chunks|
  {
    if chunks != [] {
      var first, rest := chunks[0], Joined(chunks[1..]);
      ChunksReassemble(aes, start, pos + |first|, chunks[1..]);
      DecryptedConcat(aes, start, pos, first, rest);
      assert DecryptedChunks(aes, start, pos, chunks)[1..] == DecryptedChunks(aes, start, pos + |first|, chunks[1..]);
    }
  }

  lemma DecryptedConcat(aes: Block -> Block, start: Block, pos: nat, a: seq<Byte>, b: seq<Byte>)
    ensures Decrypted(aes, start, pos, a + b) == Decrypted(aes, start, pos, a) + Decrypted(aes, start, pos + |a|, b)
  {
  }

  /** Encryption and decryption are the same operation. */
  lemma DecryptTwice(aes: Block -> Block, start: Block, pos: nat, data: seq<Byte>)
    ensures Decrypted(aes, start, pos, Decrypted(aes, start, pos, data)) == data
  {
    forall i | 0 <= i < |data| ensures Decrypted(aes, start, pos, Decrypted(aes, start, pos, data))[i] == data[i] {
      XorTwice(data[i], Keystream(aes, start, pos + i));
    }
  }

  // ---------------------------------------------------------------- the driver

  /** The counter increment: add one to the last byte, and carry on while a byte wraps to zero. */
  method IncrementCounter(iv: array<Byte>)
    requires iv.Length == 16
    modifies iv
    ensures iv[..] == Inc(old(iv[..]))
  {
    var n := 16;
    ghost var before := iv[..];
    assert before[..16] == before;
    while n > 0
      invariant 0 <= n <= 16
      invariant iv[..n] == before[..n]
      invariant Inc(before) == Inc(before[..n]) + iv[n..]
    {
      n := n - 1;
      assert before[..n + 1][..n] == before[..n] && before[n] == iv[n];
      if iv[n] < 255 {
        iv[n] := iv[n] + 1;
        assert iv[..] == iv[..n] + [iv[n]] + iv[n + 1..];
        return;
      }
      ghost var tail := iv[n + 1..];
      iv[n] := 0;
      assert iv[n + 1..] == tail;
      PrependTail(iv[..], n);
    }
  }

  lemma PrependTail(s: seq<Byte>, n: nat)
    requires n < |s|
    ensures s[n..] == [s[n]] + s[n + 1..]
  {
  }

  lemma PositionStep(p: nat)
    ensures p % 16 == 0 ==> (p + 15) / 16 == p / 16
    ensures (p + 1 + 15) / 16 == p / 16 + 1
    ensures p % 16 != 0 ==> (p + 15) / 16 == p / 16 + 1
    ensures (p + 1) % 16 == (p % 16 + 1) % 16
    ensures (p + 1) % 16 != 0 ==> (p + 1) / 16 == p / 16
  {
  }

  /** One byte: make a new keystream block if the last one is used up, and find the byte of it that is due. */
  method NextKeyByte(aes: Block -> Block, iv: array<Byte>, count: array<Byte>, num0: nat, ghost start: Block,
      ghost pos: nat)
    returns (key: Byte, num: nat)
    requires iv.Length == 16 && count.Length == 16 && iv != count && StandsAt(aes, start, pos, iv[..], count[..], num0)
    modifies iv, count
    ensures key == Keystream(aes, start, pos) && StandsAt(aes, start, pos + 1, iv[..], count[..], num)
  {
    PositionStep(pos);
    assert IncTimes(start, pos / 16 + 1) == Inc(IncTimes(start, pos / 16));
    if num0 == 0 {
      var block := aes(iv[..]);
      forall i | 0 <= i < 16 { count[i] := block[i]; }
      assert count[..] == block && iv[..] == IncTimes(start, pos / 16);
      IncrementCounter(iv);
    }
    key := count[num0];
    num := (num0 + 1) % 16;
  }

  method DecryptAt(buffer: array<Byte>, at: nat, aes: Block -> Block, iv: array<Byte>, count: array<Byte>, num0: nat,
      ghost start: Block, ghost pos: nat)
    returns (num: nat)
    requires at < buffer.Length && iv.Length == 16 && count.Length == 16 && buffer != iv && buffer != count
    requires iv != count
    requires StandsAt(aes, start, pos, iv[..], count[..], num0)
    modifies buffer, iv, count
    ensures StandsAt(aes, start, pos + 1, iv[..], count[..], num)
    ensures buffer[..] == old(buffer[..])[at := Xor(old(buffer[at]), Keystream(aes, start, pos))]
  {
    var key;
    key, num := NextKeyByte(aes, iv, count, num0, start, pos);
    buffer[at] := Xor(buffer[at], key);
  }

  /** One round of the driver's loop: the next byte of out is in place. */
  method DecryptNext(buffer: array<Byte>, offset: nat, l: nat, aes: Block -> Block, iv: array<Byte>,
      count: array<Byte>, num0: nat,
                     ghost start: Block, ghost p: nat, ghost before: seq<Byte>, ghost out: seq<Byte>)
    returns (num: nat)
    requires iv.Length == 16 && count.Length == 16 && buffer != iv && buffer != count && iv != count
    requires StandsAt(aes, start, p, iv[..], count[..], num0)
    requires l < |out| && offset + |out| <= |before| && Overwritten(before, buffer[..], offset, out, l)
    requires out[l] == Xor(before[offset + l], Keystream(aes, start, p))
    modifies buffer, iv, count
    ensures StandsAt(aes, start, p + 1, iv[..], count[..], num)
    ensures Overwritten(before, buffer[..], offset, out, l + 1)
  {
    ghost var mid := buffer[..];
    num := DecryptAt(buffer, offset + l, aes, iv, count, num0, start, p);
    OverwriteNext(before, mid, buffer[..], offset, out, l);
  }

  /** The CTR driver: whatever position it stands at, it decrypts from there and stands behind what it decrypted. */
  method CtrEncrypt(buffer: array<Byte>, offset: nat, length: nat, aes: Block -> Block, iv: array<Byte>,
      count: array<Byte>, num0: nat,
                    ghost start: Block, ghost pos: nat)
    returns (num: nat)
    requires offset + length <= buffer.Length && iv.Length == 16 && count.Length == 16
    requires buffer != iv && buffer != count && iv != count
    requires StandsAt(aes, start, pos, iv[..], count[..], num0)
    modifies buffer, iv, count
    ensures StandsAt(aes, start, pos + length, iv[..], count[..], num)
    ensures buffer[..] == Spliced(old(buffer[..]), offset,
              Decrypted(aes, start, pos, old(buffer[offset..offset + length])))
  {
    num := num0;
    ghost var before := buffer[..];
    ghost var out := Decrypted(aes, start, pos, before[offset..offset + length]);
    ghost var p := pos;
    for l := 0 to length
      invariant p == pos + l && StandsAt(aes, start, p, iv[..], count[..], num)
      invariant Overwritten(before, buffer[..], offset, out, l)
    {
      DecryptedByte(aes, start, pos, before, offset, length, l);
      num := DecryptNext(buffer, offset, l, aes, iv, count, num, start, p, before, out);
      p := p + 1;
    }
    OverwrittenIsSpliced(before, buffer[..], offset, out);
  }

  lemma DecryptedByte(aes: Block -> Block, start: Block, pos: nat, s: seq<Byte>, offset: nat, length: nat, l: nat)
    requires offset + length <= |s| && l < length
    ensures Decrypted(aes, start, pos, s[offset..offset + length])[l]
              == Xor(s[offset + l], Keystream(aes, start, pos + l))
  {
  }

  /** The first n bytes of data have been written over s from offset on. */
  ghost predicate Overwritten(s: seq<Byte>, after: seq<Byte>, offset: nat, data: seq<Byte>, n: nat) {
    && n <= |data|
    && offset + |data| <= |s| == |after|
    && (forall i :: 0 <= i < n ==> after[offset + i] == data[i])
    && (forall i :: 0 <= i < |s| && !(offset <= i < offset + n) ==> after[i] == s[i])
  }

  lemma OverwriteNext(s: seq<Byte>, mid: seq<Byte>, after: seq<Byte>, offset: nat, data: seq<Byte>, n: nat)
    requires Overwritten(s, mid, offset, data, n) && n < |data| && after == mid[offset + n := data[n]]
    ensures Overwritten(s, after, offset, data, n + 1)
  {
  }

  /** s with data written over it from offset on. */
  function Spliced(s: seq<Byte>, offset: nat, data: seq<Byte>): (r: seq<Byte>)
    requires offset + |data| <= |s|
    ensures |r| == |s|
  {
    s[..offset] + data + s[offset + |data|..]
  }

  lemma OverwrittenIsSpliced(s: seq<Byte>, after: seq<Byte>, offset: nat, data: seq<Byte>)
    requires Overwritten(s, after, offset, data, |data|)
    ensures after == Spliced(s, offset, data)
  {
    forall i | 0 <= i < |s| ensures after[i] == Spliced(s, offset, data)[i] {
      assert offset <= i < offset + |data| ==> after[offset + (i - offset)] == data[i - offset];
    }
  }

  // ---------------------------------------------------------------- the entry points

  /** aesCtrDecryption: decrypts a whole stream from its start. */
  method AesCtrDecryption(buffer: array<Byte>, aes: Block -> Block, iv: Block, offset: nat, length: nat)
    requires offset + length <= buffer.Length
    modifies buffer
    ensures buffer[..] == Spliced(old(buffer[..]), offset, Decrypted(aes, iv, 0, old(buffer[offset..offset + length])))
  {
    var ivBuff, count := new Byte[16](i requires 0 <= i < 16 => iv[i]), new Byte[16](_ => 0);
    assert ivBuff[..] == iv;
    var num := CtrEncrypt(buffer, offset, length, aes, ivBuff, count, 0, iv, 0);
  }

  method SetCounter(iv: array<Byte>, o: nat, ghost original: Block)
    requires iv.Length == 16 && iv[..12] == original[..12]
    modifies iv
    ensures iv[..] == WithCounter(original, o)
  {
    iv[15] := o % 256;
    iv[14] := o / 0x100 % 256;
    iv[13] := o / 0x1_0000 % 256;
    iv[12] := o / 0x100_0000 % 256;
    FourBytes(o);
  }

  /** Brings the driver to byte fileOffset of the stream: the leftover block is that of the byte's own block, the
      counter that of the first block not started yet. */
  method Seek(aes: Block -> Block, iv: Block, fileOffset: nat, ivBuff: array<Byte>, count: array<Byte>)
    returns (num: nat)
    requires ivBuff.Length == 16 && count.Length == 16 && ivBuff != count && ivBuff[..] == iv
    requires fileOffset <= 0x8000_0000 - 16
    modifies ivBuff, count
    ensures StandsAt(aes, StreamStart(iv), fileOffset, ivBuff[..], count[..], num)
  {
    FourBytesRange();
    num := fileOffset % 16;
    var o := fileOffset / 16;
    SetCounter(ivBuff, o, iv);
    CounterOfBlock(iv, o);
    var block := aes(ivBuff[..]);
    forall i | 0 <= i < 16 { count[i] := block[i]; }
    assert count[..] == aes(IncTimes(StreamStart(iv), fileOffset / 16));
    o := (fileOffset + 15) / 16;
    SetCounter(ivBuff, o, iv);
    CounterOfBlock(iv, o);
  }

  /** aesCtrDecryptionByteArray: decrypts a chunk that lies at fileOffset of the stream.  It gives exactly what the
      whole stream, started with the last four bytes of the IV cleared, has at that place. */
  method AesCtrDecryptionByteArray(buffer: array<Byte>, aes: Block -> Block, iv: Block, offset: nat, length: nat,
      fileOffset: nat)
    requires offset + length <= buffer.Length && fileOffset <= 0x8000_0000 - 16
    modifies buffer
    ensures buffer[..] == Spliced(old(buffer[..]), offset,
              Decrypted(aes, StreamStart(iv), fileOffset, old(buffer[offset..offset + length])))
  {
    var ivBuff, count := new Byte[16](i requires 0 <= i < 16 => iv[i]), new Byte[16](_ => 0);
    assert ivBuff[..] == iv;
    var num := Seek(aes, iv, fileOffset, ivBuff, count);
    num := CtrEncrypt(buffer, offset, length, aes, ivBuff, count, num, StreamStart(iv), fileOffset);
  }
}
