/** The streaming MD5 of RFC 1321. The compression function of section 3.4 is a parameter. */
module Md5 {
  import opened Bytes

  const TWO_32: nat := 0x1_0000_0000

  type Word = w: int | 0 <= w < 0x1_0000_0000

  /** Four words of state and sixteen of input to four words of state. */
  type Compression = (seq<Word>, seq<Word>) -> seq<Word>

  const INIT: seq<Word> := [0x67452301, 0xefcdab89, 0x98badcfe, 0x10325476]

  // ----- words and bytes, low-order byte first (section 2)

  function WordOf(s: seq<byte>): Word
    requires |s| == 4
  {
    s[0] as int + 0x100 * (s[1] as int) + 0x1_0000 * (s[2] as int) + 0x100_0000 * (s[3] as int)
  }

  function BytesOf(w: Word): (s: seq<byte>)
    ensures |s| == 4 && WordOf(s) == w
  {
    var s: seq<byte> := [w % 0x100, w / 0x100 % 0x100, w / 0x1_0000 % 0x100, w / 0x100_0000];
    assert w == w % 0x100 + 0x100 * (w / 0x100);
    assert w / 0x100 == w / 0x100 % 0x100 + 0x100 * (w / 0x1_0000);
    assert w / 0x1_0000 == w / 0x1_0000 % 0x100 + 0x100 * (w / 0x100_0000);
    s
  }

  function Words(s: seq<byte>): (r: seq<Word>)
    requires |s| % 4 == 0
    ensures |r| == |s| / 4
  {
    if s == [] then [] else Words(s[..|s| - 4]) + [WordOf(s[|s| - 4..])]
  }

  function AllBytes(ws: seq<Word>): (r: seq<byte>)
    ensures |r| == 4 * |ws|
  {
    if ws == [] then [] else AllBytes(ws[..|ws| - 1]) + BytesOf(ws[|ws| - 1])
  }

  // ----- the digest of a whole message (sections 3.1 to 3.5)

  /** How many zeros bring a message and its 0x80 to 56 modulo 64. */
  function PadLen(n: nat): nat {
    (55 - n) % 64
  }

  /** The length in bits, modulo 2^64, low-order word first. */
  function LengthWords(n: nat): seq<Word> {
    var bits := 8 * n % TWO_64;
    [bits % TWO_32, bits / TWO_32]
  }

  function Padded(message: seq<byte>): seq<byte> {
    message + [0x80] + Zeros(PadLen(|message|)) + AllBytes(LengthWords(|message|))
  }

  /** All complete blocks, one after the other. */
  function Fold(t: Compression, h: seq<Word>, s: seq<byte>): seq<Word>
    decreases |s|
  {
    if |s| < 64 then h else Fold(t, t(h, Words(s[..64])), s[64..])
  }

  function DigestOf(t: Compression, message: seq<byte>): seq<byte> {
    AllBytes(Fold(t, INIT, Padded(message)))
  }

  /** The words a digest begins with, byte by byte. */
  lemma InitialBytes()
    ensures AllBytes(INIT) ==
      [0x01, 0x23, 0x45, 0x67, 0x89, 0xab, 0xcd, 0xef, 0xfe, 0xdc, 0xba, 0x98, 0x76, 0x54, 0x32, 0x10]
  {
    var a, b, c, d := INIT[0], INIT[1], INIT[2], INIT[3];
    assert INIT[..3] == [a, b, c] && [a, b, c][..2] == [a, b] && [a, b][..1] == [a] && [a][..0] == [];
    assert AllBytes([a]) == AllBytes([]) + BytesOf(a);
    assert AllBytes([a, b]) == AllBytes([a]) + BytesOf(b);
    assert AllBytes([a, b, c]) == AllBytes([a, b]) + BytesOf(c);
    assert AllBytes(INIT) == AllBytes([a, b, c]) + BytesOf(d);
  }

  /** A message of less than 56 bytes is compressed once, from these words on: itself, 0x80, zeros, and its length in
      bits with the low-order byte first. */
  lemma ShortDigest(t: Compression, message: seq<byte>)
    requires |message| < 56 && forall h, ws :: |t(h, ws)| == 4
    ensures var n := 8 * |message|;
      DigestOf(t, message) == AllBytes(t(INIT, Words(
        message + [0x80] + Zeros(55 - |message|) + [n % 256, n / 256, 0, 0, 0, 0, 0, 0])))
  {
    var n := 8 * |message|;
    LengthBytes(n);
    ShortPadded(message);
    hide Words, AllBytes, Padded;
    FoldOne(t, INIT, Padded(message));
  }

  lemma ShortPadded(message: seq<byte>)
    requires |message| < 56
    ensures Padded(message) == message + [0x80] + Zeros(55 - |message|) + AllBytes([8 * |message|, 0])
    ensures |Padded(message)| == 64
  {
    hide AllBytes;
    assert LengthWords(|message|) == [8 * |message|, 0];
  }

  lemma LengthBytes(n: nat)
    requires n < 0x1_0000
    ensures AllBytes([n, 0]) == [n % 256, n / 256, 0, 0, 0, 0, 0, 0]
  {
    assert [n, 0][..1] == [n] && [n][..0] == [];
    assert AllBytes([n]) == AllBytes([]) + BytesOf(n);
    assert AllBytes([n, 0]) == AllBytes([n]) + BytesOf(0);
  }

  lemma PaddedWhole(message: seq<byte>)
    ensures Blockwise(Padded(message)) && |message| + 9 <= |Padded(message)| <= |message| + 72
  {
    assert |AllBytes(LengthWords(|message|))| == 8;
    PadLenRight(|message|);
  }

  lemma PadLenRight(n: nat)
    ensures (n + 1 + PadLen(n) + 8) % 64 == 0
  {
  }

  predicate Blockwise(s: seq<byte>) {
    |s| % 64 == 0
  }

  lemma BlockwiseOn(a: seq<byte>, b: seq<byte>)
    requires Blockwise(a) && |b| == 64
    ensures Blockwise(a + b)
  {
  }

  lemma {:induction false} FoldOn(t: Compression, h: seq<Word>, a: seq<byte>, b: seq<byte>)
    requires Blockwise(a)
    ensures Fold(t, h, a + b) == Fold(t, Fold(t, h, a), b)
    decreases |a|
  {
    if a == [] {
      assert a + b == b;
    } else {
      assert (a + b)[..64] == a[..64] && (a + b)[64..] == a[64..] + b;
      FoldOn(t, t(h, Words(a[..64])), a[64..], b);
    }
  }

  lemma FoldOne(t: Compression, h: seq<Word>, block: seq<byte>)
    requires |block| == 64
    ensures Fold(t, h, block) == t(h, Words(block))
  {
    assert block[..64] == block;
  }

  /** The last block: 56 bytes and the two words of the length. */
  lemma LengthAppended(s: seq<byte>, b0: Word, b1: Word)
    requires |s| == 56
    ensures Words(s + AllBytes([b0, b1])) == Words(s) + [b0, b1]
  {
    var u, v := BytesOf(b0), BytesOf(b1);
    assert AllBytes([b0, b1]) == u + v by {
      assert [b0, b1][..1] == [b0] && [b0][..0] == [];
      assert AllBytes([b0]) == AllBytes([]) + u;
      assert [] + u == u;
    }
    var whole := s + AllBytes([b0, b1]);
    assert whole[..60] == s + u && whole[60..] == v;
    assert (s + u)[..56] == s && (s + u)[56..] == u;
  }

  // ----- the context

  class Context {
    const transform: Compression
    var buf: seq<Word>
    var bits0: Word
    var bits1: Word
    const inBuf: array<byte>

    ghost var message: seq<byte>

    /** How many bytes of an incomplete block there are. */
    function Pending(): nat
      reads this
    {
      bits0 / 8 % 64
    }

    ghost predicate Valid()
      reads this, inBuf
    {
      && inBuf.Length == 64
      && bits1 * TWO_32 + bits0 == 8 * |message| % TWO_64
      && var whole := |message| - |message| % 64;
      && buf == Fold(transform, INIT, message[..whole])
      && inBuf[..|message| % 64] == message[whole..]
    }

    /** MD5Init */
    constructor (transform: Compression)
      ensures Valid() && message == [] && this.transform == transform && fresh(inBuf)
    {
      this.transform := transform;
      buf := INIT;
      bits0, bits1 := 0, 0;
      inBuf := new byte[64](_ => 0);
      message := [];
    }

    /** The message is what has been folded and what is pending. */
    lemma Divided()
      requires Valid()
      ensures Pending() <= |message| && bits1 * TWO_32 + bits0 == 8 * |message| % TWO_64
      ensures var whole, tail := message[..|message| - Pending()], message[|message| - Pending()..];
        && message == whole + tail && Blockwise(whole) && |tail| == Pending()
        && inBuf.Length == 64 && buf == Fold(transform, INIT, whole) && inBuf[..|tail|] == tail
    {
      hide Fold;
      BitsCount(bits0, bits1, |message|);
    }

    /** memcpy into the block buffer. */
    method PutIn(at: nat, data: seq<byte>)
      requires at + |data| <= inBuf.Length
      modifies inBuf
      ensures inBuf[..at] == old(inBuf[..at]) && inBuf[at..at + |data|] == data
    {
      forall i | 0 <= i < |data| {
        inBuf[at + i] := data[i];
      }
    }

    /** byteReverse and MD5Transform on a full buffer. */
    method Compress()
      requires inBuf.Length == 64
      modifies this`buf
      ensures buf == transform(old(buf), Words(inBuf[..]))
    {
      buf := transform(buf, Words(inBuf[..]));
    }

    /** The bit count goes up by eight times `len`, with a carry from its low to its high word. */
    method CountBits(len: nat)
      requires len < TWO_32
      modifies this`bits0, this`bits1
      ensures bits1 * TWO_32 + bits0 == (old(bits1) * TWO_32 + old(bits0) + 8 * len) % TWO_64
    {
      var t := bits0;
      bits0 := (t + 8 * len % TWO_32) % TWO_32;
      var carry := if bits0 < t then 1 else 0;
      Carried(t, bits1, len, bits0, carry);
      bits1 := (bits1 + carry) % TWO_32;
      bits1 := (bits1 + len / 0x2000_0000) % TWO_32;
    }

    /** A block is filled up and compressed. */
    method FillBlock(at: nat, data: seq<byte>, ghost whole: seq<byte>)
      requires inBuf.Length == 64 && at + |data| == 64 && Blockwise(whole) && buf == Fold(transform, INIT, whole)
      modifies this`buf, inBuf
      ensures buf == Fold(transform, INIT, whole + (old(inBuf[..at]) + data))
    {
      hide Fold, Blockwise;
      ghost var block := inBuf[..at] + data;
      PutIn(at, data);
      assert inBuf[..] == block;
      Compress();
      FoldOn(transform, INIT, whole, block);
      FoldOne(transform, Fold(transform, INIT, whole), block);
    }

    /** Data in whole blocks; what is left over is kept. */
    method Blocks(data: seq<byte>, ghost before: seq<byte>)
      requires inBuf.Length == 64 && message == before + data
      requires Blockwise(before) && buf == Fold(transform, INIT, before)
      requires bits1 * TWO_32 + bits0 == 8 * |message| % TWO_64
      modifies this`buf, inBuf
      ensures Valid()
    {
      hide Fold, Blockwise, Valid;
      ghost var whole := before;
      var rest := data;
      while |rest| >= 64
        invariant message == whole + rest && Blockwise(whole) && buf == Fold(transform, INIT, whole)
        decreases |rest|
      {
        FillBlock(0, rest[..64], whole);
        assert inBuf[..0] + rest[..64] == rest[..64];
        BlockwiseOn(whole, rest[..64]);
        whole := whole + rest[..64];
        rest := rest[64..];
      }
      PutIn(0, rest);
      Settled(whole, rest);
    }

    /** MD5Update */
    method Update(data: seq<byte>)
      requires Valid() && |data| < TWO_32
      modifies this`buf, this`bits0, this`bits1, this`message, inBuf
      ensures Valid() && message == old(message) + data
    {
      hide Fold, Blockwise, Valid;
      Divided();
      var t := Pending();
      ghost var whole, tail := message[..|message| - t], message[|message| - t..];
      CountBits(|data|);
      BitsOn(bits1 * TWO_32 + bits0, |message|, |data|);
      message := message + data;
      if t == 0 {
        assert message == whole + data;
        Blocks(data, whole);
      } else if |data| < 64 - t {
        PutIn(t, data);
        Settled(whole, tail + data);
      } else {
        FillBlock(t, data[..64 - t], whole);
        BlockwiseOn(whole, tail + data[..64 - t]);
        assert message == (whole + (tail + data[..64 - t])) + data[64 - t..];
        Blocks(data[64 - t..], whole + (tail + data[..64 - t]));
      }
    }

    /** All but an incomplete block has been folded. */
    lemma Settled(whole: seq<byte>, tail: seq<byte>)
      requires inBuf.Length == 64 && bits1 * TWO_32 + bits0 == 8 * |message| % TWO_64
      requires message == whole + tail && Blockwise(whole) && |tail| < 64
      requires buf == Fold(transform, INIT, whole) && inBuf[..|tail|] == tail
      ensures Valid()
    {
      hide Fold;
      LeftOver(|whole|, |tail|);
      assert message[..|whole|] == whole && message[|whole|..] == tail;
    }

    /** The 0x80 and the zeros up to 56 bytes; if there is no room for the length after it, in a block of their own. */
    method Pad() returns (last: seq<byte>, ghost before: seq<byte>)
      requires Valid()
      modifies this`buf, inBuf
      ensures |last| == 56 && Blockwise(before) && buf == Fold(transform, INIT, before)
      ensures before + (last + AllBytes(LengthWords(|message|))) == Padded(message)
    {
      hide Fold, LengthWords, AllBytes, Padded, Blockwise, Valid;
      Divided();
      var count := Pending();
      ghost var whole, tail := message[..|message| - count], message[|message| - count..];
      PutIn(count, [0x80]);
      assert inBuf[..count + 1] == tail + [0x80];
      var free := 63 - count;
      if free < 8 {
        FillBlock(count + 1, Zeros(free), whole);
        PutIn(0, Zeros(56));
        PaddedTwice(message, whole, tail, free);
        BlockwiseOn(whole, tail + [0x80] + Zeros(free));
        before := whole + (tail + [0x80] + Zeros(free));
      } else {
        PutIn(count + 1, Zeros(free - 8));
        assert inBuf[..56] == tail + [0x80] + Zeros(free - 8);
        PaddedOnce(message, whole, tail, free - 8);
        before := whole;
      }
      last := inBuf[..56];
    }

    /** MD5Final. The context is wiped afterwards. */
    method Final() returns (digest: seq<byte>)
      requires Valid()
      modifies this`buf, this`bits0, this`bits1, this`message, inBuf
      ensures digest == DigestOf(transform, old(message))
    {
      hide Fold, Padded, LengthWords;
      LengthHeld(bits0, bits1, |message|);
      var last;
      ghost var before;
      last, before := Pad();
      LastBlock(before, last);
      digest := AllBytes(transform(buf, Words(last) + [bits0, bits1]));
      buf, bits0, bits1, message := [0, 0, 0, 0], 0, 0, [];
      PutIn(0, Zeros(64));
    }

    lemma LastBlock(before: seq<byte>, s: seq<byte>)
      requires Blockwise(before) && |s| == 56 && buf == Fold(transform, INIT, before)
      ensures transform(buf, Words(s) + [bits0, bits1]) ==
        Fold(transform, INIT, before + (s + AllBytes([bits0, bits1])))
    {
      var block := s + AllBytes([bits0, bits1]);
      LengthAppended(s, bits0, bits1);
      FoldOn(transform, INIT, before, block);
      FoldOne(transform, buf, block);
    }
  }

  lemma LeftOver(whole: nat, tail: nat)
    requires whole % 64 == 0 && tail < 64
    ensures (whole + tail) % 64 == tail
  {
  }

  lemma BitsCount(b0: Word, b1: Word, n: nat)
    requires b1 * TWO_32 + b0 == 8 * n % TWO_64
    ensures b0 / 8 % 64 == n % 64
  {
    var q := 8 * n / TWO_64;
    assert 8 * n == TWO_64 * q + (b1 * TWO_32 + b0);
    assert b0 == 8 * (n - (TWO_64 / 8) * q - (TWO_32 / 8) * b1);
  }

  /** Adding the low 32 bits of 8 * len overflows exactly when the sum comes out smaller. */
  lemma Carried(t: Word, b1: Word, len: nat, b0: Word, carry: nat)
    requires len < TWO_32 && b0 == (t + 8 * len % TWO_32) % TWO_32 && carry == if b0 < t then 1 else 0
    ensures ((b1 + carry) % TWO_32 + len / 0x2000_0000) % TWO_32 * TWO_32 + b0 == (b1 * TWO_32 + t + 8 * len) % TWO_64
  {
    var low, high := 8 * len % TWO_32, len / 0x2000_0000;
    assert 8 * len == high * TWO_32 + low;
    assert t + low == carry * TWO_32 + b0;
    var sum := b1 + carry + high;
    assert b1 * TWO_32 + t + 8 * len == sum * TWO_32 + b0;
    assert ((b1 + carry) % TWO_32 + high) % TWO_32 == sum % TWO_32;
    assert sum * TWO_32 + b0 == TWO_64 * (sum / TWO_32) + (sum % TWO_32 * TWO_32 + b0);
  }

  lemma LengthHeld(b0: Word, b1: Word, n: nat)
    requires b1 * TWO_32 + b0 == 8 * n % TWO_64
    ensures LengthWords(n) == [b0, b1]
  {
  }

  /** The 0x80 and the length both fit behind the rest of the message... */
  lemma PaddedOnce(m: seq<byte>, whole: seq<byte>, tail: seq<byte>, k: nat)
    requires m == whole + tail && Blockwise(whole) && |tail| + 1 + k == 56
    ensures whole + (tail + [0x80] + Zeros(k) + AllBytes(LengthWords(|m|))) == Padded(m)
  {
    assert PadLen(|m|) == k;
  }

  /** ...or the length goes to a block of its own. */
  lemma PaddedTwice(m: seq<byte>, whole: seq<byte>, tail: seq<byte>, k: nat)
    requires m == whole + tail && Blockwise(whole) && |tail| + 1 + k == 64 && k < 8
    ensures (whole + (tail + [0x80] + Zeros(k))) + (Zeros(56) + AllBytes(LengthWords(|m|))) == Padded(m)
  {
    assert PadLen(|m|) == k + 56;
    assert Zeros(k) + Zeros(56) == Zeros(k + 56);
    var length := AllBytes(LengthWords(|m|));
    assert tail + [0x80] + Zeros(k) + (Zeros(56) + length) == tail + [0x80] + Zeros(k + 56) + length;
  }

  lemma BitsOn(bits: nat, n: nat, len: nat)
    requires bits == (8 * n % TWO_64 + 8 * len) % TWO_64
    ensures bits == 8 * (n + len) % TWO_64
  {
  }

  /** Hence however a message is divided the digest is that of the message. */
  method DigestInPieces(transform: Compression, pieces: seq<seq<byte>>) returns (digest: seq<byte>)
    requires forall i :: 0 <= i < |pieces| ==> |pieces[i]| < TWO_32
    ensures digest == DigestOf(transform, Joined(pieces))
  {
    var c := new Context(transform);
    var i := 0;
    assert Joined(pieces[..0]) == [];
    while i < |pieces|
      invariant i <= |pieces| && c.Valid() && fresh(c) && fresh(c.inBuf) && c.transform == transform
      invariant c.message == Joined(pieces[..i])
    {
      c.Update(pieces[i]);
      assert pieces[..i + 1][..i] == pieces[..i];
      i := i + 1;
    }
    assert pieces[..i] == pieces;
    digest := c.Final();
  }

  function Joined(pieces: seq<seq<byte>>): seq<byte> {
    if pieces == [] then [] else Joined(pieces[..|pieces| - 1]) + pieces[|pieces| - 1]
  }
}
