/** The two integer encodings of EBML: the variable-length VINT of RFC 8794 section 4 and
    big-endian integers of a stated size. Each parser is a loop over the input buffer proved
    against a function of the bytes it can see. */
module EbmlVarInt {
  import opened Bytes

  /** EBML_UNKNOWN: a value no VINT of at most 8 bytes can take. */
  const UNKNOWN: nat := TWO_64 - 1

  /** What a parse of a prefix of the stream answers: 0, -1 or a positive length in the C code. */
  datatype Parse = NeedMore | Malformed | Parsed(len: nat, value: nat)

  /** Length in bytes announced by the first byte: one more than its leading zero bits. */
  function Width(first: byte): (n: nat)
    requires first != 0
    ensures 1 <= n <= 8
    ensures Marker(n) <= first < 2 * Marker(n)
  {
    if first >= 128 then 1 else if first >= 64 then 2 else if first >= 32 then 3 else if first >= 16 then 4
    else if first >= 8 then 5 else if first >= 4 then 6 else if first >= 2 then 7 else 8
  }

  /** The marker bit of a VINT of `n` bytes, as a value of its first byte. */
  function Marker(n: nat): (m: nat)
    requires 1 <= n <= 8
    ensures 1 <= m <= 128
  {
    if n == 1 then 128 else if n == 2 then 64 else if n == 3 then 32 else if n == 4 then 16
    else if n == 5 then 8 else if n == 6 then 4 else if n == 7 then 2 else 1
  }

  /** Number of values of a VINT of `n` bytes; the greatest, all data bits set, means "unknown". */
  function Capacity(n: nat): nat
    requires 1 <= n <= 8
  {
    Limit(Marker(n), n - 1)
  }

  function VarInt(w: seq<byte>): (r: Parse)
    ensures r.Parsed? ==> 1 <= r.len <= 8 && r.len <= |w|
    ensures r.NeedMore? ==> |w| < 8
  {
    if w == [] then NeedMore
    else if w[0] == 0 then Malformed
    else
      var n := Width(w[0]);
      if |w| < n then NeedMore
      else
        var v := BigEndian(w[0] - Marker(n), w[1..n]);
        Parsed(n, if v == Capacity(n) - 1 then UNKNOWN else v)
  }

  /** The VINT encoding of `v` in `n` bytes, as RFC 8794 section 4 lays it out: `n` big-endian bytes with the
      marker bit added to the first. */
  function EncodeVarInt(v: nat, n: nat): (s: seq<byte>)
    requires 1 <= n <= 8 && v < Capacity(n)
    ensures |s| == n
  {
    FirstDigit(v, n);
    var digits := ToBigEndian(v, n);
    digits[0 := digits[0] + Marker(n)]
  }

  lemma FirstDigit(v: nat, n: nat)
    requires 1 <= n <= 8 && v < Capacity(n)
    ensures BigEndian(0, ToBigEndian(v, n)) == v && ToBigEndian(v, n)[0] < Marker(n)
  {
    LimitMono(Marker(n), 256, n - 1);
    LimitShift(n);
    BigEndianOfEncoding(v, n);
    HeadBelow(ToBigEndian(v, n), v, Marker(n));
  }

  lemma HeadBelow(digits: seq<byte>, v: nat, first: nat)
    requires digits != [] && BigEndian(0, digits) == v < Limit(first, |digits| - 1)
    ensures digits[0] < first
  {
    hide BigEndian, Limit;
    assert digits == [digits[0]] + digits[1..];
    BigEndianHead(digits[0], digits[1..]);
    BigEndianBelow(digits[0], first, digits[1..]);
  }

  lemma {:induction false} LimitMono(a: nat, b: nat, k: nat)
    requires a <= b
    ensures Limit(a, k) <= Limit(b, k)
  {
    if k > 0 {
      LimitMono(a, b, k - 1);
    }
  }

  lemma {:induction false} LimitShift(n: nat)
    requires 1 <= n
    ensures Limit(256, n - 1) == Limit(1, n)
  {
    if n > 1 {
      LimitShift(n - 1);
    } else {
      assert Limit(1, 1) == 256 * Limit(1, 0);
    }
  }

  /** Parsing an encoded value gives it back, whatever follows it; the greatest value reads as unknown. */
  lemma VarIntRoundTrip(v: nat, n: nat, rest: seq<byte>)
    requires 1 <= n <= 8 && v < Capacity(n)
    ensures VarInt(EncodeVarInt(v, n) + rest) == Parsed(n, if v == Capacity(n) - 1 then UNKNOWN else v)
  {
    var w := EncodeVarInt(v, n) + rest;
    var digits := ToBigEndian(v, n);
    FirstDigit(v, n);
    WidthOfMarker(w[0], n);
    assert w[1..n] == digits[1..];
    assert digits == [digits[0]] + digits[1..];
    BigEndianHead(digits[0], digits[1..]);
  }

  lemma WidthOfMarker(first: byte, n: nat)
    requires 1 <= n <= 8 && Marker(n) <= first < 2 * Marker(n)
    ensures first != 0 && Width(first) == n
  {
  }

  /** Conversely whatever parses is the encoding of the value it parsed to, so no two byte strings of
      one length share a value. */
  lemma VarIntOnlyEncodings(w: seq<byte>)
    requires VarInt(w).Parsed?
    ensures var r := VarInt(w);
      var v := if r.value == UNKNOWN then Capacity(r.len) - 1 else r.value;
      0 <= v < Capacity(r.len) && w[..r.len] == EncodeVarInt(v, r.len)
  {
    var n := Width(w[0]);
    var first := w[0] - Marker(n);
    var digits: seq<byte> := [first] + w[1..n];
    BigEndianBelow(first, Marker(n), w[1..n]);
    CapacityBelowUnknown(n);
    BigEndianHead(first, w[1..n]);
    EncodingOfBigEndian(digits);
    assert w[..n] == digits[0 := first + Marker(n)];
  }

  lemma CapacityBelowUnknown(n: nat)
    requires 1 <= n <= 8
    ensures Capacity(n) <= 0x100_0000_0000_0000 < UNKNOWN
  {
    Limits(Marker(n));
  }

  lemma Limits(m: nat)
    ensures Limit(m, 1) == 0x100 * m && Limit(m, 2) == 0x1_0000 * m && Limit(m, 3) == 0x100_0000 * m
    ensures Limit(m, 4) == 0x1_0000_0000 * m && Limit(m, 5) == 0x100_0000_0000 * m
    ensures Limit(m, 6) == 0x1_0000_0000_0000 * m && Limit(m, 7) == 0x100_0000_0000_0000 * m
    ensures Limit(m, 8) == TWO_64 * m
  {
    assert Limit(m, 1) == 256 * Limit(m, 0);
    assert Limit(m, 3) == 256 * Limit(m, 2);
    assert Limit(m, 5) == 256 * Limit(m, 4);
    assert Limit(m, 7) == 256 * Limit(m, 6);
  }

  /** An answer other than "need more" never changes when bytes are appended. */
  lemma VarIntStable(w: seq<byte>, more: seq<byte>)
    requires !VarInt(w).NeedMore?
    ensures VarInt(w + more) == VarInt(w)
  {
    assert (w + more)[0] == w[0];
    if w[0] != 0 {
      var n := Width(w[0]);
      assert (w + more)[1..n] == w[1..n];
    }
  }

  /** An integer of exactly `len` bytes. The bound is the code's: one byte beyond the number must be there. */
  function SizedInt(w: seq<byte>, len: nat, signed: bool): (r: Parse)
    ensures r.Parsed? ==> r.len == len && 1 <= len <= 8 && len < |w|
    ensures r.NeedMore? ==> |w| <= len <= 8
  {
    if len < 1 || len > 8 then Malformed
    else if |w| <= len then NeedMore
    else Parsed(len, BigEndian(if signed && w[0] >= 128 then TWO_64 - 1 else 0, w[..len]) % TWO_64)
  }

  /** Two, in one, two, three, four and eight bytes, and two ways to say that a size is unknown. */
  lemma TwoInWords()
    ensures VarInt([0x82]) == Parsed(1, 2) && VarInt([0x40, 0x02]) == Parsed(2, 2)
    ensures VarInt([0x20, 0x00, 0x02]) == Parsed(3, 2) && VarInt([0x10, 0x00, 0x00, 0x02]) == Parsed(4, 2)
    ensures VarInt([0x01, 0x00, 0x00, 0x00, 0x00, 0x00, 0x00, 0x02]) == Parsed(8, 2)
    ensures VarInt([0xFF]) == Parsed(1, 0xFFFF_FFFF_FFFF_FFFF)
    ensures VarInt([0x7F, 0xFF]) == Parsed(2, 0xFFFF_FFFF_FFFF_FFFF)
  {
    assert [0x82][1..1] == [] && [0xFF][1..1] == [];
    assert [0x40, 0x02][1..2] == [0x02] && [0x7F, 0xFF][1..2] == [0xFF];
    OneDigit(0x02);
    OneDigit(0xFF);
    BehindZeros(1, 0x02);
    BehindZeros(2, 0x02);
    BehindZeros(6, 0x02);
    assert [0x20, 0x00, 0x02][1..3] == Zeros(1) + [0x02];
    assert [0x10, 0x00, 0x00, 0x02][1..4] == Zeros(2) + [0x02];
    assert [0x01, 0x00, 0x00, 0x00, 0x00, 0x00, 0x00, 0x02][1..8] == Zeros(6) + [0x02];
    Limits(1);
  }

  lemma OneDigit(b: byte)
    ensures forall acc: nat :: BigEndian(acc, [b]) == acc * 256 + b
  {
    assert [b][..0] == [];
  }

  lemma {:induction false} BehindZeros(n: nat, b: byte)
    ensures BigEndian(0, Zeros(n)) == 0 && BigEndian(0, Zeros(n) + [b]) == b
  {
    assert (Zeros(n) + [b])[..n] == Zeros(n);
    if n > 0 {
      BehindZeros(n - 1, b);
      assert Zeros(n)[..n - 1] == Zeros(n - 1);
    }
  }

  lemma SizedIntStable(w: seq<byte>, more: seq<byte>, len: nat, signed: bool)
    requires !SizedInt(w, len, signed).NeedMore?
    ensures SizedInt(w + more, len, signed) == SizedInt(w, len, signed)
  {
    if 1 <= len <= 8 {
      assert (w + more)[..len] == w[..len];
      assert (w + more)[0] == w[0];
    }
  }

  /** Sign extension: a signed integer whose top bit is set reads as 2^64 less its distance below zero. */
  lemma SizedIntTwosComplement(w: seq<byte>, len: nat)
    requires 1 <= len <= 8 && len < |w|
    ensures SizedInt(w, len, false) == Parsed(len, BigEndian(0, w[..len]))
    ensures var b := BigEndian(0, w[..len]);
      b < Limit(1, len) <= TWO_64
      && SizedInt(w, len, true) == Parsed(len, if w[0] < 128 then b else TWO_64 - (Limit(1, len) - b))
  {
    var s := w[..len];
    BigEndianBelow(0, 1, s);
    BigEndianOfMinusOne(s);
    var b, p := BigEndian(0, s), Limit(1, len);
    LimitUpTo8(len);
    ModUnique(p - 1, TWO_64 - (p - b));
    ModUnique(0, b);
  }

  lemma LimitUpTo8(len: nat)
    requires 1 <= len <= 8
    ensures 1 <= Limit(1, len) <= TWO_64
  {
    Limits(1);
  }

  lemma ModUnique(q: nat, r: nat)
    requires r < TWO_64
    ensures (q * TWO_64 + r) % TWO_64 == r
  {
  }

  lemma {:induction false} BigEndianOfMinusOne(s: seq<byte>)
    ensures BigEndian(TWO_64 - 1, s) == (TWO_64 - 1) * Limit(1, |s|) + BigEndian(0, s)
  {
    if s != [] {
      BigEndianOfMinusOne(s[..|s| - 1]);
    }
  }

  /** The VINT parser over buffer[start..end]; `size` is the C result and `value` its out-parameter. */
  method ParseVarInt(buffer: array<byte>, start: nat, end: nat) returns (size: int, value: nat)
    requires end <= buffer.Length
    ensures size == if start >= end then 0 else Code(VarInt(buffer[start..end]))
    ensures size > 0 ==> value == VarInt(buffer[start..end]).value
  {
    if start >= end {
      return 0, 0;
    }
    ghost var w: seq<byte> := buffer[start..end];
    assert w[0] == buffer[start];
    var mask;
    size, mask, value := FindMarker(buffer[start]);
    if mask == 0 {
      return -1, 0;
    }
    if start + size - 1 >= end {
      return 0, 0;
    }
    var unknownMarker := mask - 1;
    ghost var head := value;
    var i := 1;
    while i < size
      invariant 1 <= i <= size <= |w|
      invariant value == BigEndian(head, w[1..i])
      invariant unknownMarker == Limit(mask, i - 1) - 1
    {
      VarIntFits(buffer[start], size, w[1..i], w[i]);
      assert w[1..i + 1] == w[1..i] + [w[i]];
      value := (value * 256 + buffer[start + i]) % TWO_64;
      unknownMarker := (unknownMarker * 256 + 0xFF) % TWO_64;
      i := i + 1;
    }
    if value == unknownMarker {
      value := UNKNOWN;
    }
  }

  /** The C encoding of a parse result. */
  function Code(r: Parse): (code: int)
    ensures code > 0 <==> r.Parsed? && r.len > 0
  {
    match r
    case NeedMore => 0
    case Malformed => -1
    case Parsed(n, _) => n
  }

  /** The scan for the length marker: its position, its bit (0 if there is none) and the byte without it. */
  method FindMarker(first: byte) returns (size: nat, mask: nat, value: nat)
    ensures mask == 0 <==> first == 0
    ensures mask != 0 ==> size == Width(first) && mask == Marker(size) && value == first - mask
  {
    size, mask, value := 1, 0x80, first;
    while mask != 0
      invariant 1 <= size <= 9
      invariant mask == if size <= 8 then Marker(size) else 0
      invariant value == first && if mask != 0 then value < 2 * mask else value == 0
      decreases mask
    {
      // No bit above the mask is set here, so the mask bit is set exactly when value >= mask.
      if value >= mask {
        value := value - mask;
        break;
      }
      size := size + 1;
      mask := mask / 2;
    }
  }

  /** Nothing overflows 64 bits while a VINT of `n` bytes is being read. */
  lemma VarIntFits(first: byte, n: nat, s: seq<byte>, b: byte)
    requires 1 <= n <= 8 && |s| + 1 < n && Marker(n) <= first < 2 * Marker(n)
    ensures (BigEndian(first - Marker(n), s) * 256 + b) % TWO_64 == BigEndian(first - Marker(n), s + [b])
    ensures ((Limit(Marker(n), |s|) - 1) * 256 + 0xFF) % TWO_64 == Limit(Marker(n), |s| + 1) - 1
  {
    BigEndianBelow(first - Marker(n), Marker(n), s);
    Limits(Marker(n));
    LimitFits(n, |s|);
    assert (s + [b])[..|s|] == s;
  }

  lemma LimitFits(n: nat, k: nat)
    requires 1 <= n <= 8 && k + 1 < n
    ensures 1 <= Limit(Marker(n), k) && 256 * Limit(Marker(n), k) < TWO_64
  {
    Limits(Marker(n));
  }

  method ParseSizedInt(buffer: array<byte>, start: nat, end: nat, len: nat, signed: bool)
    returns (size: int, value: nat)
    requires start <= end <= buffer.Length
    ensures size == Code(SizedInt(buffer[start..end], len, signed))
    ensures size > 0 ==> value == SizedInt(buffer[start..end], len, signed).value
  {
    value := 0;
    if len < 1 || len > 8 {
      return -1, 0;
    }
    if start + len >= end {
      return 0, 0;
    }
    ghost var w: seq<byte> := buffer[start..end];
    if signed && buffer[start] >= 128 {
      value := TWO_64 - 1;
    }
    ghost var first := value;
    var i := 0;
    while i < len
      invariant 0 <= i <= len
      invariant value == BigEndian(first, w[..i]) % TWO_64
    {
      assert w[..i + 1][..i] == w[..i];
      ModStep(BigEndian(first, w[..i]), buffer[start + i]);
      value := (value * 256 + buffer[start + i]) % TWO_64;
      i := i + 1;
    }
    size := len;
  }

  lemma ModStep(v: nat, b: nat)
    ensures (v % TWO_64 * 256 + b) % TWO_64 == (v * 256 + b) % TWO_64
  {
    assert v * 256 + b == (v % TWO_64 * 256 + b) + (v / TWO_64 * 256) * TWO_64;
  }
}
