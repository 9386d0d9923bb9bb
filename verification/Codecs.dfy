/** Base64 and URL escaping, into buffers of the sizes the source allocates. Strings are bytes without their NUL. */
module Codecs {
  import opened Bytes

  /** A result with something put before it. */
  function Behind(before: seq<byte>, r: Option<seq<byte>>): (b: Option<seq<byte>>)
    ensures r.Some? ==> b == Some(before + r.value)
  {
    if r.None? then None else Some(before + r.value)
  }

  lemma BehindNothing(r: Option<seq<byte>>)
    ensures Behind([], r) == r
  {
    if r.Some? {
      assert [] + r.value == r.value;
    }
  }

  lemma BehindOn(a: seq<byte>, b: seq<byte>, r: Option<seq<byte>>)
    ensures Behind(a, Behind(b, r)) == Behind(a + b, r)
  {
    if r.Some? {
      assert a + (b + r.value) == a + b + r.value;
    }
  }

  // ----- base64 (section 4 of RFC 4648)

  /** base64table */
  function Letter(i: int): byte
    requires 0 <= i < 64
  {
    if i < 26 then 65 + i else if i < 52 then 97 + (i - 26) else if i < 62 then 48 + (i - 52)
    else if i == 62 then 43 else 47
  }

  /** base64decode: -1 for '=', -2 for what has no place in base64. */
  function SixBits(c: byte): (v: int)
    ensures -2 <= v < 64
  {
    if 65 <= c <= 90 then c as int - 65
    else if 97 <= c <= 122 then c as int - 97 + 26
    else if 48 <= c <= 57 then c as int - 48 + 52
    else if c == 43 then 62
    else if c == 47 then 63
    else if c == 61 then -1
    else -2
  }

  const PAD: byte := 61

  lemma SixBitsOfLetter(i: int)
    requires 0 <= i < 64
    ensures SixBits(Letter(i)) == i
  {
  }

  /** Four characters for up to three bytes. A single byte is encoded with the high bits of whatever comes after it in
      memory, `beyond`. */
  function Quad(s: seq<byte>, beyond: byte): (q: seq<byte>)
    requires 1 <= |s| <= 3
    ensures |q| == 4
  {
    var a: int, b: int, c: int := s[0], if |s| > 1 then s[1] else beyond, if |s| > 2 then s[2] else 0;
    [Letter(a / 4), Letter(a % 4 * 16 + b / 16)]
    + if |s| == 3 then [Letter(b % 16 * 4 + c / 64), Letter(c % 64)]
      else if |s| == 2 then [Letter(b % 16 * 4), PAD]
      else [PAD, PAD]
  }

  function Encode(s: seq<byte>, beyond: byte): (t: seq<byte>)
    ensures |t| == (|s| + 2) / 3 * 4
    decreases |s|
  {
    if s == [] then []
    else
      var n := Min(|s|, 3);
      Quad(s[..n], beyond) + Encode(s[n..], beyond)
  }

  /** Three bytes for four characters; padding gives zero bytes. */
  function Triple(q: seq<byte>): (r: Option<seq<byte>>)
    requires |q| == 4
    ensures r.Some? ==> |r.value| == 3
  {
    var v0, v1, v2, v3 := SixBits(q[0]), SixBits(q[1]), SixBits(q[2]), SixBits(q[3]);
    if v0 < 0 || v1 < 0 || v2 < -1 || v3 < -1 then None
    else
      Some([v0 * 4 + v1 / 16,
            if v2 >= 0 then v1 % 16 * 16 + v2 / 4 else 0,
            if v3 >= 0 then (if v2 >= 0 then v2 % 4 else 3) * 64 + v3 else 0])
  }

  predicate IsLetter(c: byte) {
    exists i :: 0 <= i < 64 && Letter(i) == c
  }

  /** Four letters give three bytes, '=' in the last two places zero bytes. Anything else in one of the places, or '='
      in one of the first two, makes a four that is passed over. Of a letter behind '=' all bits are taken to be set
      before it. */
  lemma TripleInWords(q: seq<byte>)
    requires |q| == 4
    ensures Triple(q).Some? <==>
      && IsLetter(q[0]) && IsLetter(q[1])
      && (IsLetter(q[2]) || [q[2]] == Ascii("=")) && (IsLetter(q[3]) || [q[3]] == Ascii("="))
    ensures Triple(q).Some? ==> var t := Triple(q).value;
      && (IsLetter(q[2]) && IsLetter(q[3]) ==>
            (t[0] as int * 256 + t[1] as int) * 256 + t[2] as int
            == ((SixBits(q[0]) * 64 + SixBits(q[1])) * 64 + SixBits(q[2])) * 64 + SixBits(q[3]))
      && t[0] == SixBits(q[0]) * 4 + SixBits(q[1]) / 16
      && (!IsLetter(q[2]) ==> t[1] == 0 && (IsLetter(q[3]) ==> t[2] == 192 + SixBits(q[3])))
      && (!IsLetter(q[3]) ==> t[2] == 0)
  {
    forall c: byte | c in q
      ensures IsLetter(c) <==> SixBits(c) >= 0
    {
      if SixBits(c) >= 0 {
        assert Letter(SixBits(c)) == c;
      }
    }
    assert q[0] in q && q[1] in q && q[2] in q && q[3] in q;
    assert Ascii("=") == [61];
  }

  /** Characters in fours; a four with anything else in it is passed over. */
  function Decode(t: seq<byte>): Option<seq<byte>>
    decreases |t|
  {
    if t == [] then Some([])
    else if |t| < 4 then None
    else
      var triple := Triple(t[..4]);
      Behind(if triple.Some? then triple.value else [], Decode(t[4..]))
  }

  lemma TripleOfQuad(s: seq<byte>, beyond: byte)
    requires 1 <= |s| <= 3
    ensures Triple(Quad(s, beyond)) == Some(s + Zeros(3 - |s|))
  {
    var a: int, b: int, c: int := s[0], if |s| > 1 then s[1] else beyond, if |s| > 2 then s[2] else 0;
    SixBitsOfLetter(a / 4);
    SixBitsOfLetter(a % 4 * 16 + b / 16);
    assert (a % 4 * 16 + b / 16) / 16 == a % 4 && (a % 4 * 16 + b / 16) % 16 == b / 16;
    if |s| == 1 {
      assert Triple(Quad(s, beyond)) == Some([s[0], 0, 0]);
      assert s + Zeros(2) == [s[0], 0, 0];
    } else if |s| == 2 {
      SixBitsOfLetter(b % 16 * 4);
      assert Triple(Quad(s, beyond)) == Some([s[0], s[1], 0]);
      assert s + Zeros(1) == [s[0], s[1], 0];
    } else {
      SixBitsOfLetter(b % 16 * 4 + c / 64);
      SixBitsOfLetter(c % 64);
      assert (b % 16 * 4 + c / 64) / 4 == b % 16 && (b % 16 * 4 + c / 64) % 4 == c / 64;
      assert Triple(Quad(s, beyond)) == Some([s[0], s[1], s[2]]);
      assert s + Zeros(0) == [s[0], s[1], s[2]];
    }
  }

  /** The letters: 'A' to 'Z', 'a' to 'z', '0' to '9', '+' and '/', in this order; nothing else is one, but '='. */
  lemma Alphabet(c: char, d: char)
    requires c < 256 as char && d < 256 as char
    ensures SixBits(c as byte) >= 0 <==> 'A' <= c <= 'Z' || 'a' <= c <= 'z' || '0' <= c <= '9' || c == '+' || c == '/'
    ensures SixBits(c as byte) == -1 <==> c == '='
    ensures SixBits('A' as byte) == 0 && SixBits('z' as byte) + 1 == SixBits('0' as byte)
    ensures SixBits('Z' as byte) + 1 == SixBits('a' as byte) && SixBits('9' as byte) + 1 == SixBits('+' as byte)
    ensures SixBits('/' as byte) == 63
    ensures ('A' <= c <= d <= 'Z' || 'a' <= c <= d <= 'z' || '0' <= c <= d <= '9') ==>
      SixBits(d as byte) - SixBits(c as byte) == d as int - c as int
    ensures 0 <= SixBits(c as byte) ==> Letter(SixBits(c as byte)) == c as byte
  {
  }

  /** What a four says: the bits of its bytes, most significant first, and zeros up to a whole letter; for a single byte
      the high bits of what lies beyond it instead. */
  lemma QuadInWords(s: seq<byte>, beyond: byte)
    requires 1 <= |s| <= 3
    ensures var q := Quad(s, beyond);
      && (|s| == 3 ==> ((SixBits(q[0]) * 64 + SixBits(q[1])) * 64 + SixBits(q[2])) * 64 + SixBits(q[3])
                       == (s[0] as int * 256 + s[1] as int) * 256 + s[2] as int)
      && (|s| == 2 ==> (SixBits(q[0]) * 64 + SixBits(q[1])) * 64 + SixBits(q[2])
                       == (s[0] as int * 256 + s[1] as int) * 4
                       && q[3..] == Ascii("="))
      && (|s| == 1 ==> SixBits(q[0]) * 64 + SixBits(q[1]) == s[0] as int * 16 + beyond as int / 16
                       && q[2..] == Ascii("=="))
  {
    var a: int, b: int, c: int := s[0], if |s| > 1 then s[1] else beyond, if |s| > 2 then s[2] else 0;
    SixBitsOfLetter(a / 4);
    SixBitsOfLetter(a % 4 * 16 + b / 16);
    if |s| == 2 {
      SixBitsOfLetter(b % 16 * 4);
    } else if |s| == 3 {
      SixBitsOfLetter(b % 16 * 4 + c / 64);
      SixBitsOfLetter(c % 64);
    }
  }

  /** How many zeros bring `n` bytes to a multiple of three. */
  function Fill(n: nat): nat {
    (n + 2) / 3 * 3 - n
  }

  lemma EncodeStep(s: seq<byte>, beyond: byte)
    requires s != []
    ensures var n := Min(|s|, 3); var t := Encode(s, beyond);
      && t == Quad(s[..n], beyond) + Encode(s[n..], beyond)
      && t[..4] == Quad(s[..n], beyond) && t[4..] == Encode(s[n..], beyond)
  {
  }

  /** Round trip: the data come back, filled up with zeros to a multiple of three bytes. */
  lemma {:induction false} Base64RoundTrip(s: seq<byte>, beyond: byte)
    ensures Decode(Encode(s, beyond)) == Some(s + Zeros(Fill(|s|)))
    decreases |s|
  {
    if s == [] {
      assert [] + Zeros(0) == [];
    } else {
      var n := Min(|s|, 3);
      Base64RoundTrip(s[n..], beyond);
      EncodeStep(s, beyond);
      TripleOfQuad(s[..n], beyond);
      FillOn(s, n);
      hide Encode, Triple, Quad, Zeros, Fill;
    }
  }

  lemma FillOn(s: seq<byte>, n: nat)
    requires s != [] && n == Min(|s|, 3)
    ensures (s[..n] + Zeros(3 - n)) + (s[n..] + Zeros(Fill(|s[n..]|))) == s + Zeros(Fill(|s|))
  {
    if n < 3 {
      assert s[..n] == s && s[n..] == [];
      assert Fill(|s|) == 3 - n && Fill(0) == 0;
    } else {
      assert s == s[..3] + s[3..];
      assert Fill(|s|) == Fill(|s| - 3);
    }
  }

  /** What lies beyond the data shows in the text only if a single byte is left over and the high bits of what lies
      beyond are not zero. */
  lemma {:induction false} BeyondShows(s: seq<byte>, beyond: byte)
    ensures Encode(s, beyond) == Encode(s, 0) <==> !OneLeftOver(|s|) || beyond < 16
    decreases |s|
  {
    if s != [] {
      var n := Min(|s|, 3);
      BeyondShows(s[n..], beyond);
      EncodeStep(s, beyond);
      EncodeStep(s, 0);
      BeyondInQuad(s[..n], beyond);
      hide Encode, Quad;
      Apart(Quad(s[..n], beyond), Encode(s[n..], beyond), Quad(s[..n], 0), Encode(s[n..], 0));
      LeftOver(|s|, n);
      hide OneLeftOver;
    }
  }

  predicate OneLeftOver(n: nat) {
    n % 3 == 1
  }

  lemma LeftOver(len: nat, n: nat)
    requires len > 0 && n == Min(len, 3)
    ensures OneLeftOver(len) <==> OneLeftOver(len - n) || n == 1
  {
  }

  lemma Apart(a: seq<byte>, b: seq<byte>, a': seq<byte>, b': seq<byte>)
    requires |a| == |a'|
    ensures a + b == a' + b' <==> a == a' && b == b'
  {
    if a + b == a' + b' {
      assert a == (a + b)[..|a|] && b == (a + b)[|a|..];
      assert a' == (a' + b')[..|a|] && b' == (a' + b')[|a|..];
    }
  }

  lemma BeyondInQuad(s: seq<byte>, beyond: byte)
    requires 1 <= |s| <= 3
    ensures Quad(s, beyond) == Quad(s, 0) <==> |s| != 1 || beyond < 16
  {
    if |s| == 1 {
      var a: int := s[0];
      SixBitsOfLetter(a % 4 * 16 + beyond as int / 16);
      SixBitsOfLetter(a % 4 * 16);
      assert Quad(s, beyond)[1] == Letter(a % 4 * 16 + beyond as int / 16) && Quad(s, 0)[1] == Letter(a % 4 * 16);
    }
  }

  /** util_base64_encode: the text and its NUL fit in len * 4 / 3 + 4 bytes. */
  method Base64Encode(data: seq<byte>, beyond: byte) returns (text: seq<byte>)
    ensures text == Encode(data, beyond)
  {
    hide Encode, Quad;
    var out := new byte[|data| * 4 / 3 + 4](_ => 0);
    var at, rest := 0, data;
    assert out[..0] + Encode(data, beyond) == Encode(data, beyond);
    while |rest| > 0
      invariant at + Quads(|rest|) + 1 <= out.Length
      invariant out[..at] + Encode(rest, beyond) == Encode(data, beyond)
      decreases |rest|
    {
      var chunk := if |rest| > 3 then 3 else |rest|;
      ghost var before := out[..at];
      EncodeStep(rest, beyond);
      PutQuad(out, at, Quad(rest[..chunk], beyond));
      assert before + (Quad(rest[..chunk], beyond) + Encode(rest[chunk..], beyond))
        == before + Quad(rest[..chunk], beyond) + Encode(rest[chunk..], beyond);
      at := at + 4;
      rest := rest[chunk..];
    }
    assert Encode(rest, beyond) == [] by {
      EncodeNothing(beyond);
    }
    out[at] := 0;
    text := out[..at];
  }

  /** The number of characters for `n` bytes. */
  function Quads(n: nat): nat {
    (n + 2) / 3 * 4
  }

  lemma EncodeNothing(beyond: byte)
    ensures Encode([], beyond) == []
  {
  }

  method PutQuad(out: array<byte>, at: nat, q: seq<byte>)
    requires |q| == 4 && at + 4 <= out.Length
    modifies out
    ensures out[..at + 4] == old(out[..at]) + q
  {
    out[at], out[at + 1], out[at + 2], out[at + 3] := q[0], q[1], q[2], q[3];
  }

  /** util_base64_decode: the data and a NUL fit in len * 3 / 4 + 5 bytes. */
  method Base64Decode(text: seq<byte>) returns (data: Option<seq<byte>>)
    ensures data == Decode(text)
  {
    hide Triple;
    var out := new byte[|text| * 3 / 4 + 5](_ => 0);
    var at, rest := 0, text;
    assert out[..0] == [];
    BehindNothing(Decode(text));
    while |rest| > 0
      invariant at + |rest| / 4 * 3 + 1 <= out.Length
      invariant Decode(text) == Behind(out[..at], Decode(rest))
      decreases |rest|
    {
      if |rest| < 4 {
        return None;
      }
      var triple := Triple(rest[..4]);
      ghost var before := out[..at];
      BehindOn(before, if triple.Some? then triple.value else [], Decode(rest[4..]));
      if triple.Some? {
        var v := triple.value;
        out[at], out[at + 1], out[at + 2] := v[0], v[1], v[2];
        assert out[..at + 3] == before + v;
        at := at + 3;
      } else {
        assert before + [] == before;
      }
      rest := rest[4..];
    }
    out[at] := 0;
    data := Some(out[..at]);
    assert out[..at] + [] == out[..at];
  }

  // ----- URL escaping (section 2.1 of RFC 3986)

  const PERCENT: byte := 37
  const HASH: byte := 35

  /** hexchars */
  function HexChar(v: int): byte
    requires 0 <= v < 16
  {
    if v < 10 then 48 + v else 97 + (v - 10)
  }

  /** hex */
  function Hex(c: byte): (v: int)
    ensures -1 <= v < 16
  {
    if 48 <= c <= 57 then c as int - 48
    else if 65 <= c <= 70 then c as int - 65 + 10
    else if 97 <= c <= 102 then c as int - 97 + 10
    else -1
  }

  /** safechars: letters and digits */
  predicate Safe(c: byte) {
    48 <= c <= 57 || 65 <= c <= 90 || 97 <= c <= 122
  }

  function EscapeOne(c: byte): (e: seq<byte>)
    ensures |e| <= 3
  {
    if Safe(c) then [c] else [PERCENT, HexChar(c as int / 16), HexChar(c as int % 16)]
  }

  function Escape(s: seq<byte>): (t: seq<byte>)
    ensures |t| <= 3 * |s|
  {
    if s == [] then [] else EscapeOne(s[0]) + Escape(s[1..])
  }

  /** Up to a '#', which ends the text. */
  function Unescape(t: seq<byte>): (r: Option<seq<byte>>)
    ensures r.Some? ==> |r.value| <= |t|
    decreases |t|
  {
    if t == [] || t[0] == HASH then Some([])
    else if t[0] == PERCENT then
      if |t| < 3 || Hex(t[1]) == -1 || Hex(t[2]) == -1 then None
      else
        Behind([Hex(t[1]) * 16 + Hex(t[2])], Unescape(t[3..]))
    else
      Behind([t[0]], Unescape(t[1..]))
  }

  /** Letters and digits stay as they are; any other byte becomes a percent sign and its two digits. */
  lemma EscapedInWords(c: char)
    requires c < 256 as char
    ensures var e := EscapeOne(c as byte);
      if '0' <= c <= '9' || 'A' <= c <= 'Z' || 'a' <= c <= 'z' then e == [c as byte]
      else
        |e| == 3 && e[0] == '%' as byte
        && IsDigit(e[1] as char, c as int / 16) && IsDigit(e[2] as char, c as int % 16)
  {
  }

  /** A digit as it is written. */
  predicate IsDigit(c: char, v: int) {
    if '0' <= c <= '9' then v == c as int - '0' as int else 'a' <= c <= 'f' && v == 10 + c as int - 'a' as int
  }

  /** Both ways to write a digit are read; nothing else is a digit. */
  lemma HexInWords(c: char)
    requires c < 256 as char
    ensures Hex(c as byte) >= 0 <==> '0' <= c <= '9' || 'a' <= c <= 'f' || 'A' <= c <= 'F'
    ensures 'A' <= c <= 'F' ==> Hex(c as byte) == 10 + c as int - 'A' as int
    ensures forall v :: IsDigit(c, v) ==> Hex(c as byte) == v
  {
  }

  lemma HexOfChar(v: int)
    requires 0 <= v < 16
    ensures Hex(HexChar(v)) == v
  {
  }

  /** What the first character of a text does. */
  lemma UnescapedInWords(t: seq<byte>)
    requires t != []
    ensures t[0] == '#' as byte ==> Unescape(t) == Some([])
    ensures t[0] == '%' as byte && !(|t| >= 3 && Hex(t[1]) >= 0 && Hex(t[2]) >= 0) ==> Unescape(t) == None
    ensures t[0] == '%' as byte && |t| >= 3 && Hex(t[1]) >= 0 && Hex(t[2]) >= 0 ==>
      Unescape(t) == Behind([16 * Hex(t[1]) + Hex(t[2])], Unescape(t[3..]))
    ensures t[0] != '#' as byte && t[0] != '%' as byte ==> Unescape(t) == Behind([t[0]], Unescape(t[1..]))
  {
  }

  /** Round trip: unescaping what has been escaped gives it back, and nothing in it is mistaken for an escape or for
      the end. */
  lemma {:induction false} UrlRoundTrip(s: seq<byte>)
    ensures Unescape(Escape(s)) == Some(s)
  {
    if s != [] {
      UrlRoundTrip(s[1..]);
      var e, rest := EscapeOne(s[0]), Escape(s[1..]);
      HexOfChar(s[0] as int / 16);
      HexOfChar(s[0] as int % 16);
      assert (e + rest)[|e|..] == rest;
      assert [s[0]] + s[1..] == s;
    }
  }

  /** util_url_escape: the text and its NUL fit in 3 * len + 1 bytes. */
  method UrlEscape(src: seq<byte>) returns (dst: seq<byte>)
    ensures dst == Escape(src)
  {
    hide Escape;
    var out := new byte[|src| * 3 + 1](_ => 0);
    var i, j := 0, 0;
    assert src[0..] == src && out[..0] + Escape(src) == Escape(src);
    while i < |src|
      invariant i <= |src| && j <= 3 * i && out[..j] + Escape(src[i..]) == Escape(src)
    {
      ghost var before, e := out[..j], EscapeOne(src[i]);
      EscapeStep(src[i..]);
      assert src[i..][1..] == src[i + 1..];
      assert before + (e + Escape(src[i + 1..])) == before + e + Escape(src[i + 1..]);
      if Safe(src[i]) {
        out[j] := src[i];
        j := j + 1;
      } else {
        out[j] := PERCENT;
        out[j + 1] := HexChar(src[i] as int / 16);
        out[j + 2] := HexChar(src[i] as int % 16);
        j := j + 3;
      }
      assert out[..j] == before + e;
      i := i + 1;
    }
    assert Escape(src[i..]) == [];
    out[j] := 0;
    dst := out[..j];
  }

  lemma EscapeStep(s: seq<byte>)
    requires s != []
    ensures Escape(s) == EscapeOne(s[0]) + Escape(s[1..])
  {
  }

  /** util_url_unescape: the text and its NUL fit in len + 1 bytes. */
  method UrlUnescape(src: seq<byte>) returns (decoded: Option<seq<byte>>)
    ensures decoded == Unescape(src)
  {
    var out := new byte[|src| + 1](_ => 0);
    var i, j := 0, 0;
    assert src[0..] == src && out[..0] == [];
    BehindNothing(Unescape(src));
    while i < |src|
      invariant i <= |src| && j <= i
      invariant Unescape(src) == Behind(out[..j], Unescape(src[i..]))
    {
      ghost var before, rest := out[..j], src[i..];
      if src[i] == PERCENT {
        if i + 2 >= |src| || Hex(src[i + 1]) == -1 || Hex(src[i + 2]) == -1 {
          return None;
        }
        out[j] := Hex(src[i + 1]) * 16 + Hex(src[i + 2]);
        assert rest[3..] == src[i + 3..];
        i := i + 3;
      } else if src[i] == HASH {
        decoded := Some(out[..j]);
        assert out[..j] + [] == out[..j];
        return;
      } else {
        out[j] := src[i];
        assert rest[1..] == src[i + 1..];
        i := i + 1;
      }
      BehindOn(before, [out[j]], Unescape(src[i..]));
      j := j + 1;
      assert out[..j] == before + [out[j - 1]];
    }
    out[j] := 0;
    decoded := Some(out[..j]);
    assert out[..j] + [] == out[..j];
  }
}
