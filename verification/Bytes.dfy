/** Bytes, big-endian numbers and a few facts about sequences shared by the other modules. */
module Bytes {

  type byte = b: int | 0 <= b < 256

  const TWO_64: nat := 0x1_0000_0000_0000_0000

  datatype Option<+T> = None | Some(value: T)

  /** A text of ASCII characters as bytes. */
  function Ascii(text: string): (s: seq<byte>)
    ensures |s| == |text|
  {
    seq(|text|, i requires 0 <= i < |text| => (text[i] as int) % 256)
  }

  function Min(a: nat, b: nat): nat {
    if a <= b then a else b
  }

  /** The number got by shifting the bytes of `s` into `acc`, most significant byte first. */
  function BigEndian(acc: nat, s: seq<byte>): nat {
    if s == [] then acc else BigEndian(acc, s[..|s| - 1]) * 256 + s[|s| - 1]
  }

  /** The `n` low-order bytes of `v`, most significant first. */
  function ToBigEndian(v: nat, n: nat): (s: seq<byte>)
    ensures |s| == n
  {
    if n == 0 then [] else ToBigEndian(v / 256, n - 1) + [v % 256]
  }

  /** `first` followed by `k` base-256 digits: the least number above all of those with a smaller first digit. */
  function Limit(first: nat, k: nat): nat {
    if k == 0 then first else 256 * Limit(first, k - 1)
  }

  lemma {:induction false} BigEndianBelow(acc: nat, first: nat, s: seq<byte>)
    ensures acc < first ==> BigEndian(acc, s) < Limit(first, |s|)
    ensures acc >= first ==> BigEndian(acc, s) >= Limit(first, |s|)
  {
    if s != [] {
      BigEndianBelow(acc, first, s[..|s| - 1]);
    }
  }

  lemma {:induction false} BigEndianHead(acc: byte, s: seq<byte>)
    ensures BigEndian(0, [acc] + s) == BigEndian(acc, s)
  {
    if s != [] {
      BigEndianHead(acc, s[..|s| - 1]);
      assert ([acc] + s)[..|s|] == [acc] + s[..|s| - 1];
    } else {
      assert [acc] + s == [acc] && [acc][..0] == [];
    }
  }

  lemma {:induction false} BigEndianOfEncoding(v: nat, n: nat)
    requires v < Limit(1, n)
    ensures BigEndian(0, ToBigEndian(v, n)) == v
  {
    if n > 0 {
      BigEndianOfEncoding(v / 256, n - 1);
      assert ToBigEndian(v, n)[..n - 1] == ToBigEndian(v / 256, n - 1);
    }
  }

  lemma {:induction false} EncodingOfBigEndian(s: seq<byte>)
    ensures ToBigEndian(BigEndian(0, s), |s|) == s
  {
    if s != [] {
      EncodingOfBigEndian(s[..|s| - 1]);
      assert s == s[..|s| - 1] + [s[|s| - 1]];
    }
  }

  function Zeros(n: nat): seq<byte> {
    seq(n, _ => 0)
  }

  lemma Regroup(a: seq<byte>, b: seq<byte>, c: seq<byte>)
    ensures (a + b) + c == a + (b + c)
  {
  }

  /** memmove of `n` bytes down over the `gap` bytes before them. */
  method ShiftDown(data: array<byte>, at: nat, gap: nat, n: nat)
    requires at + gap + n <= data.Length
    modifies data
    ensures data[..at] == old(data[..at]) && data[at..at + n] == old(data[at + gap..at + gap + n])
  {
    forall i | 0 <= i < n {
      data[at + i] := data[at + gap + i];
    }
  }
}
