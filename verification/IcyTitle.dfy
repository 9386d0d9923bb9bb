/** The metadata block made from artist, title and URL. Strings are their bytes without the terminating NUL. */
module IcyTitle {
  import opened Bytes
  import opened IcyFrame

  // "StreamTitle='", "StreamUrl='", "';" and " - "
  const STREAM_TITLE: seq<byte> := [83, 116, 114, 101, 97, 109, 84, 105, 116, 108, 101, 61, 39]
  const STREAM_URL: seq<byte> := [83, 116, 114, 101, 97, 109, 85, 114, 108, 61, 39]
  const QUOTE_END: seq<byte> := [39, 59]
  const DASH: seq<byte> := [32, 45, 32]
  const MAX_META_LEN: nat := 255 * 16

  /** What a source and its listeners start with. */
  const BLANK: seq<byte> := [1] + STREAM_TITLE + QUOTE_END + [0]

  predicate Occurs(s: seq<byte>, pattern: seq<byte>, k: nat) {
    k + |pattern| <= |s| && s[k..k + |pattern|] == pattern
  }

  /** Where `pattern` first occurs in `s`: strstr. */
  function Find(s: seq<byte>, pattern: seq<byte>, from: nat): (r: Option<nat>)
    ensures r.Some? ==> from <= r.value && r.value + |pattern| <= |s| && s[r.value..r.value + |pattern|] == pattern
    ensures forall k: nat :: from <= k && (r.Some? ==> k < r.value) ==> !Occurs(s, pattern, k)
    decreases |s| - from
  {
    if from + |pattern| > |s| then None
    else if s[from..from + |pattern|] == pattern then Some(from)
    else Find(s, pattern, from + 1)
  }

  /** The comments the title is made from; `inlineUrl` is the metadata text from "StreamUrl='" on. */
  datatype Comments = Comments(artist: Option<seq<byte>>, title: Option<seq<byte>>, url: Option<seq<byte>>,
                               inlineUrl: Option<seq<byte>>)

  predicate Sane(c: Comments) {
    c.inlineUrl.Some? ==> STREAM_URL <= c.inlineUrl.value
  }

  function Song(c: Comments): seq<byte> {
    if c.title.None? then []
    else if c.artist.Some? then c.artist.value + DASH + c.title.value
    else c.title.value
  }

  function TitleText(c: Comments): seq<byte> {
    STREAM_TITLE + Song(c) + QUOTE_END
  }

  function Length(s: Option<seq<byte>>): nat {
    if s.Some? then |s.value| else 0
  }

  /** The URL part that is counted on: an inline URL up to its end. */
  function UrlDue(c: Comments): nat {
    if c.inlineUrl.Some? then
      var end := Find(c.inlineUrl.value, QUOTE_END, 0); if end.Some? then end.value + 2 else 0
    else if c.url.Some? then |STREAM_URL| + |c.url.value| + |QUOTE_END|
    else 0
  }

  /** The message length as it is worked out beforehand, with the NUL. */
  function MessageLen(c: Comments): nat {
    16 + Length(c.artist) + Length(c.title) + (if c.artist.Some? && c.title.Some? then 3 else 0) + UrlDue(c)
  }

  /** The URL part, if it is written. The text of an inline URL goes on after its own end. */
  function UrlText(c: Comments, room: int): seq<byte>
    requires Sane(c)
  {
    if c.inlineUrl.Some? then
      var end := Find(c.inlineUrl.value, QUOTE_END, 0);
      if end.Some? && room > end.value + 2 then STREAM_URL + c.inlineUrl.value[11..] + QUOTE_END else []
    else if c.url.Some? then STREAM_URL + c.url.value + QUOTE_END
    else []
  }

  /** Into a buffer of `room` zero bytes: as much of the text as leaves a NUL behind it. */
  function Printed(text: seq<byte>, room: nat): (r: seq<byte>)
    requires room > 0
    ensures |r| == room
  {
    var n := Min(|text|, room - 1);
    text[..n] + Zeros(room - n)
  }

  /** The length byte. */
  function LenByte(c: Comments): nat {
    (MessageLen(c) - 1) / 16 + 1
  }

  function Room(c: Comments): int {
    16 * LenByte(c) - |TitleText(c)|
  }

  /** The block mp3_set_title makes; None if the message would be too long. */
  function TitleBlock(c: Comments): (r: Option<seq<byte>>)
    requires Sane(c)
  {
    if MessageLen(c) > MAX_META_LEN then None
    else
      TextFits(c);
      Some([LenByte(c)] + TitleText(c) + Printed(UrlText(c, Room(c)), Room(c)))
  }

  lemma TextFits(c: Comments)
    ensures 0 < Room(c) && MessageLen(c) <= 16 * LenByte(c) < MessageLen(c) + 16
    ensures 16 <= MessageLen(c) <= MAX_META_LEN ==> 1 <= LenByte(c) <= 255
    ensures STREAM_TITLE <= TitleText(c)
  {
    assert TitleText(c)[..13] == STREAM_TITLE;
  }

  /** A block made of its length byte, a text and a printed rest. */
  lemma Assembled(n: byte, text: seq<byte>, url: seq<byte>, room: nat)
    requires room > 0 && |text| + room == 16 * n
    ensures var b := [n] + text + Printed(url, room);
      Framed(b) && b[|b| - 1] == 0 && b[1..] == text + Printed(url, room)
  {
  }

  lemma PrintedWhole(url: seq<byte>, room: nat)
    requires |url| < room
    ensures Printed(url, room) == url + Zeros(room - |url|)
  {
    assert url[..|url|] == url;
  }

  lemma PrintedPrefix(a: seq<byte>, url: seq<byte>, room: nat)
    requires a <= url && |a| < room
    ensures a <= Printed(url, room)
  {
    assert a == url[..Min(|url|, room - 1)][..|a|];
  }

  /** A block is as long as its first byte says, begins like a title, ends with NUL and holds the whole song. Without
      an inline URL the rest is the whole URL, and no more padding than needed... */
  lemma TitleBlockHolds(c: Comments)
    requires Sane(c) && MessageLen(c) <= MAX_META_LEN
    ensures var b := TitleBlock(c).value;
      && Framed(b) && 17 <= |b| <= 4081 && b[|b| - 1] == 0
      && TitleText(c) <= b[1..] && STREAM_TITLE <= b[1..]
    ensures c.inlineUrl.None? && c.title.Some? ==>
      exists k :: 1 <= k <= 16 && TitleBlock(c).value[1..] == TitleText(c) + UrlText(c, 0) + Zeros(k)
  {
    TextFits(c);
    Assembled(LenByte(c), TitleText(c), UrlText(c, Room(c)), Room(c));
    if c.inlineUrl.None? && c.title.Some? {
      PlainUrlFits(c);
      hide TitleText, UrlText, MessageLen, Printed, TitleBlock;
      PrintedWhole(UrlText(c, 0), Room(c));
      Regroup(TitleText(c), UrlText(c, 0), Zeros(Room(c) - |UrlText(c, 0)|));
    }
  }

  lemma PlainUrlFits(c: Comments)
    requires Sane(c) && c.inlineUrl.None? && c.title.Some?
    ensures UrlText(c, Room(c)) == UrlText(c, 0) && 1 <= Room(c) - |UrlText(c, 0)| <= 16
  {
  }

  /** The block in words. */
  lemma BlockInWords(c: Comments)
    requires Sane(c) && TitleBlock(c).Some?
    ensures var b := TitleBlock(c).value; b != [] && |b| == 1 + 16 * (b[0] as int)
    ensures var text := TitleBlock(c).value[1..];
      && (c.title.None? ==> Ascii("StreamTitle='';") <= text)
      && (c.title.Some? && c.artist.None? ==> Ascii("StreamTitle='") + c.title.value + Ascii("';") <= text)
      && (c.title.Some? && c.artist.Some? ==>
            Ascii("StreamTitle='") + c.artist.value + Ascii(" - ") + c.title.value + Ascii("';") <= text)
    ensures c.title.Some? && c.inlineUrl.None? && c.url.Some? ==> exists k ::
      1 <= k <= 16 && TitleBlock(c).value[1..] ==
                        TitleText(c) + (Ascii("StreamUrl='") + c.url.value + Ascii("';")) + Zeros(k)
    ensures c.title.Some? && c.inlineUrl.None? && c.url.None? ==>
      exists k :: 1 <= k <= 16 && TitleBlock(c).value[1..] == TitleText(c) + Zeros(k)
  {
    Spelling();
    TitleBlockHolds(c);
    TitleInWords(c);
    hide TitleText, TitleBlock, MessageLen, Printed;
    assert TitleText(c) + [] == TitleText(c);
  }

  lemma Spelling()
    ensures STREAM_TITLE == Ascii("StreamTitle='") && STREAM_URL == Ascii("StreamUrl='")
    ensures QUOTE_END == Ascii("';") && DASH == Ascii(" - ")
  {
  }

  lemma TitleInWords(c: Comments)
    ensures c.title.None? ==> TitleText(c) == Ascii("StreamTitle='';")
    ensures c.title.Some? && c.artist.None? ==> TitleText(c) == Ascii("StreamTitle='") + c.title.value + Ascii("';")
    ensures c.title.Some? && c.artist.Some? ==>
      TitleText(c) == Ascii("StreamTitle='") + c.artist.value + Ascii(" - ") + c.title.value + Ascii("';")
  {
    Spelling();
    if c.title.None? {
      assert STREAM_TITLE + [] + QUOTE_END == Ascii("StreamTitle='';");
    } else if c.artist.Some? {
      var artist, title := c.artist.value, c.title.value;
      assert STREAM_TITLE + (artist + DASH + title) == STREAM_TITLE + artist + DASH + title;
    }
  }

  /** The length is that of the texts and a NUL, and the block is the shortest that holds them; an artist without a
      title is counted too, but not printed. A title is refused exactly if the texts do not fit the longest block. */
  lemma ShortestBlock(c: Comments)
    requires Sane(c)
    ensures MessageLen(c) == |TitleText(c)| + UrlDue(c) + 1 + (if c.title.None? then Length(c.artist) else 0)
    ensures TitleBlock(c).None? <==> MessageLen(c) > 16 * 255
    ensures TitleBlock(c).Some? ==>
      16 * (TitleBlock(c).value[0] as int - 1) < MessageLen(c) <= 16 * (TitleBlock(c).value[0] as int)
  {
    TextFits(c);
  }

  /** ...and with one the URL is there up to its end. */
  lemma InlineUrlKept(c: Comments)
    requires Sane(c) && MessageLen(c) <= MAX_META_LEN && c.inlineUrl.Some?
    requires Find(c.inlineUrl.value, QUOTE_END, 0).Some?
    ensures var s := c.inlineUrl.value;
      TitleText(c) + s[..Find(s, QUOTE_END, 0).value + 2] <= TitleBlock(c).value[1..]
  {
    var s, end := c.inlineUrl.value, Find(c.inlineUrl.value, QUOTE_END, 0).value;
    TextFits(c);
    Assembled(LenByte(c), TitleText(c), UrlText(c, Room(c)), Room(c));
    InlineUrlFits(c, s, end);
    hide TitleText, UrlText, MessageLen, Printed, TitleBlock;
    PrintedPrefix(s[..end + 2], UrlText(c, Room(c)), Room(c));
    PrefixBehind(TitleText(c), s[..end + 2], Printed(UrlText(c, Room(c)), Room(c)));
  }

  lemma PrefixBehind(a: seq<byte>, b: seq<byte>, c: seq<byte>)
    requires b <= c
    ensures a + b <= a + c
  {
  }

  lemma InlineUrlFits(c: Comments, s: seq<byte>, end: nat)
    requires Sane(c) && c.inlineUrl == Some(s) && Find(s, QUOTE_END, 0) == Some(end)
    ensures end + 2 <= |s| && s[..end + 2] <= UrlText(c, Room(c)) && end + 2 < Room(c)
  {
    assert STREAM_URL + s[11..] == s;
    assert Room(c) > end + 2;
    assert UrlText(c, Room(c)) == s + QUOTE_END;
    PrefixBehind(s[..end + 2], s[end + 2..], s[end + 2..] + QUOTE_END);
  }

  /** The block holds the title, the URL up to its end and nothing else. */
  ghost predicate EndsWithUrl(c: Comments, end: nat)
    requires Sane(c) && MessageLen(c) <= MAX_META_LEN && c.inlineUrl.Some? && end + 2 <= |c.inlineUrl.value|
  {
    exists k :: TitleBlock(c).value[1..] == TitleText(c) + c.inlineUrl.value[..end + 2] + Zeros(k)
  }

  /** The text of an inline URL is printed on beyond its end, and closed once more, unless the length that was worked
      out leaves no room for that: exactly if it is a multiple of sixteen and counts no artist that is not printed. */
  lemma InlineUrlOverrun(c: Comments, end: nat)
    requires Sane(c) && MessageLen(c) <= MAX_META_LEN && c.inlineUrl.Some?
    requires Find(c.inlineUrl.value, QUOTE_END, 0) == Some(end) && 0 !in c.inlineUrl.value
    ensures end + 2 <= |c.inlineUrl.value|
    ensures EndsWithUrl(c, end) <==> MessageLen(c) % 16 == 0 && (c.title.Some? || Length(c.artist) == 0)
  {
    hide TitleText, UrlText, MessageLen, TitleBlock, Printed, Sane, Room;
    var s := c.inlineUrl.value;
    BlockIs(c);
    InlineUrlFits(c, s, end);
    InlineUrlWhole(c, s, end);
    RoomExact(c, end);
    PrintedExactly(TitleText(c), s, end + 2, Room(c));
  }

  lemma BlockIs(c: Comments)
    requires Sane(c) && MessageLen(c) <= MAX_META_LEN
    ensures TitleBlock(c).Some? && |TitleBlock(c).value| > 0
    ensures TitleBlock(c).value[1..] == TitleText(c) + Printed(UrlText(c, Room(c)), Room(c))
  {
    TextFits(c);
    Assembled(LenByte(c), TitleText(c), UrlText(c, Room(c)), Room(c));
  }

  lemma RoomExact(c: Comments, end: nat)
    requires Sane(c) && MessageLen(c) <= MAX_META_LEN && c.inlineUrl.Some?
    requires Find(c.inlineUrl.value, QUOTE_END, 0) == Some(end)
    ensures Room(c) == end + 3 <==> MessageLen(c) % 16 == 0 && (c.title.Some? || Length(c.artist) == 0)
  {
    hide Find, UrlText, Printed;
    ShortestBlock(c);
  }

  lemma InlineUrlWhole(c: Comments, s: seq<byte>, end: nat)
    requires Sane(c) && c.inlineUrl == Some(s) && Find(s, QUOTE_END, 0) == Some(end)
    ensures UrlText(c, Room(c)) == s + QUOTE_END
  {
    InlineUrlFits(c, s, end);
    assert STREAM_URL + s[11..] == s;
  }

  lemma PrintedExactly(title: seq<byte>, s: seq<byte>, e: nat, room: nat)
    requires e <= |s| && e < room && 0 !in s
    ensures (exists k :: title + Printed(s + QUOTE_END, room) == title + s[..e] + Zeros(k)) <==> room == e + 1
  {
    var u := s + QUOTE_END;
    var b := title + Printed(u, room);
    if room == e + 1 {
      assert u[..e] == s[..e];
      assert b == title + s[..e] + Zeros(1);
    } else {
      var at := |title| + e;
      assert b[at] == u[e] != 0;
      forall k
        ensures b != title + s[..e] + Zeros(k)
      {
        if |title + s[..e] + Zeros(k)| == |b| {
          assert (title + s[..e] + Zeros(k))[at] == 0;
        }
      }
    }
  }

  lemma {:induction false} FindFirst(s: seq<byte>, pattern: seq<byte>, from: nat, at: nat)
    requires from <= at && Occurs(s, pattern, at) && forall k :: from <= k < at ==> !Occurs(s, pattern, k)
    ensures Find(s, pattern, from) == Some(at)
    decreases at - from
  {
    if from < at {
      assert !Occurs(s, pattern, from);
      FindFirst(s, pattern, from + 1, at);
    }
  }

  lemma NotThere(s: seq<byte>, pattern: seq<byte>, k: nat)
    requires |pattern| == 2 && k + 1 < |s| && s[k + 1] != pattern[1]
    ensures !Occurs(s, pattern, k)
  {
    assert k + 2 <= |s| ==> s[k..k + 2][1] == s[k + 1];
  }

  lemma EmptyUrlEnd()
    ensures Find(STREAM_URL + QUOTE_END, QUOTE_END, 0) == Some(11)
  {
    var url := STREAM_URL + QUOTE_END;
    forall k: nat | k < 11
      ensures !Occurs(url, QUOTE_END, k)
    {
      NotThere(url, QUOTE_END, k);
    }
    FindFirst(url, QUOTE_END, 0, 11);
  }

  /** An example: title "A" and the URL text "StreamUrl='';" give a block with "StreamUrl='';';". */
  lemma UrlPrintedTwice()
    ensures var url := STREAM_URL + QUOTE_END; var c := Comments(None, Some([65]), None, Some(url));
      Sane(c) && MessageLen(c) == 30
      && TitleBlock(c) == Some([2] + TitleText(c) + (url + QUOTE_END + [0]))
  {
    var url := STREAM_URL + QUOTE_END;
    var c := Comments(None, Some([65]), None, Some(url));
    EmptyUrlEnd();
    hide Find;
    TextFits(c);
    assert |TitleText(c)| == 16 && Room(c) == 16;
    InlineUrlWhole(c, url, 11);
    PrintedWhole(url + QUOTE_END, 16);
    assert Zeros(1) == [0];
  }

  // ----- the same in a buffer

  /** snprintf into a zeroed buffer from `at` on: the text, cut so that a NUL stays behind it. */
  method Print(p: array<byte>, at: nat, text: seq<byte>)
    requires at < p.Length && forall i :: at <= i < p.Length ==> p[i] == 0
    modifies p
    ensures p[..] == old(p[..at]) + Printed(text, p.Length - at)
  {
    var n := Min(|text|, p.Length - at - 1);
    forall i | 0 <= i < n {
      p[at + i] := text[i];
    }
  }

  /** The length as the code adds it up. */
  method WorkOutLength(c: Comments) returns (len: nat)
    ensures len == MessageLen(c)
  {
    len := 16;
    if c.artist.Some? {
      len := len + |c.artist.value|;
    }
    if c.title.Some? {
      len := len + |c.title.value|;
    }
    if c.artist.Some? && c.title.Some? {
      len := len + 3;
    }
    if c.inlineUrl.Some? {
      var end := Find(c.inlineUrl.value, QUOTE_END, 0);
      if end.Some? {
        len := len + end.value + 2;
      }
    } else if c.url.Some? {
      len := len + |c.url.value| + 13;
    }
  }

  /** The part of mp3_set_title that makes the block. */
  method MakeTitle(c: Comments) returns (block: Option<seq<byte>>)
    requires Sane(c)
    ensures block == TitleBlock(c)
    ensures block.Some? ==> Framed(block.value) && 17 <= |block.value| <= 4081 && STREAM_TITLE <= block.value[1..]
  {
    var len := WorkOutLength(c);
    if len > MAX_META_LEN {
      return None;
    }
    TitleBlockHolds(c);
    TextFits(c);
    var p := Fill((len - 1) / 16 + 1, TitleText(c), UrlText(c, Room(c)));
    block := Some(p);
  }

  /** The title and the URL are printed into a zeroed block behind its length byte. */
  method Fill(lenByte: byte, text: seq<byte>, url: seq<byte>) returns (block: seq<byte>)
    requires |text| < 16 * lenByte
    ensures block == [lenByte] + text + Printed(url, 16 * lenByte - |text|)
  {
    var size := lenByte * 16 + 1;
    var p := new byte[size](_ => 0);
    ghost var start := [lenByte] + text;
    Print(p, 0, [lenByte] + text);
    PrintedWhole(start, size);
    assert p[..] == start + Zeros(size - |start|);
    forall i | 1 + |text| <= i < p.Length
      ensures p[i] == 0
    {
      assert p[i] == p[..][i];
    }
    assert p[..1 + |text|] == start;
    Print(p, 1 + |text|, url);
    block := p[..];
  }
}
