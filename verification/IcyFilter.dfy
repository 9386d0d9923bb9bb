/** The source side: blocks of 1400 bytes are collected from the connection and stripped of their metadata in place. */
module IcyFilter {
  import opened Bytes
  import opened IcyFrame
  import opened IcyTitle

  const REFBUF_SIZE: nat := 1400

  // ----- what is done with a metadata block

  /** "StreamTitle=", and "StreamUrl='" as the filter looks for it. */
  const TITLE_TAG: seq<byte> := [83, 116, 114, 101, 97, 109, 84, 105, 116, 108, 101, 61]

  /** A C string: the bytes up to the first NUL. */
  function Text(s: seq<byte>): (t: seq<byte>)
    ensures t <= s && 0 !in t && (|t| < |s| ==> s[|t|] == 0)
  {
    if s == [] || s[0] == 0 then [] else [s[0]] + Text(s[1..])
  }

  lemma {:induction false} TextIs(t: seq<byte>)
    requires 0 !in t
    ensures Text(t + [0]) == t
  {
    if t != [] {
      TextIs(t[1..]);
      assert (t + [0])[1..] == t[1..] + [0];
    }
  }

  /** The text from "StreamUrl='" on, if it has one: strstr. */
  function InlineUrl(text: seq<byte>): (url: Option<seq<byte>>)
    ensures url.Some? ==> STREAM_URL <= url.value
    ensures url.Some? <==> exists k :: Occurs(text, Ascii("StreamUrl='"), k)
    ensures forall k: nat :: Occurs(text, Ascii("StreamUrl='"), k) ==> |text[k..]| <= |url.value|
    ensures url.Some? ==> exists k: nat :: k <= |text| && url.value == text[k..]
  {
    Spelling();
    var at := Find(text, STREAM_URL, 0);
    if at.Some? then
      assert Occurs(text, STREAM_URL, at.value);
      Some(text[at.value..])
    else None
  }

  /** The metadata to go with the audio, and whether the stream may go on. */
  datatype Title = Title(metadata: seq<byte>, ok: bool)

  /** A block as it is kept: its last byte is forced to be NUL. */
  function Terminated(block: seq<byte>): seq<byte>
    requires block != []
  {
    block[..|block| - 1] + [0]
  }

  /** A metadata block is complete: no text and old text are ignored, and anything but a title ends the stream. */
  function Announce(t: Title, block: seq<byte>): Title
    requires block != []
  {
    if !t.ok || |block| == 1 || |t.metadata| < 1 then t
    else if Text(Terminated(block)[1..]) == Text(t.metadata[1..]) then t
    else if TITLE_TAG <= Terminated(block)[1..] then t.(metadata := Terminated(block))
    else t.(ok := false)
  }

  function Hear(t: Title, blocks: seq<seq<byte>>): Title
    requires forall i :: 0 <= i < |blocks| ==> blocks[i] != []
  {
    if blocks == [] then t else Announce(Hear(t, blocks[..|blocks| - 1]), blocks[|blocks| - 1])
  }

  lemma {:induction false} HearOn(t: Title, a: seq<seq<byte>>, b: seq<seq<byte>>)
    requires forall i :: 0 <= i < |a| ==> a[i] != []
    requires forall i :: 0 <= i < |b| ==> b[i] != []
    ensures Hear(t, a + b) == Hear(Hear(t, a), b)
  {
    if b == [] {
      assert a + b == a;
    } else {
      assert (a + b)[..|a + b| - 1] == a + b[..|b| - 1];
      HearOn(t, a, b[..|b| - 1]);
    }
  }

  /** Metadata is always a complete block that starts like a title. */
  predicate Kept(metadata: seq<byte>) {
    Framed(metadata) && |metadata| >= 17 && metadata[0] > 0 && TITLE_TAG <= metadata[1..]
  }

  lemma AnnounceKept(t: Title, block: seq<byte>)
    requires Kept(t.metadata) && Framed(block)
    ensures Kept(Announce(t, block).metadata)
  {
  }

  // ----- the same, independently of how it is come to

  function TextOf(block: seq<byte>): seq<byte>
    requires block != []
  {
    Text(Terminated(block)[1..])
  }

  ghost predicate AllFramed(blocks: seq<seq<byte>>) {
    forall i :: 0 <= i < |blocks| ==> Framed(blocks[i])
  }

  /** Block `j` is the last one before block `k` that is not empty. */
  ghost predicate Before(blocks: seq<seq<byte>>, j: nat, k: nat)
    requires k <= |blocks|
  {
    j < k && |blocks[j]| > 1 && forall i :: j < i < k ==> |blocks[i]| <= 1
  }

  ghost predicate NoneBefore(blocks: seq<seq<byte>>, k: nat)
    requires k <= |blocks|
  {
    forall i :: 0 <= i < k ==> |blocks[i]| <= 1
  }

  /** Before block `k` the last text to come was `text`; it was `first` before all of them. */
  ghost predicate TextBefore(first: seq<byte>, blocks: seq<seq<byte>>, k: nat, text: seq<byte>)
    requires AllFramed(blocks) && k <= |blocks|
  {
    (NoneBefore(blocks, k) ==> text == first) && forall j: nat :: Before(blocks, j, k) ==> text == TextOf(blocks[j])
  }

  /** Block `k` is not empty and brings another text. */
  ghost predicate Novel(first: seq<byte>, blocks: seq<seq<byte>>, k: nat)
    requires AllFramed(blocks)
  {
    k < |blocks| && |blocks[k]| > 1 && !TextBefore(first, blocks, k, TextOf(blocks[k]))
  }

  ghost predicate AllTitles(first: seq<byte>, blocks: seq<seq<byte>>)
    requires AllFramed(blocks)
  {
    forall k: nat :: Novel(first, blocks, k) ==> Ascii("StreamTitle=") <= blocks[k][1..]
  }

  /** The metadata in force after these blocks: that of the last of them that brought another text, or what it was. */
  ghost predicate IsInForce(metadata: seq<byte>, blocks: seq<seq<byte>>, now: seq<byte>)
    requires AllFramed(blocks) && metadata != []
  {
    var first := Text(metadata[1..]);
    && ((forall k: nat :: !Novel(first, blocks, k)) ==> now == metadata)
    && forall k: nat :: Novel(first, blocks, k) && (forall i: nat :: k < i ==> !Novel(first, blocks, i)) ==>
         now == blocks[k][..|blocks[k]| - 1] + [0]
  }

  lemma TextBeforeSome(blocks: seq<seq<byte>>, k: nat) returns (j: nat)
    requires k <= |blocks|
    ensures NoneBefore(blocks, k) || Before(blocks, j, k)
  {
    j := 0;
    var i := 0;
    while i < k
      invariant i <= k && (NoneBefore(blocks, i) || Before(blocks, j, i))
    {
      if |blocks[i]| > 1 {
        j := i;
      }
      i := i + 1;
    }
  }

  /** There is exactly one such text. */
  lemma OneText(first: seq<byte>, blocks: seq<seq<byte>>, k: nat, text: seq<byte>, text': seq<byte>)
    requires AllFramed(blocks) && k <= |blocks|
    requires TextBefore(first, blocks, k, text) && TextBefore(first, blocks, k, text')
    ensures text == text'
  {
    var j := TextBeforeSome(blocks, k);
    assert NoneBefore(blocks, k) || Before(blocks, j, k);
  }

  lemma BeforeSame(blocks: seq<seq<byte>>, b: seq<byte>, k: nat)
    requires k <= |blocks|
    ensures NoneBefore(blocks + [b], k) <==> NoneBefore(blocks, k)
    ensures forall j: nat :: Before(blocks + [b], j, k) <==> Before(blocks, j, k)
  {
    var all := blocks + [b];
    assert forall i :: 0 <= i < k ==> all[i] == blocks[i];
  }

  lemma TextSame(first: seq<byte>, blocks: seq<seq<byte>>, b: seq<byte>, k: nat, text: seq<byte>)
    requires AllFramed(blocks) && Framed(b) && k <= |blocks|
    ensures AllFramed(blocks + [b])
    ensures TextBefore(first, blocks + [b], k, text) <==> TextBefore(first, blocks, k, text)
  {
    hide Before, NoneBefore, TextOf;
    var all := blocks + [b];
    BeforeSame(blocks, b, k);
    forall j: nat | Before(blocks, j, k)
      ensures j < k && all[j] == blocks[j]
    {
      Earlier(blocks, j, k);
    }
  }

  lemma Earlier(blocks: seq<seq<byte>>, j: nat, k: nat)
    requires k <= |blocks| && Before(blocks, j, k)
    ensures j < k
  {
  }

  lemma NovelSame(first: seq<byte>, blocks: seq<seq<byte>>, b: seq<byte>, k: nat)
    requires AllFramed(blocks) && Framed(b) && k < |blocks|
    ensures AllFramed(blocks + [b]) && (Novel(first, blocks + [b], k) <==> Novel(first, blocks, k))
  {
    hide TextBefore;
    TextSame(first, blocks, b, k, TextOf(blocks[k]));
  }

  lemma TextNext(first: seq<byte>, blocks: seq<seq<byte>>, b: seq<byte>, text: seq<byte>)
    requires AllFramed(blocks) && Framed(b) && TextBefore(first, blocks, |blocks|, text)
    ensures AllFramed(blocks + [b])
    ensures TextBefore(first, blocks + [b], |blocks| + 1, if |b| > 1 then TextOf(b) else text)
    ensures Novel(first, blocks + [b], |blocks|) <==> |b| > 1 && TextOf(b) != text
  {
    hide Text, Terminated;
    var n, all := |blocks|, blocks + [b];
    TextSame(first, blocks, b, n, text);
    if |b| > 1 {
      if TextBefore(first, all, n, TextOf(b)) {
        OneText(first, all, n, text, TextOf(b));
      }
      assert Before(all, n, n + 1);
    } else {
      forall j | Before(all, j, n + 1)
        ensures Before(all, j, n)
      {
      }
    }
  }

  /** Which metadata is in force after any blocks, and when the stream ends: at the first block that brings another text
      and is not a title. */
  lemma {:induction false} InForce(metadata: seq<byte>, blocks: seq<seq<byte>>)
    requires Kept(metadata) && AllFramed(blocks)
    ensures var t := Hear(Title(metadata, true), blocks);
      && (t.ok <==> AllTitles(Text(metadata[1..]), blocks))
      && (t.ok ==> Kept(t.metadata) && IsInForce(metadata, blocks, t.metadata)
                   && TextBefore(Text(metadata[1..]), blocks, |blocks|, Text(t.metadata[1..])))
  {
    if blocks != [] {
      var before, b := blocks[..|blocks| - 1], blocks[|blocks| - 1];
      assert blocks == before + [b];
      InForce(metadata, before);
      InForceNext(metadata, before, b, Hear(Title(metadata, true), before));
    }
  }

  lemma TagLiteral(block: seq<byte>)
    requires Framed(block) && |block| > 1
    ensures TITLE_TAG <= Terminated(block)[1..] <==> Ascii("StreamTitle=") <= block[1..]
  {
    assert TITLE_TAG == Ascii("StreamTitle=");
    assert |block| >= 17;
    assert Terminated(block)[1..][..12] == block[1..][..12];
  }

  lemma AnnounceIs(t: Title, b: seq<byte>)
    requires t.ok && Kept(t.metadata) && Framed(b)
    ensures Announce(t, b) ==
      if |b| <= 1 || TextOf(b) == Text(t.metadata[1..]) then t
      else if Ascii("StreamTitle=") <= b[1..] then Title(b[..|b| - 1] + [0], true)
      else t.(ok := false)
    ensures Kept(Announce(t, b).metadata)
    ensures |b| > 1 && Ascii("StreamTitle=") <= b[1..] ==> Text((b[..|b| - 1] + [0])[1..]) == TextOf(b)
  {
    AnnounceKept(t, b);
    if |b| > 1 {
      TagLiteral(b);
    }
  }

  lemma AnnounceStops(t: Title, b: seq<byte>)
    requires !t.ok && b != []
    ensures !Announce(t, b).ok
  {
  }

  /** One more block: all are titles still if it is one or brings no other text. */
  lemma TitlesNext(first: seq<byte>, blocks: seq<seq<byte>>, b: seq<byte>)
    requires AllFramed(blocks) && Framed(b)
    ensures AllFramed(blocks + [b])
    ensures AllTitles(first, blocks + [b]) <==>
      AllTitles(first, blocks) && (Novel(first, blocks + [b], |blocks|) ==> Ascii("StreamTitle=") <= b[1..])
  {
    var n, all := |blocks|, blocks + [b];
    forall k: nat | k < n
      ensures Novel(first, all, k) <==> Novel(first, blocks, k)
    {
      NovelSame(first, blocks, b, k);
    }
    hide TextBefore, TextOf;
    if !AllTitles(first, blocks) {
      var k: nat :| Novel(first, blocks, k) && !(Ascii("StreamTitle=") <= blocks[k][1..]);
      assert Novel(first, all, k) && all[k] == blocks[k];
    }
  }

  /** If it brings another text its metadata is in force, otherwise what was. */
  lemma ForceNext(metadata: seq<byte>, blocks: seq<seq<byte>>, b: seq<byte>, now: seq<byte>)
    requires AllFramed(blocks) && Framed(b) && metadata != [] && IsInForce(metadata, blocks, now)
    ensures AllFramed(blocks + [b])
    ensures IsInForce(metadata, blocks + [b],
                      if Novel(Text(metadata[1..]), blocks + [b], |blocks|) then b[..|b| - 1] + [0] else now)
  {
    var n, all, first := |blocks|, blocks + [b], Text(metadata[1..]);
    forall k: nat | k < n
      ensures Novel(first, all, k) <==> Novel(first, blocks, k)
    {
      NovelSame(first, blocks, b, k);
    }
    hide TextBefore, TextOf, Text, Framed;
    forall k: nat | k >= |all|
      ensures !Novel(first, all, k) && !Novel(first, blocks, k)
    {
    }
    if !Novel(first, all, n) {
      assert forall k: nat :: Novel(first, all, k) <==> Novel(first, blocks, k);
      assert forall k: nat :: Novel(first, all, k) ==> all[k] == blocks[k];
    }
  }

  lemma InForceNext(metadata: seq<byte>, blocks: seq<seq<byte>>, b: seq<byte>, t: Title)
    requires Kept(metadata) && AllFramed(blocks) && Framed(b)
    requires t.ok <==> AllTitles(Text(metadata[1..]), blocks)
    requires t.ok ==> Kept(t.metadata) && IsInForce(metadata, blocks, t.metadata)
                      && TextBefore(Text(metadata[1..]), blocks, |blocks|, Text(t.metadata[1..]))
    ensures var all := blocks + [b]; var t' := Announce(t, b);
      && AllFramed(all) && (t'.ok <==> AllTitles(Text(metadata[1..]), all))
      && (t'.ok ==> Kept(t'.metadata) && IsInForce(metadata, all, t'.metadata)
                    && TextBefore(Text(metadata[1..]), all, |all|, Text(t'.metadata[1..])))
  {
    hide TextBefore, Text, TextOf, Terminated, Announce, Novel, AllTitles, IsInForce;
    var first := Text(metadata[1..]);
    TitlesNext(first, blocks, b);
    if t.ok {
      TextNext(first, blocks, b, Text(t.metadata[1..]));
      AnnounceIs(t, b);
      ForceNext(metadata, blocks, b, t.metadata);
    } else {
      AnnounceStops(t, b);
    }
  }

  // ----- the filter in place

  /** A block for the queue. */
  datatype Out = Out(data: seq<byte>, associated: seq<byte>)

  function Audio(out: seq<Out>): seq<byte> {
    if out == [] then [] else Audio(out[..|out| - 1]) + out[|out| - 1].data
  }

  class Mp3Source {
    const interval: nat
    var offset: nat
    var buildLen: nat
    var buildOffset: nat
    const build: array<byte>
    var metadata: seq<byte>
    var comments: Comments
    var updateMetadata: bool
    var readData: array<byte>
    var readCount: nat
    var running: bool

    // What has happened so far.
    ghost var input: seq<byte>
    ghost var audio: seq<byte>
    ghost var blocks: seq<seq<byte>>
    ghost var out: seq<Out>

    // The metadata the source began with or was last given by its administrator, and how many blocks there were then.
    ghost var given: seq<byte>
    ghost var since: nat

    /** How far the stream has been read. */
    ghost function At(): Frame
      reads this, build
    {
      Frame(offset, if buildLen == 0 || build.Length < buildOffset then [] else build[..buildOffset], audio, blocks)
    }

    ghost predicate Building()
      reads this, build
    {
      && build.Length == 4081 && buildLen <= 4081
      && (buildLen == 0 || (0 < buildOffset < buildLen == BlockLen(build[0])
                            && forall i :: buildOffset <= i < buildLen ==> build[i] == 0))
      && Proper(interval, At()) && interval > 0 && Kept(metadata) && Sane(comments)
    }

    /** The stream has been read up to what is still being collected, and its audio is what has come out. */
    ghost predicate Valid()
      reads this, build, readData
    {
      && Building() && readData.Length == REFBUF_SIZE && readData != build && readCount < REFBUF_SIZE <= readData.Length
      && running && readCount <= |input| && input[|input| - readCount..] == readData[..readCount]
      && At() == Feed(interval, Fresh, input[..|input| - readCount])
      && Audio(out) == audio && (|input| - readCount) % REFBUF_SIZE == 0 && Heard()
    }

    /** The metadata in force is what the blocks read since have made of what was given. */
    ghost predicate Heard()
      reads this
    {
      && Kept(given) && since <= |blocks| && AllFramed(blocks[since..])
      && Hear(Title(given, true), blocks[since..]) == Title(metadata, true)
    }

    constructor (interval: nat)
      requires interval > 0
      ensures Valid() && this.interval == interval && input == [] && out == [] && metadata == given == BLANK
      ensures since == 0 && !updateMetadata
      ensures fresh(build) && fresh(readData)
    {
      this.interval := interval;
      offset, buildLen, buildOffset, readCount := 0, 0, 0, 0;
      build := new byte[4081](_ => 0);
      readData := new byte[REFBUF_SIZE](_ => 0);
      metadata := BLANK;
      comments := Comments(None, None, None, None);
      updateMetadata, running := false, true;
      input, audio, blocks, out, given, since := [], [], [], [], BLANK, 0;
      new;
      assert TITLE_TAG <= BLANK[1..];
    }

    /** complete_read: bytes are collected until there is a block of them. */
    method CompleteRead(bytes: seq<byte>) returns (full: bool)
      requires Valid() && |bytes| <= REFBUF_SIZE - readCount
      modifies this`readCount, this`input, readData
      ensures input == old(input) + bytes && full == (readCount == REFBUF_SIZE)
      ensures !full ==> Valid()
      ensures readCount == old(readCount) + |bytes| <= readData.Length
      ensures readData[..readCount] == old(readData[..readCount]) + bytes
      ensures Building() && At() == old(At()) && input[|input| - readCount..] == readData[..readCount]
      ensures input[..|input| - readCount] == old(input[..|input| - readCount])
    {
      ghost var taken, held := input[..|input| - readCount], readData[..readCount];
      forall i | 0 <= i < |bytes| {
        readData[readCount + i] := bytes[i];
      }
      assert input == taken + held;
      input := input + bytes;
      readCount := readCount + |bytes|;
      full := readCount == REFBUF_SIZE;
      assert readData[..readCount] == held + bytes;
      assert input == taken + (held + bytes);
    }

    /** complete_read when the connection has failed: what was being collected is dropped. */
    method ReadFails()
      requires Valid()
      modifies this`readCount, this`readData, this`input
      ensures Valid() && input == Whole(old(input)) && readCount == 0 && fresh(readData)
    {
      assert |input| - readCount == |input| - |input| % REFBUF_SIZE;
      input := input[..|input| - readCount];
      readCount := 0;
      readData := new byte[REFBUF_SIZE](_ => 0);
      assert input[..|input| - 0] == input && input[|input|..] == readData[..0];
    }

    /** mp3_set_title, when an update has been asked for. */
    method Retitle()
      requires Building() && Heard()
      modifies this`metadata, this`updateMetadata, this`given, this`since
      ensures Building() && Heard() && At() == old(At()) && !updateMetadata
      ensures metadata == old(Retitled())
      ensures if old(updateMetadata && TitleBlock(comments).Some?) then given == metadata && since == |blocks|
              else given == old(given) && since == old(since)
    {
      if updateMetadata {
        var title := MakeTitle(comments);
        if title.Some? {
          LikeATitle(title.value);
          metadata := title.value;
          given, since := metadata, |blocks|;
        }
        updateMetadata := false;
      }
    }

    // ----- the loop of mp3_get_filter_meta

    /** `n` bytes from `at` on are audio. */
    method TakeAudio(data: array<byte>, at: nat, n: nat)
      requires Building() && data != build && at + n <= data.Length && offset + n <= interval && buildLen == 0
      modifies this`offset, this`audio
      ensures Building() && At() == Feed(interval, old(At()), data[at..at + n]) && buildLen == 0
      ensures audio == old(audio) + data[at..at + n]
    {
      FeedAudio(interval, At(), data[at..at + n]);
      offset := offset + n;
      audio := audio + data[at..at + n];
    }

    /** A block is being read; its first byte may still be to come. */
    ghost predicate InBlock(first: byte)
      reads this, build
    {
      && build.Length == 4081 && interval > 0 && offset == interval && Kept(metadata) && Sane(comments)
      && buildOffset < buildLen <= 4081 && buildLen == BlockLen(if buildOffset == 0 then first else build[0])
      && (forall i :: buildOffset <= i < buildLen ==> build[i] == 0)
      && forall i :: 0 <= i < |blocks| ==> Framed(blocks[i])
    }

    /** The length byte of a block is there, unless the block has been begun before. */
    method Begin(first: byte)
      requires Building() && offset == interval
      modifies this`buildLen, this`buildOffset, build
      ensures InBlock(first) && At() == old(At()) && build[..buildOffset] == old(At()).block
    {
      if buildLen == 0 {
        forall i | 0 <= i < build.Length {
          build[i] := 0;
        }
        buildOffset := 0;
        buildLen := 1 + first * 16;
      }
    }

    /** More of the block, but not all. */
    method TakePart(data: array<byte>, at: nat, n: nat)
      requires 0 < n && at + n <= data.Length && data != build && InBlock(data[at]) && n < buildLen - buildOffset
      modifies this`buildOffset, build
      ensures Building() && At() == Feed(interval, old(At()), data[at..at + n])
    {
      ghost var f, s := At(), data[at..at + n];
      forall i | 0 <= i < n {
        build[buildOffset + i] := data[at + i];
      }
      buildOffset := buildOffset + n;
      assert build[..buildOffset] == f.block + s;
      FeedPart(interval, f, s);
      assert data[at..at + n] == s;
    }

    /** The rest of the block. All bytes but the last are copied, so a NUL ends it. */
    method TakeRest(data: array<byte>, at: nat, n: nat) returns (meta: seq<byte>)
      requires 0 < n && at + n <= data.Length && data != build && InBlock(data[at]) && n == buildLen - buildOffset
      modifies this`offset, this`buildLen, this`blocks, build
      ensures var block := old(build[..buildOffset]) + data[at..at + n];
        && Framed(block) && meta == Terminated(block) && blocks == old(blocks) + [block]
      ensures Building() && buildLen == 0 && At() == Feed(interval, old(At()), data[at..at + n])
    {
      ghost var f, s := At(), data[at..at + n];
      forall i | 0 <= i < n - 1 {
        build[buildOffset + i] := data[at + i];
      }
      meta := build[..buildLen];
      ghost var block := f.block + s;
      assert |block| == buildLen && block[0] == if buildOffset == 0 then data[at] else build[0];
      assert meta == Terminated(block);
      FeedBlock(interval, f, s);
      offset := 0;
      buildLen := 0;
      blocks := blocks + [block];
      assert data[at..at + n] == s;
    }

    /** Metadata that is not empty and not what it was is kept, if it is a title. */
    method Notice(meta: seq<byte>, ghost block: seq<byte>) returns (ok: bool)
      requires Building() && Framed(block) && meta == Terminated(block)
      modifies this`metadata, this`comments
      ensures Building() && At() == old(At()) && updateMetadata == old(updateMetadata)
      ensures Title(metadata, ok) == Announce(Title(old(metadata), true), block)
      ensures comments == old(comments).(inlineUrl :=
        if ok && |block| > 1 && TextOf(block) != Text(old(metadata)[1..]) then InlineUrl(TextOf(block))
        else old(comments).inlineUrl)
    {
      AnnounceKept(Title(metadata, true), block);
      ok := true;
      if |meta| > 1 && Text(meta[1..]) != Text(metadata[1..]) {
        if TITLE_TAG <= meta[1..] {
          metadata := meta;
          comments := comments.(inlineUrl := InlineUrl(Text(meta[1..])));
        } else {
          ok := false;
        }
      }
    }

    /** Part of the way through a block of which `bytes` bytes are left. */
    ghost predicate Filtering(f0: Frame, t0: Title, all: seq<byte>, data: array<byte>, len: nat, bytes: nat)
      reads this, build, data
    {
      && Building() && data != build && Strained(interval, f0, At(), all, data[..], len, bytes)
      && f0.blocks <= blocks && Title(metadata, true) == Hear(t0, blocks[|f0.blocks|..])
    }

    /** Audio up to the next metadata, or to the end of the block. */
    method AudioTurn(data: array<byte>, len: nat, bytes: nat, n: nat, ghost f0: Frame, ghost t0: Title,
                     ghost all: seq<byte>)
      requires Filtering(f0, t0, all, data, len, bytes) && 0 < n <= bytes && offset + n <= interval && offset < interval
      modifies this`offset, this`audio
      ensures Filtering(f0, t0, all, data, len + n, bytes - n)
    {
      hide Strained, Feed, Hear;
      ghost var f := At();
      StrainedBounds(interval, f0, f, all, data[..], len, bytes);
      assert data[len..len + n] == data[..][len..len + n];
      TakeAudio(data, len, n);
      StrainAudio(interval, f0, f, At(), all, data[..], len, bytes, n);
    }

    /** Metadata: 1 to go on, 0 when the block is used up, -1 to end the stream. */
    method MetaTurn(data: array<byte>, len: nat, bytes: nat, ghost f0: Frame, ghost t0: Title, ghost all: seq<byte>)
      returns (status: int, left: nat)
      requires Filtering(f0, t0, all, data, len, bytes) && 0 < bytes && offset == interval
      modifies this`offset, this`buildLen, this`buildOffset, this`blocks, this`metadata, this`comments, build, data
      ensures Loose(f0, all, data, len, left) && left < bytes
      ensures status == 0 ==> left == 0
      ensures f0.blocks <= blocks && Title(metadata, status >= 0) == Hear(t0, blocks[|f0.blocks|..])
      ensures data[..len] == old(data[..len])
    {
      hide Strained, Feed, Hear;
      ghost var f, buf := At(), data[..];
      StrainedBounds(interval, f0, f, all, buf, len, bytes);
      Begin(data[len]);
      assert data[..] == buf;
      var remaining := buildLen - buildOffset;
      if bytes < remaining {
        assert data[len..len + bytes] == buf[len..len + bytes];
        TakePart(data, len, bytes);
        StrainMeta(interval, f0, f, At(), all, buf, data[..], len, bytes, bytes);
        return 0, 0;
      }
      left := bytes - remaining;
      status := RestTurn(data, len, bytes, remaining, f0, f, t0, all);
    }

    /** The rest of the metadata is in the block: it is taken out of the buffer and noticed. */
    method RestTurn(data: array<byte>, len: nat, bytes: nat, remaining: nat,
                    ghost f0: Frame, ghost f: Frame, ghost t0: Title, ghost all: seq<byte>)
      returns (status: int)
      requires Strained(interval, f0, f, all, data[..], len, bytes) && f == At() && f.audio == audio
      requires 0 < remaining <= bytes && len + bytes <= data.Length && data != build && InBlock(data[len])
      requires remaining == buildLen - buildOffset
      requires f0.blocks <= blocks && Title(metadata, true) == Hear(t0, blocks[|f0.blocks|..])
      modifies this`offset, this`buildLen, this`buildOffset, this`blocks, this`metadata, this`comments, build, data
      ensures Loose(f0, all, data, len, bytes - remaining) && (status == 1 || status == -1)
      ensures f0.blocks <= blocks && Title(metadata, status >= 0) == Hear(t0, blocks[|f0.blocks|..])
      ensures data[..len] == old(data[..len])
    {
      hide Strained, Feed, Hear;
      ghost var buf := data[..];
      assert data[len..len + remaining] == buf[len..len + remaining];
      ghost var before := blocks;
      var meta := TakeRest(data, len, remaining);
      ghost var block := blocks[|blocks| - 1];
      ShiftDown(data, len, remaining, bytes - remaining);
      StrainMeta(interval, f0, f, At(), all, buf, data[..], len, bytes, remaining);
      var ok := Notice(meta, block);
      HearOne(t0, before, block, |f0.blocks|);
      status := if ok then 1 else -1;
    }

    ghost predicate Loose(f0: Frame, all: seq<byte>, data: array<byte>, len: nat, bytes: nat)
      reads this, build, data
    {
      Building() && Strained(interval, f0, At(), all, data[..], len, bytes)
    }

    /** The loop: what is left at the front of the buffer is the audio. */
    method Filter(data: array<byte>) returns (len: nat, ok: bool)
      requires Building() && Heard() && data != build && data.Length == REFBUF_SIZE
      modifies this`offset, this`audio, this`buildLen, this`buildOffset, this`blocks, this`metadata, this`comments,
        build, data
      ensures var f := Feed(interval, old(At()), old(data[..]));
        && old(blocks) <= blocks <= f.blocks
        && (forall i :: 0 <= i < |f.blocks| ==> f.blocks[i] != [])
        && Title(metadata, ok) == Hear(Title(old(metadata), true), blocks[|old(blocks)|..])
        && ok == Hear(Title(old(metadata), true), f.blocks[|old(blocks)|..]).ok
        && (ok ==> At() == f)
      ensures ok ==> Building() && Heard() && len <= data.Length && audio == old(audio) + data[..len]
    {
      hide Strained, Feed, Hear;
      ghost var f0, t0, all := At(), Title(metadata, true), data[..];
      len, ok := 0, true;
      var bytes: nat := REFBUF_SIZE;
      StrainBegins(interval, f0, t0, all);
      while bytes > 0
        invariant Filtering(f0, t0, all, data, len, bytes)
        decreases bytes
      {
        var block := interval - offset;
        if bytes <= block {
          AudioTurn(data, len, bytes, bytes, f0, t0, all);
          len := len + bytes;
          bytes := 0;
        } else if block > 0 {
          AudioTurn(data, len, bytes, block, f0, t0, all);
          len := len + block;
          bytes := bytes - block;
        } else {
          var status, left := MetaTurn(data, len, bytes, f0, t0, all);
          if status < 0 {
            StrainStops(interval, f0, t0, At(), all, data[..], len, left);
            ok := false;
            return;
          }
          bytes := left;
        }
      }
      StrainEnds(interval, f0, t0, At(), all, data[..], len);
      HeardOn(interval, At(), given, since, old(blocks), old(metadata), blocks);
    }

    /** The metadata once an update that was asked for has been made. */
    ghost function Retitled(): seq<byte>
      requires Sane(comments)
      reads this
    {
      if updateMetadata && TitleBlock(comments).Some? then TitleBlock(comments).value else metadata
    }

    /** What the metadata in a block come to. */
    ghost function Outcome(all: seq<byte>): Title
      requires Building()
      reads this, build
    {
      FeedProper(interval, At(), all);
      FeedGrows(interval, At(), all);
      Hear(Title(Retitled(), true), Feed(interval, At(), all).blocks[|blocks|..])
    }

    /** A full block is filtered, with a new title if there is one. */
    method Strain(data: array<byte>) returns (len: nat, ok: bool)
      requires Building() && Heard() && data != build && data.Length == REFBUF_SIZE
      modifies this`offset, this`audio, this`buildLen, this`buildOffset, this`blocks, this`metadata, this`comments,
        this`updateMetadata, this`given, this`since, build, data
      ensures ok ==> Building() && Heard() && len <= data.Length && audio == old(audio) + data[..len]
      ensures ok ==> At() == Feed(interval, old(At()), old(data[..])) && !updateMetadata
      ensures if old(updateMetadata && TitleBlock(comments).Some?)
              then given == old(Retitled()) && since == |old(blocks)|
              else given == old(given) && since == old(since)
      ensures ok == old(Outcome(data[..])).ok && (ok ==> metadata == old(Outcome(data[..])).metadata)
    {
      hide Feed, Hear, Proper, Kept;
      Retitle();
      len, ok := Filter(data);
    }

    /** What remains of a full block is a block for the queue, unless there was nothing but metadata in it. */
    method FilterBlock(data: array<byte>) returns (block: Option<Out>)
      requires Building() && Heard() && data != build && data.Length == REFBUF_SIZE <= |input| && running
      requires input[|input| - REFBUF_SIZE..] == data[..] && Audio(out) == audio
      requires At() == Feed(interval, Fresh, input[..|input| - REFBUF_SIZE])
      modifies this`metadata, this`updateMetadata, this`offset, this`audio,
        this`buildLen, this`buildOffset, this`blocks, this`comments, this`running, this`out, this`given, this`since,
        build, data
      ensures running ==> Building() && Heard() && At() == Feed(interval, Fresh, input) && Audio(out) == audio
      ensures running ==> !updateMetadata
      ensures block.Some? ==> running && block.value.data != [] && block.value.associated == metadata
      ensures out == old(out) + if block.Some? then [block.value] else []
      ensures if old(updateMetadata && TitleBlock(comments).Some?)
              then given == old(Retitled()) && since == |old(blocks)|
              else given == old(given) && since == old(since)
      ensures running == old(Outcome(data[..])).ok && (running ==> metadata == old(Outcome(data[..])).metadata)
    {
      hide Feed, Proper, Kept, Audio, Hear;
      TakenOn(interval, input, REFBUF_SIZE);
      var len, ok := Strain(data);
      if !ok {
        running := false;
        return None;
      }
      block := Emit(data[..len]);
    }

    /** Audio, if there is any, becomes a block for the queue. */
    method Emit(data: seq<byte>) returns (block: Option<Out>)
      modifies this`out
      ensures Audio(out) == old(Audio(out)) + data
      ensures block == if data == [] then None else Some(Out(data, metadata))
      ensures out == old(out) + if block.Some? then [block.value] else []
    {
      if data == [] {
        assert Audio(out) + data == Audio(out);
        return None;
      }
      block := Some(Out(data, metadata));
      AudioOn(out, block.value);
      out := out + [block.value];
    }

    /** What the metadata come to in the block that `bytes` complete. */
    ghost function Due(bytes: seq<byte>): Title
      requires Building() && readCount <= readData.Length
      reads this, build, readData
    {
      Outcome(readData[..readCount] + bytes)
    }

    /** mp3_get_filter_meta: what the connection gives is collected, and a full block comes out as its audio with the
        metadata that goes with it, if there is any audio in it. */
    method GetBuffer(bytes: seq<byte>) returns (block: Option<Out>)
      requires Valid() && |bytes| <= REFBUF_SIZE - readCount
      modifies this`readCount, this`input, this`readData, this`metadata, this`updateMetadata, this`offset, this`audio,
        this`buildLen, this`buildOffset, this`blocks, this`comments, this`running, this`out, this`given, this`since,
        build, readData
      ensures input == old(input) + bytes && (running ==> Valid() && (updateMetadata ==> old(updateMetadata)))
      ensures readData == old(readData) || fresh(readData)
      ensures block.Some? ==>
        running && block.value.data != [] && block.value.associated == metadata && out == old(out) + [block.value]
      ensures block.None? ==> out == old(out)
      ensures if old(readCount) + |bytes| == REFBUF_SIZE && old(updateMetadata && TitleBlock(comments).Some?)
              then given == old(Retitled()) && since == |old(blocks)| else given == old(given) && since == old(since)
      ensures if old(readCount) + |bytes| < REFBUF_SIZE then running
              else running == old(Due(bytes)).ok && (running ==> metadata == old(Due(bytes)).metadata)
    {
      hide Feed, Proper, Kept, Audio, Hear, Sane, TitleBlock, AllFramed, BlockLen;
      var full := CompleteRead(bytes);
      block := None;
      if full {
        var data := readData;
        assert data[..] == readData[..readCount] == old(readData[..readCount]) + bytes;
        readData := new byte[REFBUF_SIZE](_ => 0);
        readCount := 0;
        block := FilterBlock(data);
        assert input[..|input| - 0] == input && input[|input|..] == readData[..0];
      }
    }

    /** The metadata that goes with what comes out is the last that brought another text, NUL-terminated, or what the
        source was given if none has; all such metadata were titles. */
    lemma TitleInForce()
      requires Valid()
      ensures Kept(given) && since <= |blocks| && AllFramed(blocks[since..])
      ensures AllTitles(Text(given[1..]), blocks[since..]) && IsInForce(given, blocks[since..], metadata)
      ensures TextBefore(Text(given[1..]), blocks[since..], |blocks| - since, Text(metadata[1..]))
    {
      hide Hear, AllTitles, IsInForce, TextBefore, Feed, Text;
      InForce(given, blocks[since..]);
    }

    /** A full block ends the stream exactly if some metadata in it bring another text and are not a title. */
    lemma EndsAt(bytes: seq<byte>)
      requires Building() && readCount <= readData.Length
      ensures var more := Feed(interval, At(), readData[..readCount] + bytes).blocks;
        && blocks <= more && AllFramed(more[|blocks|..]) && Kept(Retitled())
        && (Due(bytes).ok <==> AllTitles(Text(Retitled()[1..]), more[|blocks|..]))
        && (Due(bytes).ok ==> IsInForce(Retitled(), more[|blocks|..], Due(bytes).metadata))
    {
      hide Hear, AllTitles, IsInForce, TextBefore, Feed, Text, TitleBlock;
      var all := readData[..readCount] + bytes;
      FeedProper(interval, At(), all);
      FeedGrows(interval, At(), all);
      RetitledKept();
      InForce(Retitled(), Feed(interval, At(), all).blocks[|blocks|..]);
    }

    lemma RetitledKept()
      requires Building()
      ensures Kept(Retitled())
    {
      hide Feed;
      if updateMetadata && TitleBlock(comments).Some? {
        TitleBlockHolds(comments);
        LikeATitle(Retitled());
      }
    }

    /** What has come out depends on the bytes that came in, and not on how they were cut up: it is the audio of the
        1400-byte blocks of them. */
    lemma SplitIndependent()
      requires Valid()
      ensures var s := Whole(input); var f := Feed(interval, Fresh, s);
        Audio(out) == f.audio && Reads(interval, s, f)
    {
      assert |input| - readCount == |input| - |input| % REFBUF_SIZE;
      FrameMeaning(interval, input[..|input| - readCount]);
    }
  }

  /** What has been heard goes on with the blocks of one more buffer. */
  lemma HeardOn(interval: nat, f: Frame, given: seq<byte>, since: nat, before: seq<seq<byte>>, metadata: seq<byte>,
                after: seq<seq<byte>>)
    requires Proper(interval, f) && f.blocks == after && before <= after && since <= |before|
    requires AllFramed(before[since..]) && Hear(Title(given, true), before[since..]) == Title(metadata, true)
    ensures AllFramed(after[since..]) && AllFramed(after[|before|..])
    ensures Hear(Title(given, true), after[since..]) == Hear(Title(metadata, true), after[|before|..])
  {
    assert after[since..] == before[since..] + after[|before|..];
    HearOn(Title(given, true), before[since..], after[|before|..]);
  }

  /** The full blocks of the input. */
  function Whole(input: seq<byte>): seq<byte> {
    input[..|input| - |input| % REFBUF_SIZE]
  }

  /** Of the block `all`, what is left lies in the buffer behind the audio found so far. */
  ghost predicate Strained(interval: nat, f0: Frame, f: Frame, all: seq<byte>, buf: seq<byte>, len: nat, bytes: nat) {
    && bytes <= |all| && len + bytes <= |buf| && buf[len..len + bytes] == all[|all| - bytes..]
    && f == Feed(interval, f0, all[..|all| - bytes]) && f.audio == f0.audio + buf[..len]
  }

  lemma StrainedBounds(interval: nat, f0: Frame, f: Frame, all: seq<byte>, buf: seq<byte>, len: nat, bytes: nat)
    requires Strained(interval, f0, f, all, buf, len, bytes)
    ensures len + bytes <= |buf|
  {
  }

  /** Complete blocks stay, whatever comes. */
  lemma {:induction false} FeedGrows(interval: nat, f: Frame, s: seq<byte>)
    ensures f.blocks <= Feed(interval, f, s).blocks
  {
    if s != [] {
      FeedGrows(interval, f, s[..|s| - 1]);
    }
  }

  lemma {:induction false} HearStops(t: Title, a: seq<seq<byte>>, b: seq<seq<byte>>)
    requires forall i :: 0 <= i < |a| ==> a[i] != []
    requires forall i :: 0 <= i < |b| ==> b[i] != []
    ensures !Hear(t, a).ok ==> !Hear(t, a + b).ok
  {
    if b == [] {
      assert a + b == a;
    } else {
      assert (a + b)[..|a + b| - 1] == a + b[..|b| - 1];
      HearStops(t, a, b[..|b| - 1]);
    }
  }

  lemma StrainBegins(interval: nat, f: Frame, t: Title, all: seq<byte>)
    ensures Strained(interval, f, f, all, all, 0, |all|) && Hear(t, f.blocks[|f.blocks|..]) == t
  {
    assert all[..0] == [] && f.audio + [] == f.audio;
  }

  lemma StrainEnds(interval: nat, f0: Frame, t0: Title, f: Frame, all: seq<byte>, buf: seq<byte>, len: nat)
    requires Strained(interval, f0, f, all, buf, len, 0) && Proper(interval, f)
    ensures f == Feed(interval, f0, all) && len <= |buf| && f.audio == f0.audio + buf[..len]
    ensures forall i :: 0 <= i < |f.blocks| ==> f.blocks[i] != []
  {
    assert all[..|all|] == all;
  }

  /** The stream is ended in the middle of a block, as it would be by all of the block. */
  lemma StrainStops(interval: nat, f0: Frame, t0: Title, f: Frame, all: seq<byte>, buf: seq<byte>, len: nat, left: nat)
    requires Strained(interval, f0, f, all, buf, len, left) && Proper(interval, f)
    requires f0.blocks <= f.blocks && (forall i :: 0 <= i < |f.blocks| ==> f.blocks[i] != [])
    requires !Hear(t0, f.blocks[|f0.blocks|..]).ok
    ensures var f1 := Feed(interval, f0, all);
      && f.blocks <= f1.blocks && (forall i :: 0 <= i < |f1.blocks| ==> f1.blocks[i] != [])
      && !Hear(t0, f1.blocks[|f0.blocks|..]).ok
  {
    hide Feed, Hear;
    var i := |all| - left;
    assert all == all[..i] + all[i..];
    FeedOn(interval, f0, all[..i], all[i..]);
    FeedGrows(interval, f, all[i..]);
    FeedProper(interval, f, all[i..]);
    var f1 := Feed(interval, f0, all);
    var more := f1.blocks[|f.blocks|..];
    assert f1.blocks[|f0.blocks|..] == f.blocks[|f0.blocks|..] + more;
    HearStops(t0, f.blocks[|f0.blocks|..], more);
  }

  lemma TakenOn(interval: nat, input: seq<byte>, n: nat)
    requires n <= |input|
    ensures Feed(interval, Feed(interval, Fresh, input[..|input| - n]), input[|input| - n..]) ==
      Feed(interval, Fresh, input)
  {
    FeedOn(interval, Fresh, input[..|input| - n], input[|input| - n..]);
    assert input == input[..|input| - n] + input[|input| - n..];
  }

  lemma AudioOn(out: seq<Out>, o: Out)
    ensures Audio(out + [o]) == Audio(out) + o.data
  {
    assert (out + [o])[..|out|] == out;
  }

  lemma FeedNext(interval: nat, f0: Frame, all: seq<byte>, bytes: nat, n: nat)
    requires n <= bytes <= |all|
    ensures Feed(interval, Feed(interval, f0, all[..|all| - bytes]), all[|all| - bytes..][..n])
      == Feed(interval, f0, all[..|all| - (bytes - n)])
  {
    var i := |all| - bytes;
    assert all[..i + n] == all[..i] + all[i..][..n];
    FeedOn(interval, f0, all[..i], all[i..][..n]);
  }

  lemma StrainAudio(interval: nat, f0: Frame, f: Frame, f': Frame, all: seq<byte>, buf: seq<byte>, len: nat,
                    bytes: nat, n: nat)
    requires Strained(interval, f0, f, all, buf, len, bytes) && n <= bytes
    requires f' == Feed(interval, f, buf[len..len + n]) && f'.audio == f.audio + buf[len..len + n]
    ensures Strained(interval, f0, f', all, buf, len + n, bytes - n)
  {
    hide Feed;
    FeedNext(interval, f0, all, bytes, n);
    Slices(all, buf, len, bytes, n);
    assert f0.audio + (buf[..len] + buf[len..len + n]) == f0.audio + buf[..len] + buf[len..len + n];
  }

  lemma Slices(all: seq<byte>, buf: seq<byte>, len: nat, bytes: nat, n: nat)
    requires n <= bytes <= |all| && len + bytes <= |buf| && buf[len..len + bytes] == all[|all| - bytes..]
    ensures buf[len..len + n] == all[|all| - bytes..][..n]
    ensures buf[..len + n] == buf[..len] + buf[len..len + n]
    ensures buf[len + n..len + bytes] == all[|all| - (bytes - n)..]
  {
    assert buf[len..len + n] == buf[len..len + bytes][..n];
    assert buf[len + n..len + bytes] == buf[len..len + bytes][n..];
    assert all[|all| - (bytes - n)..] == all[|all| - bytes..][n..];
  }

  lemma StrainMeta(interval: nat, f0: Frame, f: Frame, f': Frame, all: seq<byte>, buf: seq<byte>, buf': seq<byte>,
                   len: nat, bytes: nat, n: nat)
    requires Strained(interval, f0, f, all, buf, len, bytes) && n <= bytes && len + (bytes - n) <= |buf'|
    requires f' == Feed(interval, f, buf[len..len + n]) && f'.audio == f.audio
    requires buf'[..len] == buf[..len] && buf'[len..len + (bytes - n)] == buf[len + n..len + bytes]
    ensures Strained(interval, f0, f', all, buf', len, bytes - n)
  {
    hide Feed;
    FeedNext(interval, f0, all, bytes, n);
    Slices(all, buf, len, bytes, n);
  }

  lemma HearOne(t: Title, blocks: seq<seq<byte>>, block: seq<byte>, from: nat)
    requires from <= |blocks| && block != [] && forall i :: 0 <= i < |blocks| ==> blocks[i] != []
    ensures Hear(t, (blocks + [block])[from..]) == Announce(Hear(t, blocks[from..]), block)
  {
    assert (blocks + [block])[from..] == blocks[from..] + [block];
    assert (blocks[from..] + [block])[..|blocks| - from] == blocks[from..];
  }

  lemma LikeATitle(block: seq<byte>)
    requires Framed(block) && 17 <= |block| && STREAM_TITLE <= block[1..]
    ensures Kept(block)
  {
    assert TITLE_TAG == STREAM_TITLE[..12];
  }
}
