/** The listener side: audio is sent with a metadata block after every `interval` bytes of it, however much of what is
    offered the connection accepts each time. Sending is the inverse of the source side's filtering. */
module IcyClient {
  import opened Bytes
  import opened IcyFrame
  import opened IcyTitle
  import opened IcyFilter

  /** A metadata buffer: its address, by which a change is noticed, and its contents. */
  datatype Meta = Meta(ptr: nat, data: seq<byte>)

  /** A block that is empty or starts like a title, as far as it goes. */
  predicate Titled(block: seq<byte>) {
    block != [] ==> if block[0] == 0 then |block| == 1
                    else forall i :: 1 <= i < |block| && i < 13 ==> block[i] == TITLE_TAG[i - 1]
  }

  predicate Sound(meta: Option<Meta>) {
    meta.Some? ==> Kept(meta.value.data)
  }

  /** The block that goes to a listener who was last sent the metadata at `associated`. */
  function Chosen(associated: nat, meta: Option<Meta>): seq<byte> {
    if meta.Some? && meta.value.ptr != associated then meta.value.data
    else if meta.Some? then [0]
    else BLANK
  }

  /** What send_stream_metadata offers when `offset` bytes have been sent before. The single zero byte is offered
      whatever has been sent. */
  function Offered(associated: nat, offset: nat, meta: Option<Meta>): seq<byte> {
    var block := Chosen(associated, meta);
    if meta.Some? && meta.value.ptr == associated then block
    else if offset <= |block| then block[offset..] else []
  }

  /** `offered` is just what is missing of a block of which `part` has been sent. */
  predicate Completes(part: seq<byte>, offered: seq<byte>) {
    offered != [] && (part == [] || |part| + |offered| == BlockLen(part[0]))
  }

  lemma ChosenSound(associated: nat, meta: Option<Meta>)
    requires Sound(meta)
    ensures var b := Chosen(associated, meta); Framed(b) && Titled(b) && Offered(associated, 0, meta) == b
  {
    assert TITLE_TAG == STREAM_TITLE[..12];
    var b := Chosen(associated, meta);
    if meta.Some? && meta.value.ptr != associated {
      assert b[1..][..12] == TITLE_TAG;
      forall i | 1 <= i < |b| && i < 13
        ensures b[i] == TITLE_TAG[i - 1]
      {
        assert b[i] == b[1..][..12][i - 1];
      }
    }
  }

  function PtrOf(meta: Option<Meta>): nat {
    if meta.Some? then meta.value.ptr else 0
  }

  /** The metadata buffer of one call, how much of a block was sent but not all of it when the call was over, and
      whether in the call a block was sent to its end. */
  datatype Call = Call(meta: Option<Meta>, offset: nat, whole: bool)

  /** The metadata that was last sent to its end. */
  function LastTold(calls: seq<Call>): Option<Meta> {
    if calls == [] then None
    else if calls[|calls| - 1].whole then calls[|calls| - 1].meta
    else LastTold(calls[..|calls| - 1])
  }

  predicate SamePlace(a: Option<Meta>, b: Option<Meta>) {
    a.Some? && b.Some? && a.value.ptr == b.value.ptr
  }

  /** Different metadata are in different places in memory. */
  ghost predicate Unmistakable(calls: seq<Call>) {
    && (forall i :: 0 <= i < |calls| && calls[i].meta.Some? ==> calls[i].meta.value.ptr != 0)
    && forall i, j :: 0 <= i < |calls| && 0 <= j < |calls| && SamePlace(calls[i].meta, calls[j].meta) ==>
         calls[i].meta == calls[j].meta
  }

  /** The text a player shows for it. */
  function TitleOf(told: Option<Meta>): seq<byte>
    requires Sound(told)
  {
    if told.Some? then TextOf(told.value.data) else Ascii("StreamTitle='';")
  }

  lemma {:induction false} ToldBefore(calls: seq<Call>) returns (i: nat)
    ensures LastTold(calls).Some? ==> i < |calls| && calls[i].meta == LastTold(calls)
  {
    i := 0;
    if calls != [] {
      if calls[|calls| - 1].whole {
        i := |calls| - 1;
      } else {
        i := ToldBefore(calls[..|calls| - 1]);
      }
    }
  }

  lemma LastIs(calls: seq<Call>, call: Call)
    ensures LastTold(calls + [call]) == if call.whole then call.meta else LastTold(calls)
  {
    assert (calls + [call])[..|calls|] == calls;
  }

  /** Metadata at the address of what was last sent is the same. */
  lemma ToldIsKnown(calls: seq<Call>, call: Call)
    requires Unmistakable(calls + [call])
    ensures Unmistakable(calls) && (call.meta.Some? ==> call.meta.value.ptr != 0)
    ensures call.meta.Some? && call.meta.value.ptr == PtrOf(LastTold(calls)) ==> LastTold(calls) == call.meta
  {
    var all := calls + [call];
    assert forall i :: 0 <= i < |calls| ==> all[i] == calls[i];
    assert all[|calls|] == call;
    var i := ToldBefore(calls);
  }

  /** While part of a block has been sent the metadata stays the same. */
  ghost predicate Steady(calls: seq<Call>) {
    forall i :: 0 < i < |calls| && calls[i - 1].offset > 0 ==> calls[i].meta == calls[i - 1].meta
  }

  lemma SteadyBefore(calls: seq<Call>, call: Call)
    requires Steady(calls + [call])
    ensures Steady(calls)
    ensures calls != [] && calls[|calls| - 1].offset > 0 ==> call.meta == calls[|calls| - 1].meta
  {
    var all := calls + [call];
    forall i | 0 < i < |calls| && calls[i - 1].offset > 0
      ensures calls[i].meta == calls[i - 1].meta
    {
      assert all[i - 1] == calls[i - 1] && all[i] == calls[i];
    }
    if calls != [] {
      assert all[|calls| - 1] == calls[|calls| - 1] && all[|calls|] == call;
    }
  }

  /** `after` are the blocks completed `before` and those a call with `meta` has completed: the one due to a listener
      who had been sent the metadata `from`, and then the one due to a listener who has been sent `meta`. */
  ghost predicate Delivered(before: seq<seq<byte>>, after: seq<seq<byte>>, from: Option<Meta>, to: Option<Meta>,
                            meta: Option<Meta>) {
    && before <= after && to == (if |before| == |after| then from else meta)
    && forall i :: |before| <= i < |after| ==>
         after[i] == Chosen(PtrOf(if i == |before| then from else meta), meta)
  }

  lemma DeliveredOn(a: seq<seq<byte>>, b: seq<seq<byte>>, c: seq<seq<byte>>, from: Option<Meta>, mid: Option<Meta>,
                    to: Option<Meta>, meta: Option<Meta>)
    requires Delivered(a, b, from, mid, meta) && Delivered(b, c, mid, to, meta)
    ensures Delivered(a, c, from, to, meta)
  {
    hide Chosen;
    forall i | |a| <= i < |c|
      ensures c[i] == Chosen(PtrOf(if i == |a| then from else meta), meta)
    {
      if i < |b| {
        assert c[i] == b[i];
      }
    }
  }

  /** New metadata is sent whole in the first block, and what a listener knows already as a single zero byte; without
      any an empty title is sent each time. */
  lemma DeliveredIs(before: seq<seq<byte>>, after: seq<seq<byte>>, from: Option<Meta>, to: Option<Meta>,
                    meta: Option<Meta>)
    requires Delivered(before, after, from, to, meta)
    ensures before <= after
    ensures meta.Some? && |before| < |after| ==>
      after[|before|] == if meta.value.ptr != PtrOf(from) then meta.value.data else [0]
    ensures meta.Some? ==> forall i :: |before| < i < |after| ==> after[i] == [0]
    ensures meta.None? ==> forall i :: |before| <= i < |after| ==> after[i] == [1] + Ascii("StreamTitle='';") + [0]
  {
    BlankIs();
  }

  lemma BlankIs()
    ensures Text(BLANK[1..]) == Ascii("StreamTitle='';")
    ensures BLANK == [1] + Ascii("StreamTitle='';") + [0] && Framed(BLANK) && TextOf(BLANK) == Ascii("StreamTitle='';")
  {
    var t := Ascii("StreamTitle='';");
    assert BLANK == [1] + t + [0];
    assert Terminated(BLANK)[1..] == BLANK[1..] == t + [0];
    TextIs(t);
  }

  /** After blocks of a call the text shown is that of the call's metadata exactly if it was known to be new, or its
      text was shown before: metadata made at the address of the one last sent is taken for the same. */
  lemma ShownIff(before: seq<seq<byte>>, after: seq<seq<byte>>, from: Option<Meta>, to: Option<Meta>,
                 meta: Option<Meta>, first: seq<byte>, text: seq<byte>, text': seq<byte>)
    requires Delivered(before, after, from, to, meta) && |before| < |after| && Sound(meta) && AllFramed(after)
    requires AllFramed(before) && TextBefore(first, before, |before|, text)
    requires TextBefore(first, after, |after|, text')
    ensures text' == TitleOf(meta) <==> meta.None? || meta.value.ptr != PtrOf(from) || text == TitleOf(meta)
  {
    hide TextBefore, TextOf;
    var shown := Shown(before, after, from, to, meta, first, text);
    OneText(first, after, |after|, text', shown);
  }

  lemma {:induction false} Shown(before: seq<seq<byte>>, after: seq<seq<byte>>, from: Option<Meta>, to: Option<Meta>,
                                 meta: Option<Meta>, first: seq<byte>, text: seq<byte>) returns (text': seq<byte>)
    requires Delivered(before, after, from, to, meta) && Sound(meta) && AllFramed(after)
    requires AllFramed(before) && TextBefore(first, before, |before|, text)
    ensures TextBefore(first, after, |after|, text')
    ensures text' ==
      if |before| == |after| || (meta.Some? && meta.value.ptr == PtrOf(from)) then text else TitleOf(meta)
    decreases |after|
  {
    hide TextBefore, TextOf;
    if |after| == |before| {
      assert before == after;
      return text;
    }
    var n := |after| - 1;
    var rest, b := after[..n], after[n];
    assert after == rest + [b];
    var mid := if n == |before| then from else meta;
    DeliveredIs(before, after, from, to, meta);
    var t := Shown(before, rest, from, mid, meta, first, text);
    TextNext(first, rest, b, t);
    BlankIs();
    text' := if |b| > 1 then TextOf(b) else t;
  }

  class Listener {
    const interval: nat
    var metadataOffset: nat
    var associated: nat
    var sinceMetaBlock: nat
    var inMetadata: bool
    var pos: nat

    // What the connection has accepted, what of it was audio, the calls, and the metadata last sent to its end.
    var out: seq<byte>
    var audio: seq<byte>
    var calls: seq<Call>
    var told: Option<Meta>

    ghost function Sent(): Frame
      reads this`out
    {
      Feed(interval, Fresh, out)
    }

    /** Reading back what has been sent gives the audio, and metadata fit for a source; the counters say how far the
        current block has got. */
    ghost predicate Readable()
      reads this`out, this`audio, this`inMetadata, this`sinceMetaBlock, this`metadataOffset
    {
      if interval == 0 then !inMetadata && out == audio
      else InStep(Sent(), audio, sinceMetaBlock, metadataOffset, inMetadata)
           && Presentable(Sent())
    }

    ghost predicate InStep(f: Frame, audio: seq<byte>, since: nat, offset: nat, half: bool) {
      && f.audio == audio && f.since == since <= interval && |f.block| == offset
      && (half ==> since == interval) && (!half ==> offset == 0)
    }

    /** What holds of the counters in any case. */
    ghost predicate Counters()
      reads this
    {
      && (interval > 0 ==> sinceMetaBlock <= interval) && (interval == 0 ==> !inMetadata)
      && (inMetadata ==> sinceMetaBlock == interval) && (!inMetadata ==> metadataOffset == 0)
      && associated == PtrOf(told) && Sound(told)
    }

    /** What has been sent of a block is the beginning of the one due with `meta` to a listener who has been sent the
        metadata at `associated`. */
    ghost predicate Begun(meta: Option<Meta>)
      reads this`out, this`inMetadata, this`associated
    {
      interval > 0 && inMetadata ==> Sent().block <= Chosen(associated, meta)
    }

    /** After any calls: if the metadata has not changed while part of a block had been sent, what has been sent can be
        read back, and a part of a block is part of the block due. */
    ghost predicate Valid()
      reads this
    {
      && Counters()
      && (calls == [] ==> !inMetadata) && told == LastTold(calls)
      && (calls != [] ==> calls[|calls| - 1].offset == metadataOffset && Sound(calls[|calls| - 1].meta))
      && (Steady(calls) ==> Readable() && (calls != [] ==> Begun(calls[|calls| - 1].meta)))
      && (Steady(calls) && Unmistakable(calls) && interval > 0 ==> Entitled())
    }

    /** The blocks sent tell the text of the metadata last sent. */
    ghost predicate Entitled()
      reads this`out, this`told
    {
      && AllFramed(Sent().blocks) && Sound(told)
      && TextBefore(Ascii("StreamTitle='';"), Sent().blocks, |Sent().blocks|, TitleOf(told))
    }

    constructor (interval: nat)
      ensures Valid() && this.interval == interval && out == [] && audio == [] && calls == [] && pos == 0
      ensures told == None
    {
      this.interval := interval;
      metadataOffset, associated, sinceMetaBlock, pos := 0, 0, 0, 0;
      inMetadata := false;
      out, audio, calls, told := [], [], [], None;
    }

    /** client_send_bytes: the connection accepts a part of what it is offered, or answers -1. */
    method SendBytes(data: seq<byte>) returns (ret: int)
      modifies this`out
      ensures -1 <= ret <= |data| && out == old(out) + data[..if ret > 0 then ret else 0]
    {
      ret :| -1 <= ret <= |data|;
      out := out + data[..if ret > 0 then ret else 0];
    }

    /** What is offered fits what has been sent of the block under way, if one is. */
    ghost predicate Fits(meta: Option<Meta>)
      reads this`out, this`inMetadata, this`associated, this`metadataOffset
    {
      interval > 0 && inMetadata ==> Completes(Sent().block, Offered(associated, metadataOffset, meta))
    }

    /** The same metadata fits again. */
    lemma BegunFits(meta: Option<Meta>)
      requires Readable() && Begun(meta) && Sound(meta)
      ensures Fits(meta)
      ensures interval > 0 && inMetadata ==>
        Sent().block + Offered(associated, metadataOffset, meta) == Chosen(associated, meta)
    {
      hide Feed, Chosen, Titled, Presentable;
      if interval > 0 && inMetadata {
        FeedProper(interval, Fresh, out);
        WholeOffered(Sent().block, associated, meta);
      }
    }

    /** send_stream_metadata: the metadata that goes with the buffer, or as much of it as the connection accepts. A
        block begun before comes out as it ought to exactly if what is offered now fits it. */
    method SendStreamMetadata(meta: Option<Meta>) returns (ret: nat)
      requires Counters() && interval > 0 && sinceMetaBlock == interval && Sound(meta)
      modifies this`out, this`associated, this`told, this`metadataOffset, this`inMetadata, this`sinceMetaBlock
      ensures Counters() && audio == old(audio)
      ensures var metadata := old(Offered(associated, metadataOffset, meta));
        && ret <= |metadata| && out == old(out) + metadata[..ret]
        && if inMetadata then
             metadataOffset == old(metadataOffset) + ret && told == old(told)
             && (ret < |metadata| || metadata == [])
           else
             ret == |metadata| && sinceMetaBlock == 0 && told == meta
      ensures old(Readable() && Fits(meta)) ==> Readable() && old(Sent()).blocks <= Sent().blocks
      ensures old(Readable() && Begun(meta)) ==>
        && Readable() && Begun(meta) && Delivered(old(Sent()).blocks, Sent().blocks, old(told), told, meta)
        && (inMetadata <==> |Sent().blocks| == |old(Sent()).blocks|)
      ensures old(Readable()) && old(Sent()).block != [] && !inMetadata ==> (Readable() <==> old(Fits(meta)))
    {
      hide Feed, Chosen, Titled, Presentable, Offered, Proper, Sound;
      ghost var f, begun, fits := Sent(), Readable() && Begun(meta), Readable() && Fits(meta);
      ghost var metadata := Offered(associated, metadataOffset, meta);
      ChosenSound(associated, meta);
      if begun {
        BegunFits(meta);
        assert f.block + metadata == Chosen(associated, meta);
      }
      if fits {
        OfferedGood(f, associated, metadataOffset, meta);
      }
      ret := Send(meta);
      FeedOn(interval, Fresh, old(out), metadata[..ret]);
      if !inMetadata {
        assert metadata[..ret] == metadata;
        if fits {
          FeedBlock(interval, f, metadata);
          BlockPresentable(f, f.block + metadata);
        } else if f.block != [] {
          FeedProper(interval, Fresh, old(out));
          InStepIff(interval, f, metadata);
        }
      } else if fits {
        PartSent(interval, f, metadata, ret);
      }
    }

    /** What is offered, and the fields that follow. */
    method Send(meta: Option<Meta>) returns (ret: nat)
      modifies this`out, this`associated, this`told, this`metadataOffset, this`inMetadata, this`sinceMetaBlock
      ensures var metadata := old(Offered(associated, metadataOffset, meta));
        && ret <= |metadata| && out == old(out) + metadata[..ret]
        && if inMetadata then
             metadataOffset == old(metadataOffset) + ret && told == old(told) && associated == old(associated)
             && (ret < |metadata| || metadata == []) && sinceMetaBlock == old(sinceMetaBlock)
           else
             ret == |metadata| && sinceMetaBlock == 0 && told == meta && associated == PtrOf(meta)
             && metadataOffset == 0
    {
      var metadata := Offered(associated, metadataOffset, meta);
      var n := SendBytes(metadata);
      ret := if n > 0 then n else 0;
      if n == |metadata| {
        associated, told := PtrOf(meta), meta;
        metadataOffset := 0;
        inMetadata := false;
        sinceMetaBlock := 0;
        return;
      }
      metadataOffset := metadataOffset + ret;
      inMetadata := true;
    }

    /** Audio from the buffer at hand. */
    method SendAudio(buf: seq<byte>, n: nat) returns (ret: int)
      requires Counters() && !inMetadata && pos + n <= |buf| && (interval > 0 ==> sinceMetaBlock + n <= interval)
      modifies this`out, this`audio, this`sinceMetaBlock, this`pos
      ensures Counters() && (old(Readable()) ==> Readable())
      ensures -1 <= ret <= n && pos == old(pos) + (if ret > 0 then ret else 0)
      ensures sinceMetaBlock == old(sinceMetaBlock) + (if ret > 0 then ret else 0)
      ensures audio == old(audio) + buf[old(pos)..pos] && out == old(out) + buf[old(pos)..pos]
      ensures interval > 0 && old(Readable()) ==> Sent().blocks == old(Sent()).blocks
    {
      hide Feed, Titled;
      ret := SendBytes(buf[pos..pos + n]);
      var k := if ret > 0 then ret else 0;
      assert buf[pos..pos + n][..k] == buf[pos..pos + k];
      if interval > 0 && old(Readable()) {
        FeedOn(interval, Fresh, old(out), buf[pos..pos + k]);
        FeedAudio(interval, old(Sent()), buf[pos..pos + k]);
      }
      audio := audio + buf[pos..pos + k];
      if ret > 0 {
        sinceMetaBlock := sinceMetaBlock + ret;
        pos := pos + ret;
      }
    }

    /** Audio up to the place of the next metadata, and the metadata; `done` if all of both were accepted. */
    method ReachMetadata(buf: seq<byte>, meta: Option<Meta>, remaining: nat) returns (done: bool, written: nat)
      requires Counters() && interval > 0 && !inMetadata && Sound(meta)
      requires remaining == interval - sinceMetaBlock && pos + remaining <= |buf|
      modifies this`out, this`audio, this`sinceMetaBlock, this`pos, this`associated, this`told, this`metadataOffset,
        this`inMetadata
      ensures Counters()
      ensures old(Readable()) ==>
        && Readable() && Begun(meta)
        && Delivered(old(Sent()).blocks, Sent().blocks, old(told), told, meta)
        && (done <==> |Sent().blocks| > |old(Sent()).blocks|)
      ensures old(pos) <= pos <= old(pos) + remaining && audio == old(audio) + buf[old(pos)..pos]
      ensures |out| == |old(out)| + written
      ensures done ==> pos == old(pos) + remaining && !inMetadata && sinceMetaBlock == 0
      ensures told == if done then meta else old(told)
    {
      hide Feed, Sound, Titled, Presentable, Chosen, Offered, Completes;
      written := 0;
      if remaining > 0 {
        var ret := SendAudio(buf, remaining);
        written := if ret > 0 then ret else 0;
        if ret < remaining {
          return false, written;
        }
      }
      var ret := SendStreamMetadata(meta);
      written := written + ret;
      done := !inMetadata;
    }

    /** format_mp3_write_buf_to_client: what is sent of a buffer is the next stretch of it; the metadata is in its
        places if a block under way is gone on with as it was begun. */
    method WriteBufToClient(buf: seq<byte>, meta: Option<Meta>) returns (written: nat)
      requires Valid() && pos <= |buf| && Sound(meta)
      modifies this`out, this`audio, this`sinceMetaBlock, this`pos, this`associated, this`told, this`metadataOffset,
        this`inMetadata, this`calls
      ensures Valid() && |calls| == |old(calls)| + 1 && calls[..|old(calls)|] == old(calls)
      ensures var call := calls[|old(calls)|];
        call == Call(meta, metadataOffset, call.whole) && told == if call.whole then meta else old(told)
      ensures old(Readable() && Fits(meta)) ==> Readable()
      ensures interval > 0 && old(Readable() && Begun(meta)) ==>
        && Readable() && Begun(meta)
        && Delivered(old(Sent()).blocks, Sent().blocks, old(told), told, meta)
        && (calls[|old(calls)|].whole <==> |Sent().blocks| > |old(Sent()).blocks|)
      ensures old(pos) <= pos <= |buf| && audio == old(audio) + buf[old(pos)..pos]
      ensures |out| == |old(out)| + written
    {
      hide Feed, Sound, Titled, Presentable, Chosen, Offered, Completes, Delivered, Steady, Unmistakable, LastTold;
      hide TextBefore, Readable, TitleOf;
      SoFar(meta);
      ghost var before := Sent().blocks;
      var whole;
      written, whole := WriteOut(buf, meta);
      var call := Call(meta, metadataOffset, whole);
      calls := calls + [call];
      LastIs(old(calls), call);
      if Steady(calls) {
        SteadyBefore(old(calls), call);
        if Unmistakable(calls) && interval > 0 {
          ToldIsKnown(old(calls), call);
          EntitledOn(before, old(told), meta);
        }
      }
    }

    /** The blocks of one more call. */
    lemma EntitledOn(before: seq<seq<byte>>, from: Option<Meta>, meta: Option<Meta>)
      requires Delivered(before, Sent().blocks, from, told, meta) && Sound(meta) && Sound(from)
      requires AllFramed(before) && TextBefore(Ascii("StreamTitle='';"), before, |before|, TitleOf(from))
      requires meta.Some? && meta.value.ptr == PtrOf(from) ==> from == meta
      ensures Entitled()
    {
      hide TextBefore, TextOf, Feed;
      FeedProper(interval, Fresh, out);
      var text := Shown(before, Sent().blocks, from, told, meta, Ascii("StreamTitle='';"), TitleOf(from));
    }

    /** What has been sent of a block is part of the one due now, if the metadata is the same or nothing is sent yet. */
    lemma SoFar(meta: Option<Meta>)
      requires Valid()
      ensures Steady(calls) && (calls != [] && metadataOffset > 0 ==> meta == calls[|calls| - 1].meta) ==>
        Readable() && Begun(meta)
    {
    }

    /** The same before it is put on record. */
    method WriteOut(buf: seq<byte>, meta: Option<Meta>) returns (written: nat, whole: bool)
      requires Counters() && pos <= |buf| && Sound(meta)
      modifies this`out, this`audio, this`sinceMetaBlock, this`pos, this`associated, this`told, this`metadataOffset,
        this`inMetadata
      ensures Counters() && (old(Readable() && Fits(meta)) ==> Readable())
      ensures interval > 0 && old(Readable() && Begun(meta)) ==>
        && Readable() && Begun(meta)
        && Delivered(old(Sent()).blocks, Sent().blocks, old(told), told, meta)
        && (whole <==> |Sent().blocks| > |old(Sent()).blocks|)
      ensures told == if whole then meta else old(told)
      ensures old(pos) <= pos <= |buf| && audio == old(audio) + buf[old(pos)..pos]
      ensures |out| == |old(out)| + written
    {
      hide Feed, Sound, Titled, Presentable, Chosen, Offered, Completes;
      var len := |buf| - pos;
      written, whole := 0, false;
      if inMetadata {
        written := SendStreamMetadata(meta);
        if inMetadata {
          return;
        }
        whole := true;
      }
      ghost var blocks, from := Sent().blocks, told;
      ghost var p;
      if interval != 0 && interval - sinceMetaBlock <= len {
        var remaining := interval - sinceMetaBlock;
        var done, sent := ReachMetadata(buf, meta, remaining);
        written := written + sent;
        if interval > 0 && old(Readable() && Begun(meta)) {
          DeliveredOn(old(Sent()).blocks, blocks, Sent().blocks, old(told), from, told, meta);
        }
        whole := whole || done;
        if !done {
          return;
        }
        len := len - remaining;
        // Not too much audio at a time if the interval is small.
        if len > interval {
          len := interval;
        }
      }
      if len > 0 {
        p := pos;
        var ret := SendAudio(buf, len);
        written := written + if ret > 0 then ret else 0;
        Joined(old(audio), buf, old(pos), p, pos);
      }
    }

    lemma Joined(a: seq<byte>, buf: seq<byte>, i: nat, j: nat, k: nat)
      requires i <= j <= k <= |buf|
      ensures (a + buf[i..j]) + buf[j..k] == a + buf[i..k]
    {
      assert buf[i..j] + buf[j..k] == buf[i..k];
      Regroup(a, buf[i..j], buf[j..k]);
    }
  }

  lemma {:induction false} AudioGrows(interval: nat, f: Frame, s: seq<byte>)
    ensures f.audio <= Feed(interval, f, s).audio
  {
    if s != [] {
      AudioGrows(interval, f, s[..|s| - 1]);
    }
  }

  /** When the metadata changes while a block is half sent, what is offered next need not be the missing part of it.
      The stream stays in step exactly when its length is right: any other length turns metadata into audio or audio
      into metadata. */
  lemma InStepIff(interval: nat, f: Frame, rest: seq<byte>)
    requires interval > 0 && Proper(interval, f) && f.block != []
    ensures var g := Feed(interval, f, rest);
      g.audio == f.audio && g.block == [] && g.since == 0 <==> Completes(f.block, rest)
  {
    var missing := BlockLen(f.block[0]) - |f.block|;
    if |rest| < missing {
      FeedPart(interval, f, rest);
    } else {
      var now, later := rest[..missing], rest[missing..];
      assert rest == now + later;
      FeedOn(interval, f, now, later);
      assert (f.block + now)[0] == f.block[0];
      FeedBlock(interval, f, now);
      var g := f.(since := 0, block := [], blocks := f.blocks + [f.block + now]);
      if later != [] {
        assert later == [later[0]] + later[1..];
        FeedOn(interval, g, [later[0]], later[1..]);
        FeedAudio(interval, g, [later[0]]);
        AudioGrows(interval, Feed(interval, g, [later[0]]), later[1..]);
      } else {
        assert now == rest;
      }
    }
  }

  /** All blocks are ones a source would take. */
  ghost predicate Presentable(f: Frame) {
    Titled(f.block) && forall i :: 0 <= i < |f.blocks| ==> Titled(f.blocks[i]) && Framed(f.blocks[i])
  }

  lemma BlockPresentable(f: Frame, block: seq<byte>)
    requires Presentable(f) && Titled(block) && Framed(block)
    ensures Presentable(f.(since := 0, block := [], blocks := f.blocks + [block]))
  {
  }

  /** What is offered makes a complete block out of what has been sent, one that a source would take. */
  lemma OfferedGood(f: Frame, associated: nat, offset: nat, meta: Option<Meta>)
    requires Sound(meta) && Presentable(f) && |f.block| == offset
    requires Completes(f.block, Offered(associated, offset, meta)) || offset == 0
    ensures var offered := Offered(associated, offset, meta);
      offered != [] && Framed(f.block + offered) && Titled(f.block + offered)
  {
    var offered, b := Offered(associated, offset, meta), Chosen(associated, meta);
    ChosenSound(associated, meta);
    if offset == 0 {
      assert f.block + offered == b;
    } else {
      var whole := f.block + offered;
      assert whole[0] == f.block[0] > 0;
      forall i | 1 <= i < |whole| && i < 13
        ensures whole[i] == TITLE_TAG[i - 1]
      {
        if i >= offset {
          assert whole[i] == offered[i - offset] == b[i];
        }
      }
    }
  }

  /** What is offered behind the beginning of a block is the rest of it. */
  lemma WholeOffered(part: seq<byte>, associated: nat, meta: Option<Meta>)
    requires Sound(meta) && part <= Chosen(associated, meta)
    requires part != [] ==> |part| < BlockLen(part[0])
    ensures var offered := Offered(associated, |part|, meta);
      part + offered == Chosen(associated, meta) && Completes(part, offered)
  {
    ChosenSound(associated, meta);
    var b := Chosen(associated, meta);
    assert part + b[|part|..] == b;
    if part != [] {
      assert part[0] == b[0];
    }
  }

  lemma PartSent(interval: nat, f: Frame, metadata: seq<byte>, n: nat)
    requires f.since == interval && n < |metadata| && Framed(f.block + metadata)
    requires Titled(f.block + metadata) && Presentable(f)
    ensures Feed(interval, f, metadata[..n]) == f.(block := f.block + metadata[..n])
    ensures f.block + metadata[..n] == (f.block + metadata)[..|f.block| + n]
    ensures Presentable(f.(block := f.block + metadata[..n]))
  {
    var part, whole := f.block + metadata[..n], f.block + metadata;
    assert part == whole[..|f.block| + n];
    if part != [] {
      assert part[0] == whole[0];
      FeedPart(interval, f, metadata[..n]);
    } else {
      assert metadata[..n] == [];
    }
  }
}
