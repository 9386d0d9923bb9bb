/** The two sides together. */
module IcyRoundTrip {
  import opened Bytes
  import opened IcyFrame
  import opened IcyTitle
  import opened IcyFilter
  import opened IcyClient

  /** A source that reads what a listener was sent, at the same interval, recovers the audio: all of it that is in full
      blocks, and nothing else. The stream it got has a complete block after every `interval` bytes of audio. */
  lemma RoundTrip(l: Listener, s: Mp3Source)
    requires l.Readable() && s.Valid() && s.interval == l.interval && s.input == l.out
    ensures Audio(s.out) <= l.audio && (|l.out| % REFBUF_SIZE == 0 ==> Audio(s.out) == l.audio)
    ensures Reads(l.interval, l.out, l.Sent()) && l.Sent().audio == l.audio
  {
    hide Feed, Audio, Reads, Whole, Presentable, Proper, Kept;
    s.SplitIndependent();
    FrameMeaning(l.interval, l.out);
    WholeBlocks(l.interval, l.out);
  }

  lemma WholeBlocks(interval: nat, s: seq<byte>)
    ensures Feed(interval, Fresh, Whole(s)).audio <= Feed(interval, Fresh, s).audio
    ensures |s| % REFBUF_SIZE == 0 ==> Whole(s) == s
  {
    hide Feed;
    var t := Whole(s);
    assert s == t + s[|t|..];
    FeedOn(interval, Fresh, t, s[|t|..]);
    AudioGrows(interval, Feed(interval, Fresh, t), s[|t|..]);
  }

  /** The source never finds the listener's metadata unacceptable. */
  lemma {:induction false} NeverRefused(t: Title, blocks: seq<seq<byte>>)
    requires t.ok && forall i :: 0 <= i < |blocks| ==> Titled(blocks[i]) && Framed(blocks[i]) && blocks[i] != []
    ensures Hear(t, blocks).ok
  {
    if blocks != [] {
      NeverRefused(t, blocks[..|blocks| - 1]);
      var b := blocks[|blocks| - 1];
      if |b| > 1 {
        assert |b| >= 17;
        forall i | 0 <= i < 12
          ensures Terminated(b)[1..][i] == TITLE_TAG[i]
        {
          assert Terminated(b)[1..][i] == b[i + 1];
        }
        assert TITLE_TAG == Terminated(b)[1..][..12];
      }
    }
  }

  lemma ListenersBlocksAccepted(l: Listener, t: Title)
    requires l.Readable() && l.interval > 0 && t.ok
    ensures (forall i :: 0 <= i < |l.Sent().blocks| ==> l.Sent().blocks[i] != []) && Hear(t, l.Sent().blocks).ok
  {
    NeverRefused(t, l.Sent().blocks);
  }

  /** So no block of it ends the stream. */
  lemma StaysOpen(l: Listener, s: Mp3Source, bytes: seq<byte>)
    requires l.Readable() && s.Valid() && l.interval == s.interval
    requires s.readCount + |bytes| == REFBUF_SIZE && s.input + bytes <= l.out
    ensures s.Due(bytes).ok
  {
    hide Hear, Feed, Titled, Proper, Kept, Sane;
    var n := |s.input| - s.readCount;
    var all := s.readData[..s.readCount] + bytes;
    assert s.input[..n] + all == s.input + bytes;
    FeedOn(l.interval, Fresh, s.input[..n], all);
    var rest := l.out[|s.input + bytes|..];
    assert l.out == (s.input + bytes) + rest;
    FeedOn(l.interval, Fresh, s.input + bytes, rest);
    FeedGrows(l.interval, Feed(l.interval, s.At(), all), rest);
    FeedGrows(l.interval, s.At(), all);
    var blocks := Feed(l.interval, s.At(), all).blocks;
    assert blocks <= l.Sent().blocks;
    NewBlocks(l.Sent(), blocks, |s.blocks|);
    NeverRefused(Title(s.Retitled(), true), blocks[|s.blocks|..]);
  }

  lemma NewBlocks(f: Frame, blocks: seq<seq<byte>>, from: nat)
    requires Presentable(f) && from <= |blocks| && blocks <= f.blocks
    ensures var more := blocks[from..];
      forall i :: 0 <= i < |more| ==> Titled(more[i]) && Framed(more[i]) && more[i] != []
  {
    hide Titled;
    forall i | 0 <= i < |blocks[from..]|
      ensures Titled(blocks[from..][i]) && Framed(blocks[from..][i])
    {
      assert blocks[from..][i] == f.blocks[from + i];
    }
  }

  /** A source that has taken all a listener was sent has the title the listener was last told, if the metadata has
      never changed while part of a block had been sent, and no metadata was made where other metadata had been. */
  lemma TitleShown(l: Listener, s: Mp3Source)
    requires l.Valid() && Steady(l.calls) && Unmistakable(l.calls) && l.interval > 0
    requires s.Valid() && s.interval == l.interval && s.given == BLANK && s.since == 0
    requires s.input == l.out && |l.out| % REFBUF_SIZE == 0
    ensures Sound(LastTold(l.calls)) && Text(s.metadata[1..]) == TitleOf(LastTold(l.calls))
  {
    hide Steady, Unmistakable, LastTold, Feed, Hear, TextBefore, AllTitles, IsInForce, Text, TitleOf, Audio;
    s.TitleInForce();
    BlankIs();
    assert l.Entitled();
    assert s.input[..|s.input| - s.readCount] == l.out;
    assert s.blocks[0..] == s.blocks == l.Sent().blocks;
    OneText(Ascii("StreamTitle='';"), s.blocks, |s.blocks|, Text(s.metadata[1..]), TitleOf(LastTold(l.calls)));
  }

  /** A new source is fed what a listener was sent, in pieces of any size: if that can be read back, it never stops, and
      has the audio of all full blocks. */
  method FeedBack(l: Listener, pieces: seq<nat>) returns (s: Mp3Source)
    requires l.interval > 0
    ensures fresh(s) && s.input <= l.out && s.interval == l.interval
    ensures s.running ==> s.Valid() && s.given == BLANK && s.since == 0
    ensures l.Readable() ==>
      && s.running && s.Valid() && Audio(s.out) <= l.audio
      && (s.input == l.out && |l.out| % REFBUF_SIZE == 0 ==> Audio(s.out) == l.audio)
  {
    hide Feed, Hear, Titled, Proper, Kept, Sane, Presentable;
    s := new Mp3Source(l.interval);
    var i, at: nat := 0, 0;
    while i < |pieces| && s.running
      invariant (s.running ==> s.Valid()) && (l.Readable() ==> s.running) && s.interval == l.interval
      invariant at <= |l.out| && s.input == l.out[..at]
      invariant fresh(s) && fresh(s.build) && fresh(s.readData)
      invariant s.running ==> !s.updateMetadata && s.given == BLANK && s.since == 0
    {
      var n := Min(pieces[i], Min(REFBUF_SIZE - s.readCount, |l.out| - at));
      var piece := l.out[at..at + n];
      assert l.out[..at] + piece == l.out[..at + n];
      if l.Readable() && s.readCount + n == REFBUF_SIZE {
        StaysOpen(l, s, piece);
      }
      var block := s.GetBuffer(piece);
      i, at := i + 1, at + n;
    }
    if l.Readable() {
      Recovered(l, s);
    }
  }

  /** What a listener is to be sent in one call: a buffer, the place in it to go on from, and the metadata with it. */
  datatype Request = Request(buf: seq<byte>, pos: nat, meta: Option<Meta>)

  predicate Sensible(r: Request) {
    r.pos <= |r.buf| && Sound(r.meta)
  }

  /** The stretches of the buffers up to where each call came. */
  function Stretches(requests: seq<Request>, ends: seq<nat>): seq<byte>
    requires |ends| == |requests|
    requires forall i :: 0 <= i < |ends| ==> requests[i].pos <= ends[i] <= |requests[i].buf|
  {
    if requests == [] then []
    else
      var n := |requests| - 1;
      Stretches(requests[..n], ends[..n]) + requests[n].buf[requests[n].pos..ends[n]]
  }

  lemma StretchesNone()
    ensures Stretches([], []) == []
  {
  }

  lemma StretchesOn(requests: seq<Request>, ends: seq<nat>, i: nat, end: nat)
    requires i < |requests| && |ends| == i && requests[i].pos <= end <= |requests[i].buf|
    requires forall k :: 0 <= k < i ==> requests[k].pos <= ends[k] <= |requests[k].buf|
    ensures Stretches(requests[..i + 1], ends + [end]) ==
      Stretches(requests[..i], ends) + requests[i].buf[requests[i].pos..end]
  {
    assert requests[..i + 1][..i] == requests[..i] && (ends + [end])[..i] == ends;
  }

  /** A new listener through any calls, whatever its connection accepts of each: as long as the metadata does not change
      while part of a block has been sent, what it has been sent can be read back. */
  method Play(interval: nat, requests: seq<Request>) returns (l: Listener, ghost ends: seq<nat>)
    requires forall i :: 0 <= i < |requests| ==> Sensible(requests[i])
    ensures fresh(l) && l.Valid() && l.interval == interval && |l.calls| == |requests|
    ensures forall i :: 0 <= i < |requests| ==> l.calls[i].meta == requests[i].meta
    ensures |ends| == |requests|
    ensures forall i :: 0 <= i < |ends| ==> requests[i].pos <= ends[i] <= |requests[i].buf|
    ensures l.audio == Stretches(requests, ends)
    ensures Steady(l.calls) ==> l.Readable()
  {
    hide Sound, Steady, Listener.Valid, Listener.Readable, Stretches, Unmistakable, LastTold;
    l := new Listener(interval);
    ends := [];
    var i := 0;
    StretchesNone();
    assert requests[..0] == [];
    while i < |requests|
      invariant 0 <= i <= |requests| && fresh(l) && l.Valid() && l.interval == interval
      invariant |l.calls| == i && forall k :: 0 <= k < i ==> l.calls[k].meta == requests[k].meta
      invariant |ends| == i && forall k :: 0 <= k < i ==> requests[k].pos <= ends[k] <= |requests[k].buf|
      invariant l.audio == Stretches(requests[..i], ends)
    {
      Answer(l, requests[i]);
      StretchesOn(requests, ends, i, l.pos);
      ends := ends + [l.pos];
      i := i + 1;
    }
    assert requests[..i] == requests;
    SteadyReadable(l);
  }

  /** One call. */
  method Answer(l: Listener, r: Request)
    requires l.Valid() && Sensible(r)
    modifies l
    ensures l.Valid() && r.pos <= l.pos <= |r.buf| && l.audio == old(l.audio) + r.buf[r.pos..l.pos]
    ensures |l.calls| == |old(l.calls)| + 1 && l.calls[..|old(l.calls)|] == old(l.calls)
    ensures l.calls[|old(l.calls)|].meta == r.meta
  {
    hide Sound, Steady;
    l.pos := r.pos;
    var written := l.WriteBufToClient(r.buf, r.meta);
  }

  lemma SteadyReadable(l: Listener)
    requires l.Valid()
    ensures Steady(l.calls) ==> l.Readable()
  {
  }

  /** And a new source fed that in any pieces takes it to its end, and has the audio again. */
  method PlayBack(interval: nat, requests: seq<Request>, pieces: seq<nat>)
    returns (l: Listener, s: Mp3Source, ghost ends: seq<nat>)
    requires interval > 0 && forall i :: 0 <= i < |requests| ==> Sensible(requests[i])
    ensures |l.calls| == |requests| && forall i :: 0 <= i < |requests| ==> l.calls[i].meta == requests[i].meta
    ensures |ends| == |requests|
    ensures forall i :: 0 <= i < |ends| ==> requests[i].pos <= ends[i] <= |requests[i].buf|
    ensures Steady(l.calls) && Unmistakable(l.calls) && s.input == l.out && |l.out| % REFBUF_SIZE == 0 ==>
      Sound(LastTold(l.calls)) && s.metadata != [] && Text(s.metadata[1..]) == TitleOf(LastTold(l.calls))
    ensures Steady(l.calls) ==>
      && s.running && Audio(s.out) <= Stretches(requests, ends)
      && (s.input == l.out && |l.out| % REFBUF_SIZE == 0 ==> Audio(s.out) == Stretches(requests, ends))
  {
    hide Steady, Unmistakable, LastTold, TitleOf, Text, Audio;
    l, ends := Play(interval, requests);
    s := FeedBack(l, pieces);
    if Steady(l.calls) && Unmistakable(l.calls) && s.input == l.out && |l.out| % REFBUF_SIZE == 0 {
      TitleShown(l, s);
    }
  }

  /** What has come out so far is a beginning of the audio sent. */
  lemma Recovered(l: Listener, s: Mp3Source)
    requires l.Readable() && s.Valid() && s.interval == l.interval && s.input <= l.out
    ensures Audio(s.out) <= l.audio && (s.input == l.out && |l.out| % REFBUF_SIZE == 0 ==> Audio(s.out) == l.audio)
  {
    hide Feed, Audio, Reads, Whole, Presentable, Proper, Kept;
    s.SplitIndependent();
    WholeBlocks(l.interval, s.input);
    var rest := l.out[|s.input|..];
    assert l.out == s.input + rest;
    FeedOn(l.interval, Fresh, s.input, rest);
    AudioGrows(l.interval, Feed(l.interval, Fresh, s.input), rest);
  }

  /** The offset alone is kept, so a shorter block can be offered in the middle of a longer one: of 33 bytes begun, one
      has been sent when a block of 17 bytes takes their place. */
  lemma ChangedMidway(long: seq<byte>, short: Meta)
    requires Framed(long) && long[0] == 2 && Kept(short.data) && short.data[0] == 1 && short.ptr != 0
    ensures !Completes(long[..1], Offered(0, 1, Some(short)))
  {
  }
}
