/** Audio with in-band metadata: after every `interval` bytes of audio comes one block whose first byte says how many
    times sixteen bytes follow it. Reading it is a fold over the bytes; writing it is interleaving. */
module IcyFrame {
  import opened Bytes

  /** What has been read: `since` bytes of audio after the last complete block, the block being read, and all audio
      and complete blocks so far. */
  datatype Frame = Frame(since: nat, block: seq<byte>, audio: seq<byte>, blocks: seq<seq<byte>>)

  const Fresh := Frame(0, [], [], [])

  /** How long a block that starts with `b` is. */
  function BlockLen(b: byte): nat {
    1 + 16 * b
  }

  /** A complete block. */
  predicate Framed(block: seq<byte>) {
    block != [] && |block| == BlockLen(block[0])
  }

  /** One byte is read. */
  function Step(interval: nat, f: Frame, b: byte): Frame {
    if f.since < interval then f.(since := f.since + 1, audio := f.audio + [b])
    else
      var block := f.block + [b];
      if |block| >= BlockLen(block[0]) then f.(since := 0, block := [], blocks := f.blocks + [block])
      else f.(block := block)
  }

  function Feed(interval: nat, f: Frame, s: seq<byte>): Frame {
    if s == [] then f else Step(interval, Feed(interval, f, s[..|s| - 1]), s[|s| - 1])
  }

  lemma {:induction false} FeedOn(interval: nat, f: Frame, a: seq<byte>, b: seq<byte>)
    ensures Feed(interval, f, a + b) == Feed(interval, Feed(interval, f, a), b)
  {
    if b == [] {
      assert a + b == a;
    } else {
      assert (a + b)[..|a + b| - 1] == a + b[..|b| - 1];
      FeedOn(interval, f, a, b[..|b| - 1]);
    }
  }

  /** Between two bytes: a block is begun only at its place, and is not complete. */
  predicate Proper(interval: nat, f: Frame) {
    && f.since <= interval
    && (f.block != [] ==> f.since == interval && |f.block| < BlockLen(f.block[0]))
    && forall i :: 0 <= i < |f.blocks| ==> Framed(f.blocks[i])
  }

  lemma {:induction false} FeedProper(interval: nat, f: Frame, s: seq<byte>)
    requires Proper(interval, f)
    ensures Proper(interval, Feed(interval, f, s))
  {
    if s != [] {
      FeedProper(interval, f, s[..|s| - 1]);
    }
  }

  /** Audio up to the next block is taken as it is. */
  lemma {:induction false} FeedAudio(interval: nat, f: Frame, s: seq<byte>)
    requires f.since + |s| <= interval
    ensures Feed(interval, f, s) == f.(since := f.since + |s|, audio := f.audio + s)
  {
    if s == [] {
      assert f.audio + s == f.audio;
    } else {
      FeedAudio(interval, f, s[..|s| - 1]);
      assert f.audio + s == f.audio + s[..|s| - 1] + [s[|s| - 1]];
    }
  }

  /** Bytes of a block that do not complete it. */
  lemma {:induction false} FeedPart(interval: nat, f: Frame, s: seq<byte>)
    requires f.since == interval && f.block + s != [] && |f.block + s| < BlockLen((f.block + s)[0])
    ensures Feed(interval, f, s) == f.(block := f.block + s)
  {
    if s == [] {
      assert f.block + s == f.block;
    } else {
      var t := s[..|s| - 1];
      assert f.block + s == f.block + t + [s[|s| - 1]];
      if f.block + t != [] {
        FeedPart(interval, f, t);
      } else {
        assert t == [];
      }
    }
  }

  /** The bytes that complete a block. */
  lemma FeedBlock(interval: nat, f: Frame, s: seq<byte>)
    requires f.since == interval && s != [] && Framed(f.block + s)
    ensures Feed(interval, f, s) == f.(since := 0, block := [], blocks := f.blocks + [f.block + s])
  {
    var t := s[..|s| - 1];
    assert f.block + s == f.block + t + [s[|s| - 1]];
    if f.block + t != [] {
      FeedPart(interval, f, t);
    } else {
      assert t == [];
    }
  }

  // ----- the format

  function Flat(blocks: seq<seq<byte>>): seq<byte> {
    if blocks == [] then [] else Flat(blocks[..|blocks| - 1]) + blocks[|blocks| - 1]
  }

  /** The stream: after each `interval` bytes of audio one of the blocks, then the audio that is left. */
  function Interleave(interval: nat, audio: seq<byte>, blocks: seq<seq<byte>>): seq<byte>
    requires interval * |blocks| <= |audio|
    decreases |blocks|
  {
    if blocks == [] then audio
    else
      var n := interval * (|blocks| - 1);
      Interleave(interval, audio[..n + interval], blocks[..|blocks| - 1]) + blocks[|blocks| - 1] + audio[n + interval..]
  }

  lemma InterleaveMore(interval: nat, audio: seq<byte>, blocks: seq<seq<byte>>, more: seq<byte>)
    requires interval * |blocks| <= |audio|
    ensures Interleave(interval, audio + more, blocks) == Interleave(interval, audio, blocks) + more
  {
    if blocks != [] {
      var n := interval * (|blocks| - 1);
      assert n + interval == interval * |blocks|;
      assert (audio + more)[..n + interval] == audio[..n + interval];
      assert (audio + more)[n + interval..] == audio[n + interval..] + more;
      Regroup(Interleave(interval, audio[..n + interval], blocks[..|blocks| - 1]) + blocks[|blocks| - 1],
              audio[n + interval..], more);
    }
  }

  lemma InterleaveBlock(interval: nat, audio: seq<byte>, blocks: seq<seq<byte>>, block: seq<byte>)
    requires interval * (|blocks| + 1) == |audio|
    ensures interval * |blocks| <= |audio|
    ensures Interleave(interval, audio, blocks + [block]) == Interleave(interval, audio, blocks) + block
  {
    assert interval * |blocks| + interval == |audio|;
    assert (blocks + [block])[..|blocks|] == blocks;
    assert audio[..|audio|] == audio;
    Shifted(Interleave(interval, audio, blocks) + block, audio);
  }

  lemma Shifted(s: seq<byte>, audio: seq<byte>)
    ensures s + audio[|audio|..] == s
  {
  }

  /** The stream consists of this audio and these blocks, and at the end of what has been read of the next block. */
  predicate Reads(interval: nat, s: seq<byte>, f: Frame) {
    && Proper(interval, f)
    && |f.audio| == interval * |f.blocks| + f.since
    && s == Interleave(interval, f.audio, f.blocks) + f.block
  }

  /** What reading a stream finds is what it is made of: after every `interval` bytes of audio one complete block of
      1 + 16n bytes, and at the end at most `interval` bytes of audio and maybe the beginning of a block. */
  lemma {:induction false} FrameMeaning(interval: nat, s: seq<byte>)
    requires interval > 0
    ensures Reads(interval, s, Feed(interval, Fresh, s))
  {
    if s != [] {
      var t, b := s[..|s| - 1], s[|s| - 1];
      FrameMeaning(interval, t);
      StepMeaning(interval, Feed(interval, Fresh, t), t, b);
      assert s == t + [b];
    }
  }

  lemma StepMeaning(interval: nat, f: Frame, t: seq<byte>, b: byte)
    requires interval > 0 && Reads(interval, t, f)
    ensures Reads(interval, t + [b], Step(interval, f, b))
  {
    var block := f.block + [b];
    var head := Interleave(interval, f.audio, f.blocks);
    if f.since < interval {
      InterleaveMore(interval, f.audio, f.blocks, [b]);
      assert t == head && f.block == [];
    } else {
      Regroup(head, f.block, [b]);
      if |block| >= BlockLen(block[0]) {
        assert |block| == BlockLen(block[0]);
        assert interval * (|f.blocks| + 1) == interval * |f.blocks| + interval;
        InterleaveBlock(interval, f.audio, f.blocks, block);
      }
    }
  }

  /** Conversely, reading what was written gives back exactly the audio and the blocks. */
  lemma {:induction false} ReadsBack(interval: nat, audio: seq<byte>, blocks: seq<seq<byte>>)
    requires interval > 0 && interval * |blocks| <= |audio| <= interval * (|blocks| + 1)
    requires forall i :: 0 <= i < |blocks| ==> Framed(blocks[i])
    ensures Feed(interval, Fresh, Interleave(interval, audio, blocks))
      == Frame(|audio| - interval * |blocks|, [], audio, blocks)
    decreases |blocks|
  {
    if blocks == [] {
      FeedAudio(interval, Fresh, audio);
      assert [] + audio == audio;
    } else {
      hide Feed, Interleave;
      var n := interval * (|blocks| - 1);
      Times(interval, |blocks|);
      var before, last, rest := audio[..n + interval], blocks[|blocks| - 1], audio[n + interval..];
      InterleaveLast(interval, audio, blocks);
      ReadsBack(interval, before, blocks[..|blocks| - 1]);
      var most := blocks[..|blocks| - 1];
      ReadOn(interval, Interleave(interval, before, most), before, most, last, rest);
      assert blocks[..|blocks| - 1] + [last] == blocks && before + rest == audio;
    }
  }

  lemma Times(interval: nat, k: nat)
    requires k > 0
    ensures interval * k == interval * (k - 1) + interval
    ensures interval * (k + 1) == interval * k + interval
  {
  }

  lemma InterleaveLast(interval: nat, audio: seq<byte>, blocks: seq<seq<byte>>)
    requires blocks != [] && interval * |blocks| <= |audio|
    ensures var n, last := interval * (|blocks| - 1), |blocks| - 1;
      n + interval == interval * |blocks|
      && Interleave(interval, audio, blocks)
         == Interleave(interval, audio[..n + interval], blocks[..last]) + blocks[last] + audio[n + interval..]
  {
  }

  lemma ReadOn(interval: nat, head: seq<byte>, audio: seq<byte>, blocks: seq<seq<byte>>, block: seq<byte>,
               rest: seq<byte>)
    requires Feed(interval, Fresh, head) == Frame(interval, [], audio, blocks) && Framed(block) && |rest| <= interval
    ensures Feed(interval, Fresh, head + block + rest) == Frame(|rest|, [], audio + rest, blocks + [block])
  {
    hide Feed;
    assert [] + block == block;
    FeedBlock(interval, Frame(interval, [], audio, blocks), block);
    FeedOn(interval, Fresh, head, block);
    FeedOn(interval, Fresh, head + block, rest);
    FeedAudio(interval, Frame(0, [], audio, blocks + [block]), rest);
  }
}
