/** A stream small enough to follow by hand: Tracks with one track, a Cluster with one block, and an empty Cluster. */
module EbmlSmallStream {
  import opened Bytes
  import opened EbmlVarInt
  import opened EbmlOnePass
  import opened EbmlStream
  import opened EbmlInvariants
  import opened EbmlRuns

  const LAST: seq<byte> := [0x1F, 0x43, 0xB6, 0x75, 0x80]

  /** The track has number `track` and type `kind`; the block is one of track `blockTrack` and has these flags. */
  function Small(track: byte, kind: byte, blockTrack: byte, flags: byte): seq<byte>
    requires blockTrack < 127
  {
    [0x16, 0x54, 0xAE, 0x6B, 0x88] + FromEntry(track, kind, blockTrack, flags)
  }

  function FromEntry(track: byte, kind: byte, blockTrack: byte, flags: byte): seq<byte>
    requires blockTrack < 127
  {
    [0xAE, 0x86] + ([0xD7, 0x81, track] + ([0x83, 0x81, kind] + FromCluster(blockTrack, flags)))
  }

  function FromCluster(blockTrack: byte, flags: byte): seq<byte>
    requires blockTrack < 127
  {
    [0x1F, 0x43, 0xB6, 0x75, 0x87] + ([0xA3, 0x85, 0x80 + blockTrack, 0x00, 0x00, flags, 0xFF] + LAST)
  }

  /** What the parser is to find out about the first Cluster. */
  function Expected(track: byte, kind: byte, blockTrack: byte, flags: byte): Verdict {
    if kind % 2 == 0 || blockTrack != track then Undecided else if flags >= 0x80 then Keyframe else NotKeyframe
  }

  // ----- reading tags

  lemma OneByte(b: byte, rest: seq<byte>)
    requires 0x80 <= b < 0xFF
    ensures VarInt([b] + rest) == Parsed(1, b - 0x80)
  {
    var w := [b] + rest;
    assert w[1..1] == [];
    assert Capacity(1) == 128;
  }

  /** A one-byte identifier and a one-byte size. */
  lemma ShortTag(id: byte, size: byte, rest: seq<byte>)
    requires 0x80 <= id < 0xFF && size < 0x7F
    ensures Tag([id, 0x80 + size] + rest) == Parsed(2, size)
  {
    var w := [id, 0x80 + size] + rest;
    assert w == [id] + ([0x80 + size] + rest);
    OneByte(id, [0x80 + size] + rest);
    OneByte(0x80 + size, rest);
    assert w[1..] == [0x80 + size] + rest;
  }

  /** A four-byte identifier and a one-byte size. */
  lemma LongTag(id: seq<byte>, size: byte, rest: seq<byte>)
    requires |id| == 4 && 0x10 <= id[0] < 0x20 && size < 0x7F
    ensures var w := id + [0x80 + size] + rest; Tag(w) == Parsed(5, size) && w[..4] == id && w[0] == id[0]
  {
    var w := id + [0x80 + size] + rest;
    assert w[4..] == [0x80 + size] + rest;
    OneByte(0x80 + size, rest);
  }

  // ----- one element after the other

  /** An element that is all there is copied. */
  function Past(m: Machine, c: Control): Machine {
    var phase := if c.phase.CopyingToHeader? then ParsingHeader else ParsingClusters;
    BeginCopy(m, c).(c := c.(copyLen := 0, phase := phase), pos := m.pos + c.copyLen)
  }

  lemma PassElement(m: Machine, s: seq<byte>, c: Control)
    requires WellFormed(m, s) && m.c.Parsing() && Examine(m.c, s[m.pos..]) == Next(c) && !c.phase.StartCluster?
    requires m.pos + c.copyLen <= |s| && |s| <= 131072
    ensures WellFormed(Past(m, c), s) && Run(m, s) == Run(Past(m, c), s)
  {
    var m1 := BeginCopy(m, c);
    assert StepOf(m, s) == Stepped(m1);
    assert Advance(m1, c.copyLen) == Past(m, c);
    assert StepOf(m1, s) == Stepped(Past(m, c));
  }

  function PastCluster(m: Machine): Machine {
    m.(c := m.c.(phase := ParsingClusters, copyLen := 0, verdict := Undecided), pos := m.pos + 5,
       elements := m.elements + [Element(m.pos, 5)], clusters := m.clusters + [Cluster(m.pos, Undecided)])
  }

  lemma PassCluster(m: Machine, s: seq<byte>, size: byte, rest: seq<byte>)
    requires WellFormed(m, s) && m.c.Parsing() && size < 0x7F
    requires s[m.pos..] == CLUSTER + [0x80 + size] + rest
    ensures WellFormed(PastCluster(m), s) && Run(m, s) == Run(PastCluster(m), s)
  {
    LongTag(CLUSTER, size, rest);
    var m1 := m.(c := m.c.(phase := StartCluster));
    var m2 := BeginCluster(m1, 5);
    assert StepOf(m, s) == Stepped(m1);
    assert StepOf(m1, s) == Stepped(m2);
    assert Advance(m2, 5) == PastCluster(m);
    assert StepOf(m2, s) == Stepped(PastCluster(m));
    assert Run(m, s) == Run(m1, s) == Run(m2, s);
  }

  // ----- the header

  lemma TracksExamined(c: Control, size: byte, rest: seq<byte>)
    requires c.phase.ParsingHeader? && size < 0x7F
    ensures Examine(c, TRACKS + [0x80 + size] + rest) == Next(c.(phase := CopyingToHeader, copyLen := 5))
  {
    LongTag(TRACKS, size, rest);
  }

  lemma EntryExamined(c: Control, size: byte, rest: seq<byte>)
    requires c.phase.ParsingHeader? && size < 0x7F
    ensures Examine(c, [0xAE, 0x80 + size] + rest) ==
      Next(c.(phase := CopyingToHeader, copyLen := 2, trackNumber := UNKNOWN, trackIsVideo := false))
  {
    ShortTag(0xAE, size, rest);
    assert ([0xAE, 0x80 + size] + rest)[2..] == rest;
  }

  lemma OneByteNumber(v: byte, rest: seq<byte>)
    requires rest != []
    ensures SizedInt([v] + rest, 1, false) == Parsed(1, v)
  {
    var w := [v] + rest;
    assert w[..1] == [v] && [v][..0] == [];
    assert BigEndian(0, [v]) == BigEndian(0, []) * 256 + v;
  }

  lemma NumberExamined(c: Control, v: byte, rest: seq<byte>)
    requires c.phase.ParsingHeader? && rest != [] && !c.trackIsVideo
    ensures Examine(c, [0xD7, 0x81, v] + rest) == Next(c.(phase := CopyingToHeader, copyLen := 3, trackNumber := v))
  {
    var w := [0xD7, 0x81, v] + rest;
    assert w == [0xD7, 0x80 + 1] + ([v] + rest);
    ShortTag(0xD7, 1, [v] + rest);
    assert w[2..] == [v] + rest;
    OneByteNumber(v, rest);
  }

  lemma TypeExamined(c: Control, v: byte, rest: seq<byte>)
    requires c.phase.ParsingHeader? && rest != [] && !c.trackIsVideo
    requires c.videoTrack == UNKNOWN && c.trackNumber != UNKNOWN
    ensures Examine(c, [0x83, 0x81, v] + rest) ==
      Next(c.(phase := CopyingToHeader, copyLen := 3, trackIsVideo := v % 2 == 1,
              videoTrack := if v % 2 == 1 then c.trackNumber else UNKNOWN))
  {
    var w := [0x83, 0x81, v] + rest;
    assert w == [0x83, 0x80 + 1] + ([v] + rest);
    ShortTag(0x83, 1, [v] + rest);
    assert w[2..] == [v] + rest;
    OneByteNumber(v, rest);
  }

  // ----- the block

  lemma BlockExamined(c: Control, track: byte, flags: byte, rest: seq<byte>)
    requires c.phase.ParsingClusters? && c.verdict == Undecided && track < 127
    ensures Examine(c, [0xA3, 0x85, 0x80 + track, 0x00, 0x00, flags, 0xFF] + rest) ==
      Next(c.(phase := CopyingToData, copyLen := 7,
              verdict := if track != c.videoTrack then Undecided else if flags >= 0x80 then Keyframe else NotKeyframe))
  {
    var body := [0x80 + track] + ([0x00, 0x00, flags, 0xFF] + rest);
    var w := [0xA3, 0x85, 0x80 + track, 0x00, 0x00, flags, 0xFF] + rest;
    assert w == [0xA3, 0x80 + 5] + body;
    ShortTag(0xA3, 5, body);
    assert w[2..] == body;
    OneByte(0x80 + track, [0x00, 0x00, flags, 0xFF] + rest);
  }

  // ----- the stream

  function HeaderDone(track: byte, kind: byte): Machine {
    Machine(Control(ParsingHeader, 0, NotKeyframe, if kind % 2 == 1 then track else UNKNOWN, track, kind % 2 == 1), 13,
            [Element(0, 5), Element(5, 2), Element(7, 3), Element(10, 3)], [])
  }

  /** What is left of the stream at each element. */
  lemma Rests(track: byte, kind: byte, blockTrack: byte, flags: byte)
    requires blockTrack < 127
    ensures var s, last := Small(track, kind, blockTrack, flags), FromCluster(blockTrack, flags);
      && |s| == 30 && s[0..] == TRACKS + [0x80 + 8] + s[5..] && s[5..] == [0xAE, 0x80 + 6] + s[7..]
      && s[7..] == [0xD7, 0x81, track] + s[10..] && s[10..] == [0x83, 0x81, kind] + last && s[13..] == last
    ensures var s := Small(track, kind, blockTrack, flags);
      && s[13..] == CLUSTER + [0x80 + 7] + s[18..]
      && s[18..] == [0xA3, 0x85, 0x80 + blockTrack, 0x00, 0x00, flags, 0xFF] + s[25..]
      && s[25..] == CLUSTER + [0x80 + 0] + [] && s[30..] == []
  {
    var s, last := Small(track, kind, blockTrack, flags), FromCluster(blockTrack, flags);
    var block := [0xA3, 0x85, 0x80 + blockTrack, 0x00, 0x00, flags, 0xFF];
    assert CLUSTER + [0x80 + 7] == [0x1F, 0x43, 0xB6, 0x75, 0x87] && last == CLUSTER + [0x80 + 7] + (block + LAST);
    assert TRACKS + [0x80 + 8] == [0x16, 0x54, 0xAE, 0x6B, 0x88] && CLUSTER + [0x80 + 0] + [] == LAST + [];
    assert s[0..] == s;
    Behind(s, 0, TRACKS + [0x80 + 8], FromEntry(track, kind, blockTrack, flags));
    Behind(s, 5, [0xAE, 0x80 + 6], [0xD7, 0x81, track] + ([0x83, 0x81, kind] + last));
    Behind(s, 7, [0xD7, 0x81, track], [0x83, 0x81, kind] + last);
    Behind(s, 10, [0x83, 0x81, kind], last);
    Behind(s, 13, CLUSTER + [0x80 + 7], block + LAST);
    Behind(s, 18, block, LAST);
    Behind(s, 25, LAST, []);
  }

  lemma Behind(s: seq<byte>, n: nat, a: seq<byte>, b: seq<byte>)
    requires n <= |s| && s[n..] == a + b
    ensures n + |a| <= |s| && s[n + |a|..] == b
  {
    assert s[n + |a|..] == s[n..][|a|..];
  }

  lemma HeaderRead(track: byte, kind: byte, blockTrack: byte, flags: byte)
    requires blockTrack < 127
    ensures var s := Small(track, kind, blockTrack, flags);
      WellFormed(HeaderDone(track, kind), s) && Run(Start, s) == Run(HeaderDone(track, kind), s)
  {
    hide Run, Examine, Small;
    var s := Small(track, kind, blockTrack, flags);
    Rests(track, kind, blockTrack, flags);
    hide FromCluster;
    TracksExamined(Initial, 8, s[5..]);
    PassElement(Start, s, Initial.(phase := CopyingToHeader, copyLen := 5));
    var m1 := Past(Start, Initial.(phase := CopyingToHeader, copyLen := 5));
    EntryExamined(m1.c, 6, s[7..]);
    var c2 := m1.c.(phase := CopyingToHeader, copyLen := 2, trackNumber := UNKNOWN, trackIsVideo := false);
    PassElement(m1, s, c2);
    TrackRead(Past(m1, c2), s, track, kind);
  }

  lemma TrackRead(m2: Machine, s: seq<byte>, track: byte, kind: byte)
    requires m2 == Machine(Initial, 7, [Element(0, 5), Element(5, 2)], []) && |s| == 30 && WellFormed(m2, s)
    requires s[7..] == [0xD7, 0x81, track] + s[10..] && s[10..] == [0x83, 0x81, kind] + s[13..]
    ensures WellFormed(HeaderDone(track, kind), s) && Run(m2, s) == Run(HeaderDone(track, kind), s)
  {
    hide Run, Examine;
    NumberExamined(m2.c, track, s[10..]);
    var c3 := m2.c.(phase := CopyingToHeader, copyLen := 3, trackNumber := track);
    PassElement(m2, s, c3);
    var m3 := Past(m2, c3);
    TypeExamined(m3.c, kind, s[13..]);
    var c4 := m3.c.(phase := CopyingToHeader, copyLen := 3, trackIsVideo := kind % 2 == 1,
                    videoTrack := if kind % 2 == 1 then track else UNKNOWN);
    PassElement(m3, s, c4);
    assert Past(m3, c4) == HeaderDone(track, kind);
  }

  /** Tracks and its TrackEntry are entered and the track in it found, so that the flags of the block decide about the
      Cluster if the block is one of this track and the track is video. */
  lemma SmallRead(track: byte, kind: byte, blockTrack: byte, flags: byte)
    requires blockTrack < 127
    ensures var r := OnePass(Small(track, kind, blockTrack, flags));
      && r.Halted? && r.m.clusters == [Cluster(13, Expected(track, kind, blockTrack, flags)), Cluster(25, Undecided)]
      && r.m.c.videoTrack == (if kind % 2 == 1 then track else UNKNOWN)
      && r.m.elements == [Element(0, 5), Element(5, 2), Element(7, 3), Element(10, 3),
                          Element(13, 5), Element(18, 7), Element(25, 5)]
  {
    hide Run, Examine, Small, FromCluster;
    var s := Small(track, kind, blockTrack, flags);
    Rests(track, kind, blockTrack, flags);
    HeaderRead(track, kind, blockTrack, flags);
    ClustersRead(HeaderDone(track, kind), s, blockTrack, flags);
  }

  lemma ClustersRead(m4: Machine, s: seq<byte>, blockTrack: byte, flags: byte)
    requires blockTrack < 127 && |s| == 30 && WellFormed(m4, s)
    requires m4.c.phase.ParsingHeader? && m4.c.copyLen == 0 && m4.pos == 13 && m4.clusters == []
    requires s[13..] == CLUSTER + [0x80 + 7] + s[18..]
    requires s[18..] == [0xA3, 0x85, 0x80 + blockTrack, 0x00, 0x00, flags, 0xFF] + s[25..]
    requires s[25..] == CLUSTER + [0x80 + 0] + [] && s[30..] == []
    ensures var verdict := if blockTrack != m4.c.videoTrack then Undecided
                           else if flags >= 0x80 then Keyframe else NotKeyframe;
      && Run(m4, s).Halted? && var m := Run(m4, s).m;
      && m.c.videoTrack == m4.c.videoTrack
      && m.clusters == [Cluster(13, verdict), Cluster(25, Undecided)]
      && m.elements == m4.elements + [Element(13, 5), Element(18, 7), Element(25, 5)]
  {
    hide Run, Examine;
    PassCluster(m4, s, 7, s[18..]);
    var m5 := PastCluster(m4);
    BlockExamined(m5.c, blockTrack, flags, s[25..]);
    var c6 := m5.c.(phase := CopyingToData, copyLen := 7,
                    verdict := if blockTrack != m5.c.videoTrack then Undecided
                               else if flags >= 0x80 then Keyframe else NotKeyframe);
    PassElement(m5, s, c6);
    var m6 := Past(m5, c6);
    PassCluster(m6, s, 0, []);
    EndReached(PastCluster(m6), s);
  }

  lemma EndReached(m: Machine, s: seq<byte>)
    requires WellFormed(m, s) && m.c.Parsing() && m.pos == |s|
    ensures Run(m, s) == Halted(m)
  {
    assert s[m.pos..] == [];
  }

  /** However the stream is cut up and drained: a chunk that begins with the first Cluster is handed out as a sync point
      if its block says keyframe, and as none if it says none; or else the block had not been seen. */
  lemma SmallSync(acts: seq<Action>, v: View, k: nat, track: byte, kind: byte, blockTrack: byte, flags: byte)
    requires blockTrack < 127 && RunsTo(acts, v) && Written(acts) == Small(track, kind, blockTrack, flags)
    requires k < |v.chunks| && v.chunks[k].offset == 13
    ensures var verdict := Expected(track, kind, blockTrack, flags);
      && (verdict != NotKeyframe ==> v.chunks[k].kind == ClusterStart)
      && (v.chunks[k].verdict != Undecided ==> (v.chunks[k].kind == ClusterStart <==> verdict == Keyframe))
  {
    hide RunsTo, Inv, Facts, OnePass, Small;
    SmallRead(track, kind, blockTrack, flags);
    RunFacts(acts, v);
    RefinesOnePass(acts, v);
    ChunkJudged(v, OnePass(Written(acts)).m, k, 0);
  }
}
