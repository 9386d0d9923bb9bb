/** What the verdicts on Clusters mean, in terms of the stream and its elements alone: which track is the video track,
    and what the first video frame of each Cluster says. */
module EbmlVerdicts {
  import opened Bytes
  import opened EbmlVarInt
  import opened EbmlOnePass
  import opened EbmlElements

  // ----- the inside of elements

  predicate IsA(s: seq<byte>, e: Element, id: byte) {
    e.offset < |s| && s[e.offset] == id
  }

  /** A Cluster is none of the elements looked into. */
  lemma ClusterIsNone(s: seq<byte>, e: Element)
    requires ClusterAt(s, e.offset)
    ensures e.offset < |s| && s[e.offset] == 0x1F
  {
    var w := s[e.offset..];
    assert w[..4][0] == CLUSTER[0] == w[0];
  }

  /** The bytes behind the tag of an element. */
  function Body(s: seq<byte>, e: Element): seq<byte>
    requires Sized(s, e)
  {
    s[e.offset..][Tag(s[e.offset..]).len..]
  }

  /** The unsigned number that is the payload of an element. */
  function Number(s: seq<byte>, e: Element): Parse
    requires Sized(s, e)
  {
    var w := s[e.offset..];
    SizedInt(Body(s, e), Payload(w, Tag(w).len, Tag(w).value), false)
  }

  predicate IsVideoType(s: seq<byte>, e: Element)
    requires Sized(s, e)
  {
    IsA(s, e, TRACK_TYPE) && Number(s, e).Parsed? && Number(s, e).value % 2 == 1
  }

  predicate IsTrackNumber(s: seq<byte>, e: Element)
    requires Sized(s, e)
  {
    IsA(s, e, TRACK_NUMBER) && Number(s, e).Parsed?
  }

  /** A block of track `track`, with its flags in sight. */
  predicate IsBlockOf(s: seq<byte>, e: Element, track: nat)
    requires Sized(s, e)
  {
    && IsA(s, e, SIMPLE_BLOCK)
    && var b := VarInt(Body(s, e)); b.Parsed? && b.value == track && b.len + 2 < |Body(s, e)|
  }

  /** The flags of a block follow its track number and a two-byte time code; the top bit marks a keyframe. */
  function BlockVerdict(s: seq<byte>, e: Element): Verdict
    requires Sized(s, e) && VarInt(Body(s, e)).Parsed? && VarInt(Body(s, e)).len + 2 < |Body(s, e)|
  {
    if Body(s, e)[VarInt(Body(s, e)).len + 2] >= 0x80 then Keyframe else NotKeyframe
  }

  /** The inside of the elements looked into, byte by byte. */
  lemma InsideInWords(s: seq<byte>, e: Element, track: nat)
    requires Sized(s, e)
    ensures var w := s[e.offset..]; var tag := Tag(w); var all := tag.len + tag.value;
      && (IsA(s, e, TRACK_ENTRY) <==> [0xAE] <= w)
      && (IsTrackNumber(s, e) <==> [0xD7] <= w && 1 <= tag.value <= 8 && all < |w|)
      && (IsTrackNumber(s, e) ==> Number(s, e).value == BigEndian(0, w[tag.len..all]))
      && (IsVideoType(s, e) <==> [0x83] <= w && 1 <= tag.value <= 8 && all < |w| && w[all - 1] % 2 == 1)
      && var number := VarInt(w[tag.len..]); var at := if number.Parsed? then tag.len + number.len + 2 else |w|;
      && (IsBlockOf(s, e, track) <==> [0xA3] <= w && at < |w| && number.value == track)
      && (IsBlockOf(s, e, track) ==> BlockVerdict(s, e) == if w[at] >= 0x80 then Keyframe else NotKeyframe)
  {
    NumberInWords(s, e);
    BlockInWords(s, e, track);
  }

  lemma NumberInWords(s: seq<byte>, e: Element)
    requires Sized(s, e)
    ensures var w := s[e.offset..]; var tag := Tag(w); var all := tag.len + tag.value;
      && (IsA(s, e, TRACK_ENTRY) <==> [0xAE] <= w)
      && (IsTrackNumber(s, e) <==> [0xD7] <= w && 1 <= tag.value <= 8 && all < |w|)
      && (IsTrackNumber(s, e) ==> Number(s, e).value == BigEndian(0, w[tag.len..all]))
      && (IsVideoType(s, e) <==> [0x83] <= w && 1 <= tag.value <= 8 && all < |w| && w[all - 1] % 2 == 1)
  {
    hide Tag, VarInt, BigEndian, IsBlockOf, BlockVerdict;
    var w := s[e.offset..];
    var tag := Tag(w);
    MagicInWords(w, SEGMENT);
    MagicInWords(w, TRACKS);
    if 1 <= tag.value <= 8 && tag.len + tag.value < |w| {
      SizedIntTwosComplement(Body(s, e), tag.value);
      assert Body(s, e)[..tag.value] == w[tag.len..tag.len + tag.value];
      LowBit(w[tag.len..tag.len + tag.value]);
    }
  }

  lemma BlockInWords(s: seq<byte>, e: Element, track: nat)
    requires Sized(s, e)
    ensures var w := s[e.offset..]; var tag := Tag(w);
      var number := VarInt(w[tag.len..]); var at := if number.Parsed? then tag.len + number.len + 2 else |w|;
      && (IsBlockOf(s, e, track) <==> [0xA3] <= w && at < |w| && number.value == track)
      && (IsBlockOf(s, e, track) ==> BlockVerdict(s, e) == if w[at] >= 0x80 then Keyframe else NotKeyframe)
  {
    hide Tag, VarInt;
  }

  lemma LowBit(digits: seq<byte>)
    requires digits != []
    ensures BigEndian(0, digits) % 2 == digits[|digits| - 1] % 2
  {
  }

  // ----- the video track

  ghost predicate AllSized(s: seq<byte>, elements: seq<Element>) {
    forall k :: 0 <= k < |elements| ==> Sized(s, elements[k])
  }

  /** Where the description of the track at hand begins: behind the last TrackEntry among the first `n` elements. */
  function EntryStart(s: seq<byte>, elements: seq<Element>, n: nat): (k: nat)
    requires n <= |elements|
    ensures k <= n
    ensures forall i :: k <= i < n ==> !IsA(s, elements[i], TRACK_ENTRY)
    ensures k > 0 ==> IsA(s, elements[k - 1], TRACK_ENTRY)
  {
    if n == 0 then 0 else if IsA(s, elements[n - 1], TRACK_ENTRY) then n else EntryStart(s, elements, n - 1)
  }

  /** The last track number among elements `from` to `n`, UNKNOWN if there is none. */
  function NumberIn(s: seq<byte>, elements: seq<Element>, from: nat, n: nat): nat
    requires AllSized(s, elements) && n <= |elements|
  {
    if n <= from then UNKNOWN
    else if IsTrackNumber(s, elements[n - 1]) then Number(s, elements[n - 1]).value
    else NumberIn(s, elements, from, n - 1)
  }

  ghost predicate VideoIn(s: seq<byte>, elements: seq<Element>, from: nat, n: nat)
    requires AllSized(s, elements) && n <= |elements|
  {
    exists i :: from <= i < n && IsVideoType(s, elements[i])
  }

  /** The first `n` elements end in the description of a numbered video track. */
  ghost predicate DescribesVideo(s: seq<byte>, elements: seq<Element>, n: nat)
    requires AllSized(s, elements) && n <= |elements|
  {
    var from := EntryStart(s, elements, n);
    VideoIn(s, elements, from, n) && NumberIn(s, elements, from, n) != UNKNOWN
  }

  /** The video track is the first one found to be a video track and to have a number. */
  ghost predicate IsVideoTrack(s: seq<byte>, elements: seq<Element>, track: nat)
    requires AllSized(s, elements)
  {
    if track == UNKNOWN then forall n :: 0 <= n <= |elements| ==> !DescribesVideo(s, elements, n)
    else exists n :: 0 <= n <= |elements| && FirstVideo(s, elements, n, track)
  }

  ghost predicate FirstVideo(s: seq<byte>, elements: seq<Element>, n: nat, track: nat)
    requires AllSized(s, elements) && n <= |elements|
  {
    && DescribesVideo(s, elements, n)
    && track == NumberIn(s, elements, EntryStart(s, elements, n), n)
    && forall i :: 0 <= i < n ==> !DescribesVideo(s, elements, i)
  }

  // ----- the verdict on a Cluster

  /** Element `k` is a block of the video track, as known by then. */
  ghost predicate VideoBlock(s: seq<byte>, elements: seq<Element>, k: nat)
    requires AllSized(s, elements) && k < |elements|
  {
    exists track :: IsVideoTrack(s, elements[..k], track) && IsBlockOf(s, elements[k], track)
  }

  /** Element `k` is the first video block of the Cluster that element `a` is. */
  ghost predicate FirstBlock(s: seq<byte>, elements: seq<Element>, a: nat, k: nat)
    requires AllSized(s, elements) && k < |elements|
  {
    && a < k && VideoBlock(s, elements, k)
    && forall i :: a < i < k ==> !ClusterAt(s, elements[i].offset) && !VideoBlock(s, elements, i)
  }

  /** The verdict on the Cluster that element `a` is: that of its first video block, if it has one. */
  ghost predicate Judges(s: seq<byte>, elements: seq<Element>, a: nat, verdict: Verdict)
    requires AllSized(s, elements) && a < |elements|
  {
    if verdict == Undecided then forall k :: 0 <= k < |elements| ==> !FirstBlock(s, elements, a, k)
    else exists k :: 0 <= k < |elements| && FirstBlock(s, elements, a, k) && verdict == BlockVerdict(s, elements[k])
  }

  // ----- another element

  lemma SizedAppend(s: seq<byte>, elements: seq<Element>, e: Element)
    requires AllSized(s, elements) && Sized(s, e)
    ensures AllSized(s, elements + [e])
  {
  }

  lemma {:induction false} EntryStartSame(s: seq<byte>, elements: seq<Element>, e: Element, n: nat)
    requires n <= |elements|
    ensures EntryStart(s, elements + [e], n) == EntryStart(s, elements, n)
  {
    if n > 0 {
      EntryStartSame(s, elements, e, n - 1);
    }
  }

  lemma {:induction false} NumberInSame(s: seq<byte>, elements: seq<Element>, e: Element, from: nat, n: nat)
    requires AllSized(s, elements) && Sized(s, e) && n <= |elements|
    ensures AllSized(s, elements + [e]) && NumberIn(s, elements + [e], from, n) == NumberIn(s, elements, from, n)
  {
    hide IsTrackNumber, Number, Sized;
    SizedAppend(s, elements, e);
    if n > from {
      NumberInSame(s, elements, e, from, n - 1);
    }
  }

  lemma DescribesSame(s: seq<byte>, elements: seq<Element>, e: Element, n: nat)
    requires AllSized(s, elements) && Sized(s, e) && n <= |elements|
    ensures AllSized(s, elements + [e])
    ensures DescribesVideo(s, elements + [e], n) == DescribesVideo(s, elements, n)
  {
    hide IsVideoType, Sized;
    var from, all := EntryStart(s, elements, n), elements + [e];
    EntryStartSame(s, elements, e, n);
    NumberInSame(s, elements, e, from, n);
    if VideoIn(s, elements, from, n) {
      var i :| from <= i < n && IsVideoType(s, elements[i]);
      assert IsVideoType(s, all[i]);
    }
    if VideoIn(s, all, from, n) {
      var i :| from <= i < n && IsVideoType(s, all[i]);
      assert IsVideoType(s, elements[i]);
    }
  }

  /** Where the description of a track stands after one more element. */
  lemma DescribesNext(s: seq<byte>, elements: seq<Element>, e: Element)
    requires AllSized(s, elements) && Sized(s, e)
    ensures AllSized(s, elements + [e])
    ensures var n, all := |elements|, elements + [e];
      var from, from' := EntryStart(s, elements, n), EntryStart(s, all, n + 1);
      && from' == (if IsA(s, e, TRACK_ENTRY) then n + 1 else from)
      && NumberIn(s, all, from', n + 1) == (if IsA(s, e, TRACK_ENTRY) then UNKNOWN
                                            else if IsTrackNumber(s, e) then Number(s, e).value
                                            else NumberIn(s, elements, from, n))
      && (VideoIn(s, all, from', n + 1) <==>
            !IsA(s, e, TRACK_ENTRY) && (IsVideoType(s, e) || VideoIn(s, elements, from, n)))
  {
    hide IsA, IsTrackNumber, IsVideoType, Number, Sized, VideoIn;
    var n, all := |elements|, elements + [e];
    var from := EntryStart(s, elements, n);
    EntryStartSame(s, elements, e, n);
    NumberInSame(s, elements, e, from, n);
    VideoInNext(s, elements, e, from);
    NoneBehind(s, all);
  }

  lemma VideoInNext(s: seq<byte>, elements: seq<Element>, e: Element, from: nat)
    requires AllSized(s, elements) && Sized(s, e) && from <= |elements|
    ensures AllSized(s, elements + [e])
    ensures VideoIn(s, elements + [e], from, |elements| + 1) <==>
      IsVideoType(s, e) || VideoIn(s, elements, from, |elements|)
  {
    hide IsVideoType, Sized;
    var n, all := |elements|, elements + [e];
    if VideoIn(s, elements, from, n) {
      var i :| from <= i < n && IsVideoType(s, elements[i]);
      assert IsVideoType(s, all[i]);
    }
    if VideoIn(s, all, from, n + 1) {
      var i :| from <= i < n + 1 && IsVideoType(s, all[i]);
      assert i < n ==> IsVideoType(s, elements[i]);
    }
    if IsVideoType(s, e) {
      assert IsVideoType(s, all[n]);
    }
  }

  lemma NoneBehind(s: seq<byte>, elements: seq<Element>)
    requires AllSized(s, elements)
    ensures !VideoIn(s, elements, |elements|, |elements|)
  {
  }

  lemma TrackUnique(s: seq<byte>, elements: seq<Element>, t: nat, t': nat)
    requires AllSized(s, elements) && IsVideoTrack(s, elements, t) && IsVideoTrack(s, elements, t')
    ensures t == t'
  {
    if t != UNKNOWN && t' != UNKNOWN {
      var n :| 0 <= n <= |elements| && FirstVideo(s, elements, n, t);
      var n' :| 0 <= n' <= |elements| && FirstVideo(s, elements, n', t');
      assert n == n';
    }
  }

  /** A track already known stays the video track; otherwise the new element may settle it. */
  lemma TrackNext(s: seq<byte>, elements: seq<Element>, e: Element, t: nat)
    requires AllSized(s, elements) && Sized(s, e) && IsVideoTrack(s, elements, t)
    ensures AllSized(s, elements + [e])
    ensures var all := elements + [e]; var n := |all|;
      IsVideoTrack(s, all, if t == UNKNOWN && DescribesVideo(s, all, n)
                           then NumberIn(s, all, EntryStart(s, all, n), n) else t)
  {
    hide Sized, EntryStart, NumberIn, VideoIn;
    var all, n := elements + [e], |elements| + 1;
    SizedAppend(s, elements, e);
    forall i: nat | i < n
      ensures DescribesVideo(s, all, i) == DescribesVideo(s, elements, i)
    {
      DescribesSame(s, elements, e, i);
    }
    if t != UNKNOWN {
      var k :| 0 <= k <= |elements| && FirstVideo(s, elements, k, t);
      EntryStartSame(s, elements, e, k);
      NumberInSame(s, elements, e, EntryStart(s, elements, k), k);
      assert FirstVideo(s, all, k, t);
    } else if DescribesVideo(s, all, n) {
      assert FirstVideo(s, all, n, NumberIn(s, all, EntryStart(s, all, n), n));
    }
  }

  lemma FirstBlockSame(s: seq<byte>, elements: seq<Element>, e: Element, a: nat, k: nat)
    requires AllSized(s, elements) && Sized(s, e) && k < |elements|
    ensures AllSized(s, elements + [e]) && FirstBlock(s, elements + [e], a, k) == FirstBlock(s, elements, a, k)
  {
    hide Sized, IsVideoTrack, IsBlockOf, ClusterAt;
    var all := elements + [e];
    SizedAppend(s, elements, e);
    forall i: nat | i <= k
      ensures VideoBlock(s, all, i) == VideoBlock(s, elements, i) && all[i] == elements[i]
    {
      assert all[..i] == elements[..i];
    }
    hide VideoBlock;
  }

  /** No block so far, and none now: the verdict stays what it was. */
  lemma JudgesOn(s: seq<byte>, elements: seq<Element>, e: Element, a: nat, v: Verdict)
    requires AllSized(s, elements) && Sized(s, e) && a < |elements| && Judges(s, elements, a, v)
    requires AllSized(s, elements + [e]) && (v == Undecided ==> !FirstBlock(s, elements + [e], a, |elements|))
    ensures Judges(s, elements + [e], a, v)
  {
    var all := elements + [e];
    if v == Undecided {
      forall k: nat | k < |all|
        ensures !FirstBlock(s, all, a, k)
      {
        if k < |elements| {
          FirstBlockSame(s, elements, e, a, k);
        }
      }
    } else {
      var k :| 0 <= k < |elements| && FirstBlock(s, elements, a, k) && v == BlockVerdict(s, elements[k]);
      FirstBlockSame(s, elements, e, a, k);
      assert all[k] == elements[k];
    }
  }

  /** The first block is there if there is one at all. */
  lemma NoBlockYet(s: seq<byte>, elements: seq<Element>, a: nat, k: nat)
    requires AllSized(s, elements) && a < k < |elements| && Judges(s, elements, a, Undecided)
    requires forall i :: a < i < |elements| ==> !ClusterAt(s, elements[i].offset)
    ensures !VideoBlock(s, elements, k)
    decreases k
  {
    forall i | a < i < k
      ensures !VideoBlock(s, elements, i)
    {
      NoBlockYet(s, elements, a, i);
    }
    assert !FirstBlock(s, elements, a, k);
  }

  /** With no block so far, the new element is the first one exactly if it is a block of the video track. */
  lemma BlockNow(s: seq<byte>, elements: seq<Element>, e: Element, a: nat, track: nat)
    requires AllSized(s, elements) && Sized(s, e) && a < |elements| && Judges(s, elements, a, Undecided)
    requires forall i :: a < i < |elements| ==> !ClusterAt(s, elements[i].offset)
    requires IsVideoTrack(s, elements, track)
    ensures AllSized(s, elements + [e])
    ensures FirstBlock(s, elements + [e], a, |elements|) <==> IsBlockOf(s, e, track)
  {
    hide Sized, IsVideoTrack, IsBlockOf, ClusterAt;
    var all, n := elements + [e], |elements|;
    SizedAppend(s, elements, e);
    assert all[..n] == elements;
    forall i: nat | a < i < n
      ensures !VideoBlock(s, all, i) && !ClusterAt(s, all[i].offset)
    {
      NoBlockYet(s, elements, a, i);
      assert all[..i] == elements[..i];
    }
    if VideoBlock(s, all, n) {
      var t :| IsVideoTrack(s, all[..n], t) && IsBlockOf(s, all[n], t);
      TrackUnique(s, elements, t, track);
    }
  }

  // ----- the one-pass parser

  /** What the parser knows about tracks. */
  ghost predicate TracksKnown(m: Machine, s: seq<byte>) {
    && AllSized(s, m.elements)
    && var n := |m.elements|; var from := EntryStart(s, m.elements, n);
    && m.c.trackNumber == NumberIn(s, m.elements, from, n)
    && (m.c.trackIsVideo <==> VideoIn(s, m.elements, from, n))
    && IsVideoTrack(s, m.elements, m.c.videoTrack)
  }

  /** Which Cluster the element is. */
  function ClusterIndex(s: seq<byte>, elements: seq<Element>, a: nat): nat
    requires a <= |elements|
  {
    |ClusterOffsets(s, elements[..a])|
  }

  /** Every Cluster element has its Cluster, with the verdict it deserves. */
  ghost predicate VerdictsRight(m: Machine, s: seq<byte>) {
    && AllSized(s, m.elements)
    && forall a {:trigger Verdicted(m, s, a)} :: 0 <= a < |m.elements| && ClusterAt(s, m.elements[a].offset) ==>
          Verdicted(m, s, a)
  }

  ghost predicate Verdicted(m: Machine, s: seq<byte>, a: nat)
    requires a < |m.elements| && AllSized(s, m.elements)
  {
    var i := ClusterIndex(s, m.elements, a);
    i < |m.clusters| && m.clusters[i].offset == m.elements[a].offset && Judges(s, m.elements, a, m.clusters[i].verdict)
  }

  /** What the inside of an element changes in the parser's knowledge of tracks. */
  lemma ProbeTracks(m: Machine, s: seq<byte>, c: Control, e: Element)
    requires m.pos <= |s| && m.c.Parsing()
    requires Examine(m.c, s[m.pos..]) == Next(c) && !c.phase.StartCluster?
    requires e.offset == m.pos && Sized(s, e) && !ClusterAt(s, m.pos)
    ensures c.trackNumber == (if IsA(s, e, TRACK_ENTRY) then UNKNOWN
                              else if IsTrackNumber(s, e) then Number(s, e).value else m.c.trackNumber)
    ensures c.trackIsVideo <==> !IsA(s, e, TRACK_ENTRY) && (IsVideoType(s, e) || m.c.trackIsVideo)
    ensures c.videoTrack ==
      if m.c.videoTrack == UNKNOWN && c.trackIsVideo && c.trackNumber != UNKNOWN
        && (IsTrackNumber(s, e) || IsVideoType(s, e))
      then c.trackNumber else m.c.videoTrack
  {
    hide Payload, ElementSize, SizedInt, VarInt;
    var w := s[m.pos..];
    assert Probe(m.c, w, Tag(w).len, Payload(w, Tag(w).len, Tag(w).value)).Next?;
    assert Body(s, e) == w[Tag(w).len..];
    assert s[e.offset] == w[0];
  }

  lemma TracksNext(m: Machine, s: seq<byte>, c: Control, e: Element)
    requires m.pos <= |s| && m.c.Parsing() && TracksKnown(m, s)
    requires Examine(m.c, s[m.pos..]) == Next(c) && !c.phase.StartCluster?
    requires e == Element(m.pos, c.copyLen) && Sized(s, e) && !ClusterAt(s, m.pos)
    ensures TracksKnown(BeginCopy(m, c), s)
  {
    hide IsA, IsTrackNumber, IsVideoType, VideoIn, NumberIn, EntryStart, Examine, Sized, AllSized, ClusterAt;
    ProbeTracks(m, s, c, e);
    DescribesNext(s, m.elements, e);
    TrackNext(s, m.elements, e, m.c.videoTrack);
    assert m.c.videoTrack == UNKNOWN ==> !DescribesVideo(s, m.elements, |m.elements|);
  }

  lemma TracksStay(m: Machine, s: seq<byte>, e: Element)
    requires TracksKnown(m, s) && Sized(s, e) && ClusterAt(s, e.offset)
    ensures TracksKnown(m.(elements := m.elements + [e]), s)
  {
    hide Sized, EntryStart, NumberIn, VideoIn, ClusterAt;
    ClusterIsNone(s, e);
    DescribesNext(s, m.elements, e);
    TrackNext(s, m.elements, e, m.c.videoTrack);
    assert m.c.videoTrack == UNKNOWN ==> !DescribesVideo(s, m.elements, |m.elements|);
  }

  /** The last Cluster is the one no other follows. */
  lemma {:induction false} ClustersAfter(s: seq<byte>, elements: seq<Element>, a: nat)
    requires a < |elements| && ClusterAt(s, elements[a].offset)
    ensures ClusterIndex(s, elements, a) < |ClusterOffsets(s, elements)|
    ensures ClusterIndex(s, elements, a) + 1 == |ClusterOffsets(s, elements)| <==>
      forall i :: a < i < |elements| ==> !ClusterAt(s, elements[i].offset)
  {
    var n := |elements| - 1;
    if a < n {
      var before := elements[..n];
      assert before[..a] == elements[..a];
      ClustersAfter(s, before, a);
      if ClusterAt(s, elements[n].offset) {
      } else {
        assert forall i :: 0 <= i < n ==> before[i] == elements[i];
      }
    } else {
      assert elements[..a] == elements[..n];
    }
  }

  /** A block that is the first of the track watched gives the verdict; nothing else changes one. */
  lemma ProbeVerdict(m: Machine, s: seq<byte>, c: Control, e: Element)
    requires m.pos <= |s| && m.c.Parsing()
    requires Examine(m.c, s[m.pos..]) == Next(c) && !c.phase.StartCluster?
    requires e.offset == m.pos && Sized(s, e) && !ClusterAt(s, m.pos)
    ensures c.verdict == if m.c.verdict == Undecided && IsBlockOf(s, e, m.c.videoTrack)
                         then BlockVerdict(s, e) else m.c.verdict
  {
    hide Payload, ElementSize, SizedInt, VarInt;
    var w := s[m.pos..];
    assert Probe(m.c, w, Tag(w).len, Payload(w, Tag(w).len, Tag(w).value)).Next?;
    assert Body(s, e) == w[Tag(w).len..];
    assert s[e.offset] == w[0];
  }

  /** The last Cluster's verdict after an element that starts no Cluster. */
  lemma LastJudged(m: Machine, s: seq<byte>, c: Control, e: Element, a: nat)
    requires m.pos <= |s| && m.c.Parsing() && TracksKnown(m, s)
    requires Examine(m.c, s[m.pos..]) == Next(c) && !c.phase.StartCluster?
    requires e.offset == m.pos && Sized(s, e) && !ClusterAt(s, m.pos)
    requires a < |m.elements| && Judges(s, m.elements, a, m.c.verdict)
    requires forall i :: a < i < |m.elements| ==> !ClusterAt(s, m.elements[i].offset)
    ensures AllSized(s, m.elements + [e]) && Judges(s, m.elements + [e], a, c.verdict)
  {
    hide Examine, Sized, ClusterAt, Judges, IsBlockOf, BlockVerdict, IsVideoTrack, FirstBlock;
    var all, n := m.elements + [e], |m.elements|;
    ProbeVerdict(m, s, c, e);
    SizedAppend(s, m.elements, e);
    if m.c.verdict == Undecided {
      BlockNow(s, m.elements, e, a, m.c.videoTrack);
      if IsBlockOf(s, e, m.c.videoTrack) {
        assert all[n] == e;
        FirstJudges(s, all, a, n);
      } else {
        JudgesOn(s, m.elements, e, a, Undecided);
      }
    } else {
      JudgesOn(s, m.elements, e, a, m.c.verdict);
    }
  }

  lemma FirstJudges(s: seq<byte>, elements: seq<Element>, a: nat, k: nat)
    requires AllSized(s, elements) && a < k < |elements| && FirstBlock(s, elements, a, k)
    ensures VarInt(Body(s, elements[k])).Parsed? && VarInt(Body(s, elements[k])).len + 2 < |Body(s, elements[k])|
    ensures Judges(s, elements, a, BlockVerdict(s, elements[k]))
  {
  }

  /** The verdict on an earlier Cluster is settled, since a Cluster follows it. */
  lemma EarlierJudged(s: seq<byte>, elements: seq<Element>, e: Element, a: nat, b: nat, v: Verdict)
    requires AllSized(s, elements) && Sized(s, e) && a < |elements| && Judges(s, elements, a, v)
    requires a < b < |elements| && ClusterAt(s, elements[b].offset)
    ensures AllSized(s, elements + [e]) && Judges(s, elements + [e], a, v)
  {
    hide Sized, ClusterAt, VideoBlock, Judges;
    SizedAppend(s, elements, e);
    assert (elements + [e])[b] == elements[b];
    JudgesOn(s, elements, e, a, v);
  }

  lemma BeginCopyVerdicts(m: Machine, s: seq<byte>, c: Control, e: Element)
    requires m.pos <= |s| && m.c.Parsing() && TracksKnown(m, s) && VerdictsRight(m, s)
    requires |ClusterOffsets(s, m.elements)| == |m.clusters|
    requires m.clusters != [] ==> m.clusters[|m.clusters| - 1].verdict == m.c.verdict
    requires Examine(m.c, s[m.pos..]) == Next(c) && !c.phase.StartCluster?
    requires e == Element(m.pos, c.copyLen) && Sized(s, e) && !ClusterAt(s, m.pos)
    ensures VerdictsRight(BeginCopy(m, c), s)
  {
    hide Examine, Sized, TracksKnown, ClusterAt, ClusterOffsets, Judges;
    var m' := BeginCopy(m, c);
    SizedAppend(s, m.elements, e);
    forall a: nat | a < |m'.elements| && ClusterAt(s, m'.elements[a].offset)
      ensures Verdicted(m', s, a)
    {
      assert a < |m.elements| && m'.elements[a] == m.elements[a];
      assert Verdicted(m, s, a);
      assert m'.elements[..a] == m.elements[..a];
      ClustersAfter(s, m.elements, a);
      if ClusterIndex(s, m.elements, a) + 1 == |m.clusters| {
        LastJudged(m, s, c, e, a);
      } else {
        var b :| a < b < |m.elements| && ClusterAt(s, m.elements[b].offset);
        EarlierJudged(s, m.elements, e, a, b, m.clusters[ClusterIndex(s, m.elements, a)].verdict);
      }
    }
  }

  /** A Cluster that begins is no block of the one before it, and has none itself. */
  lemma ClusterNoBlock(s: seq<byte>, elements: seq<Element>, e: Element, a: nat)
    requires AllSized(s, elements) && Sized(s, e) && ClusterAt(s, e.offset)
    ensures AllSized(s, elements + [e]) && !FirstBlock(s, elements + [e], a, |elements|)
    ensures Judges(s, elements + [e], |elements|, Undecided)
  {
    hide Sized, AllSized, ClusterAt;
    SizedAppend(s, elements, e);
    ClusterIsNone(s, e);
    assert (elements + [e])[|elements|] == e;
  }

  lemma BeginClusterVerdicts(m: Machine, s: seq<byte>, tagLen: nat)
    requires m.pos <= |s| && VerdictsRight(m, s)
    requires |ClusterOffsets(s, m.elements)| == |m.clusters|
    requires Sized(s, Element(m.pos, tagLen)) && ClusterAt(s, m.pos)
    ensures VerdictsRight(BeginCluster(m, tagLen), s)
  {
    hide Sized, ClusterOffsets, Judges, FirstBlock;
    var m', e, n := BeginCluster(m, tagLen), Element(m.pos, tagLen), |m.elements|;
    SizedAppend(s, m.elements, e);
    forall a: nat | a < |m'.elements| && ClusterAt(s, m'.elements[a].offset)
      ensures Verdicted(m', s, a)
    {
      ClusterNoBlock(s, m.elements, e, a);
      if a < n {
        assert Verdicted(m, s, a);
        assert m'.elements[..a] == m.elements[..a];
        JudgesOn(s, m.elements, e, a, m.clusters[ClusterIndex(s, m.elements, a)].verdict);
      } else {
        assert m'.elements[..a] == m.elements;
      }
    }
  }

  lemma StepJudges(m: Machine, s: seq<byte>)
    requires WellFormed(m, s) && Recorded(m, s) && StepOf(m, s).Stepped?
    requires TracksKnown(m, s) && VerdictsRight(m, s)
    ensures TracksKnown(StepOf(m, s).m, s) && VerdictsRight(StepOf(m, s).m, s)
  {
    hide TracksKnown, VerdictsRight, Contiguous, ClusterOffsets;
    var m' := StepOf(m, s).m;
    assert |Offsets(m.clusters)| == |m.clusters|;
    if m.c.Parsing() {
      ExamineSizes(m.c, s[m.pos..]);
      if m'.c.phase.StartCluster? {
        SameRecords(m, m', s);
      } else {
        var e := Element(m.pos, m'.c.copyLen);
        TracksNext(m, s, m'.c, e);
        BeginCopyVerdicts(m, s, m'.c, e);
      }
    } else if m.c.phase.StartCluster? {
      var tagLen := Tag(s[m.pos..]).len;
      TracksStay(m, s, Element(m.pos, tagLen));
      TracksSame(m.(elements := m.elements + [Element(m.pos, tagLen)]), m', s);
      BeginClusterVerdicts(m, s, tagLen);
    } else {
      SameRecords(m, m', s);
    }
  }

  lemma TracksSame(m: Machine, m': Machine, s: seq<byte>)
    requires TracksKnown(m, s) && m'.elements == m.elements && m'.c.videoTrack == m.c.videoTrack
    requires m'.c.trackNumber == m.c.trackNumber && m'.c.trackIsVideo == m.c.trackIsVideo
    ensures TracksKnown(m', s)
  {
  }

  lemma SameRecords(m: Machine, m': Machine, s: seq<byte>)
    requires TracksKnown(m, s) && VerdictsRight(m, s)
    requires m'.elements == m.elements && m'.clusters == m.clusters && m'.c.videoTrack == m.c.videoTrack
    requires m'.c.trackNumber == m.c.trackNumber && m'.c.trackIsVideo == m.c.trackIsVideo
    ensures TracksKnown(m', s) && VerdictsRight(m', s)
  {
    hide Judges;
    TracksSame(m, m', s);
    forall a | 0 <= a < |m'.elements| && ClusterAt(s, m'.elements[a].offset)
      ensures Verdicted(m', s, a)
    {
      assert Verdicted(m, s, a);
    }
  }

  lemma {:induction false} RunJudges(m: Machine, s: seq<byte>)
    requires WellFormed(m, s) && Recorded(m, s) && TracksKnown(m, s) && VerdictsRight(m, s)
    ensures Run(m, s).Halted? ==> TracksKnown(Run(m, s).m, s) && VerdictsRight(Run(m, s).m, s)
    decreases |s| - m.pos, Rank(m)
  {
    hide TracksKnown, VerdictsRight, Recorded;
    match StepOf(m, s) {
      case Blocked =>
      case Failed =>
      case Stepped(m') =>
        StepRecords(m, s);
        StepJudges(m, s);
        RunJudges(m', s);
    }
  }

  /** The verdicts of the one-pass parser: the track it watches is the first numbered video track of the stream, and
      of each Cluster it says what the flags of that Cluster's first block of this track say. */
  lemma VerdictMeaning(s: seq<byte>)
    requires OnePass(s).Halted?
    ensures var m := OnePass(s).m;
      && AllSized(s, m.elements)
      && IsVideoTrack(s, m.elements, m.c.videoTrack)
      && forall a {:trigger Verdicted(m, s, a)} ::
        0 <= a < |m.elements| && ClusterAt(s, m.elements[a].offset) ==> Verdicted(m, s, a)
  {
    assert TracksKnown(Start, s);
    RunJudges(Start, s);
  }

  /** A Cluster has one verdict. */
  lemma VerdictUnique(s: seq<byte>, elements: seq<Element>, a: nat, v: Verdict, v': Verdict)
    requires AllSized(s, elements) && a < |elements| && Judges(s, elements, a, v) && Judges(s, elements, a, v')
    ensures v == v'
  {
    if v != Undecided && v' != Undecided {
      var k :| 0 <= k < |elements| && FirstBlock(s, elements, a, k) && v == BlockVerdict(s, elements[k]);
      var k' :| 0 <= k' < |elements| && FirstBlock(s, elements, a, k') && v' == BlockVerdict(s, elements[k']);
      assert k == k';
    }
  }
}
