/** Which streams the one-pass parser rejects, in terms of the stream alone. */
module EbmlAccepted {
  import opened Bytes
  import opened EbmlVarInt
  import opened EbmlOnePass
  import opened EbmlElements
  import opened EbmlVerdicts

  /** The last Cluster among these elements has had no block of the video track yet. */
  ghost predicate InOpenCluster(s: seq<byte>, elements: seq<Element>)
    requires AllSized(s, elements)
  {
    exists a :: 0 <= a < |elements| && LastCluster(s, elements, a) && Judges(s, elements, a, Undecided)
  }

  predicate LastCluster(s: seq<byte>, elements: seq<Element>, a: nat)
    requires a < |elements|
  {
    ClusterAt(s, elements[a].offset) && forall i :: a < i < |elements| ==> !ClusterAt(s, elements[i].offset)
  }

  /** A SimpleBlock that is looked into. */
  ghost predicate Probed(s: seq<byte>, before: seq<Element>, w: seq<byte>)
    requires AllSized(s, before)
  {
    [0xA3] <= w && InOpenCluster(s, before)
  }

  /** A TrackNumber or TrackType. */
  predicate Numeric(w: seq<byte>) {
    [0xD7] <= w || [0x83] <= w
  }

  /** What the parser wants to know of the element behind these it can see: of a block in a Cluster still without
      verdict the track number, and the flags if it is the video track's; and a track's number or type and one byte
      more. */
  ghost predicate Legible(s: seq<byte>, before: seq<Element>, p: nat)
    requires AllSized(s, before) && p <= |s| && Tag(s[p..]).Parsed?
  {
    var w := s[p..];
    var body := w[Tag(w).len..];
    && (Probed(s, before, w) ==>
          && VarInt(body).Parsed?
          && (IsVideoTrack(s, before, VarInt(body).value) ==> VarInt(body).len + 2 < |body|))
    && (Numeric(w) ==> 1 <= Tag(w).value <= 8 && Tag(w).value < |body|)
  }

  /** There is no making sense of what follows: no identifier or size, or a block without a track number in a Cluster
      without verdict, or a track's number or type of other than one to eight bytes. */
  ghost predicate Senseless(s: seq<byte>, before: seq<Element>, p: nat)
    requires AllSized(s, before) && p <= |s|
  {
    var w := s[p..];
    || Tag(w).Malformed?
    || (Tag(w).Parsed? &&
        ((Probed(s, before, w) && VarInt(w[Tag(w).len..]).Malformed?) || (Numeric(w) && !(1 <= Tag(w).value <= 8))))
  }

  /** The stream can be read as these elements, one behind the other. */
  ghost predicate Read(s: seq<byte>, elements: seq<Element>) {
    && Contiguous(s, elements)
    && AllSized(s, elements)
    && forall k {:trigger elements[k]} :: 0 <= k < |elements| ==> LegibleAt(s, elements, k)
  }

  ghost predicate LegibleAt(s: seq<byte>, elements: seq<Element>, k: nat)
    requires AllSized(s, elements) && k < |elements|
  {
    Legible(s, elements[..k], elements[k].offset)
  }

  /** There is no Cluster yet, and too much of a header: 131072 bytes are the limit. */
  ghost predicate TooLong(s: seq<byte>, elements: seq<Element>) {
    && (forall i :: 0 <= i < |elements| ==> !ClusterAt(s, elements[i].offset))
    && EndOf(elements) > 131072 && |s| > 131072
  }

  /** Behind these elements there is something wrong. */
  ghost predicate Wrong(s: seq<byte>, elements: seq<Element>) {
    && Read(s, elements)
    && (TooLong(s, elements) || (EndOf(elements) <= |s| && Senseless(s, elements, EndOf(elements))))
  }

  // ----- the parser's view of it

  /** What the parser has recorded it has read. */
  ghost predicate Knows(m: Machine, s: seq<byte>) {
    && WellFormed(m, s) && Recorded(m, s) && TracksKnown(m, s) && VerdictsRight(m, s) && Read(s, m.elements)
  }

  lemma {:induction false} NoClusters(s: seq<byte>, elements: seq<Element>)
    ensures ClusterOffsets(s, elements) == [] <==> forall i :: 0 <= i < |elements| ==> !ClusterAt(s, elements[i].offset)
  {
    if elements != [] {
      var before := elements[..|elements| - 1];
      NoClusters(s, before);
      assert forall i :: 0 <= i < |before| ==> before[i] == elements[i];
    }
  }

  lemma {:induction false} FindLast(s: seq<byte>, elements: seq<Element>) returns (a: nat)
    requires ClusterOffsets(s, elements) != []
    ensures a < |elements| && LastCluster(s, elements, a)
  {
    hide ClusterAt;
    var before, e := elements[..|elements| - 1], elements[|elements| - 1];
    if ClusterAt(s, e.offset) {
      a := |elements| - 1;
    } else {
      a := FindLast(s, before);
      assert forall i :: 0 <= i < |before| ==> before[i] == elements[i];
    }
  }

  /** The parser looks for a verdict exactly in such a Cluster. */
  lemma OpenIffUndecided(m: Machine, s: seq<byte>)
    requires WellFormed(m, s) && Recorded(m, s) && VerdictsRight(m, s)
    ensures AllSized(s, m.elements) && (InOpenCluster(s, m.elements) <==> m.c.verdict == Undecided)
  {
    hide Contiguous, EndOf, Judges, AllSized;
    assert |Offsets(m.clusters)| == |m.clusters|;
    NoClusters(s, m.elements);
    if m.clusters != [] {
      var a := FindLast(s, m.elements);
      LastVerdict(m, s, a);
      if InOpenCluster(s, m.elements) {
        var b :| 0 <= b < |m.elements| && LastCluster(s, m.elements, b) && Judges(s, m.elements, b, Undecided);
        assert a == b;
        VerdictUnique(s, m.elements, a, Undecided, m.c.verdict);
      }
    }
  }

  lemma LastVerdict(m: Machine, s: seq<byte>, a: nat)
    requires VerdictsRight(m, s) && a < |m.elements| && LastCluster(s, m.elements, a)
    requires |m.clusters| == |ClusterOffsets(s, m.elements)|
    requires m.clusters != [] && m.clusters[|m.clusters| - 1].verdict == m.c.verdict
    ensures AllSized(s, m.elements) && Judges(s, m.elements, a, m.c.verdict)
  {
    hide Judges, ClusterAt, ClusterOffsets;
    assert Verdicted(m, s, a);
    ClustersAfter(s, m.elements, a);
  }

  /** What the parser makes of an element. */
  lemma ExamineInWords(m: Machine, s: seq<byte>)
    requires WellFormed(m, s) && m.c.Parsing() && AllSized(s, m.elements)
    requires IsVideoTrack(s, m.elements, m.c.videoTrack)
    requires InOpenCluster(s, m.elements) <==> m.c.verdict == Undecided
    ensures var w := s[m.pos..]; var r := Examine(m.c, w);
      && (r.Fail? <==> Senseless(s, m.elements, m.pos))
      && (r.Next? <==> Tag(w).Parsed? && Legible(s, m.elements, m.pos))
  {
    hide IsVideoTrack, InOpenCluster;
    var w := s[m.pos..];
    if Tag(w).Parsed? {
      MagicInWords(w, CLUSTER);
      MagicInWords(w, SEGMENT);
      MagicInWords(w, TRACKS);
      var body := w[Tag(w).len..];
      if Numeric(w) {
        assert Payload(w, Tag(w).len, Tag(w).value) == if Tag(w).value == UNKNOWN then 0 else Tag(w).value;
      }
      if VarInt(body).Parsed? {
        var t := VarInt(body).value;
        if IsVideoTrack(s, m.elements, t) {
          TrackUnique(s, m.elements, t, m.c.videoTrack);
        }
      }
    }
  }
  lemma ReadOn(s: seq<byte>, elements: seq<Element>, e: Element)
    requires Read(s, elements) && Contiguous(s, elements + [e]) && e.offset <= |s| && Tag(s[e.offset..]).Parsed?
    requires Legible(s, elements, e.offset)
    ensures Read(s, elements + [e])
  {
    hide Legible, Sized;
    var all := elements + [e];
    assert Contiguous(s, all);
    forall k | 0 <= k < |all|
      ensures Sized(s, all[k])
    {
    }
    assert AllSized(s, all);
    forall k | 0 <= k < |all|
      ensures LegibleAt(s, all, k)
    {
      assert k < |elements| ==> LegibleAt(s, elements, k);
      assert all[..k] == if k < |elements| then elements[..k] else elements;
    }
  }

  lemma StepKnows(m: Machine, s: seq<byte>)
    requires Knows(m, s) && StepOf(m, s).Stepped?
    ensures Knows(StepOf(m, s).m, s)
  {
    hide TracksKnown, VerdictsRight, Contiguous, Read, Legible, ClusterOffsets;
    var m' := StepOf(m, s).m;
    StepRecords(m, s);
    StepJudges(m, s);
    assert Read(s, m'.elements) by {
      if m.c.Parsing() && !m'.c.phase.StartCluster? {
        StepLegible(m, s);
        ReadOn(s, m.elements, Element(m.pos, m'.c.copyLen));
      } else if m.c.phase.StartCluster? {
        ClusterLegible(m, s);
        ReadOn(s, m.elements, Element(m.pos, Tag(s[m.pos..]).len));
      }
    }
  }

  lemma StepLegible(m: Machine, s: seq<byte>)
    requires Knows(m, s) && m.c.Parsing() && StepOf(m, s).Stepped?
    ensures AllSized(s, m.elements) && Tag(s[m.pos..]).Parsed? && Legible(s, m.elements, m.pos)
  {
    hide VerdictsRight, Contiguous, Read, Legible, ClusterOffsets, InOpenCluster, IsVideoTrack;
    OpenIffUndecided(m, s);
    TrackKnown(m, s);
    ExamineInWords(m, s);
  }

  lemma TrackKnown(m: Machine, s: seq<byte>)
    requires TracksKnown(m, s)
    ensures AllSized(s, m.elements) && IsVideoTrack(s, m.elements, m.c.videoTrack)
  {
  }

  /** A Cluster's own tag is all there is to see. */
  lemma ClusterLegible(m: Machine, s: seq<byte>)
    requires Knows(m, s) && m.c.phase.StartCluster?
    ensures AllSized(s, m.elements) && Tag(s[m.pos..]).Parsed? && Legible(s, m.elements, m.pos)
  {
    hide TracksKnown, VerdictsRight, Contiguous, ClusterOffsets, InOpenCluster;
    var w := s[m.pos..];
    assert w[..4][0] == CLUSTER[0] == w[0];
  }

  lemma {:induction false} ErrorFound(m: Machine, s: seq<byte>) returns (elements: seq<Element>)
    requires WellFormed(m, s) && Knows(m, s) && Run(m, s).Error?
    ensures Wrong(s, elements)
    decreases |s| - m.pos, Rank(m)
  {
    hide Knows, Wrong;
    match StepOf(m, s) {
      case Blocked =>
      case Failed =>
        elements := m.elements;
        FailedWrong(m, s);
      case Stepped(m') =>
        StepKnows(m, s);
        elements := ErrorFound(m', s);
    }
  }

  lemma FailedWrong(m: Machine, s: seq<byte>)
    requires Knows(m, s) && StepOf(m, s).Failed?
    ensures Wrong(s, m.elements)
  {
    hide VerdictsRight, Contiguous, Senseless, ClusterOffsets, InOpenCluster, IsVideoTrack, EndOf, Legible;
    OpenIffUndecided(m, s);
    TrackKnown(m, s);
    if m.c.Parsing() {
      ExamineInWords(m, s);
    } else {
      NoClusters(s, m.elements);
      assert |Offsets(m.clusters)| == |m.clusters|;
    }
  }

  /** Elements that can be read are the ones the parser comes to. */
  lemma {:induction false} WrongStops(m: Machine, s: seq<byte>, elements: seq<Element>)
    requires WellFormed(m, s) && Knows(m, s) && Wrong(s, elements) && m.elements <= elements
    requires m.c.phase.StartCluster? ==> m.elements < elements
    ensures Run(m, s).Error?
    decreases |s| - m.pos, Rank(m)
  {
    hide Knows, Wrong;
    NotBlocked(m, s, elements);
    match StepOf(m, s) {
      case Blocked =>
      case Failed =>
      case Stepped(m') =>
        StepKnows(m, s);
        WrongStops(m', s, elements);
    }
  }

  /** On its way to what is wrong the parser does not stop. */
  lemma NotBlocked(m: Machine, s: seq<byte>, elements: seq<Element>)
    requires WellFormed(m, s) && Knows(m, s) && Wrong(s, elements) && m.elements <= elements
    requires m.c.phase.StartCluster? ==> m.elements < elements
    ensures !StepOf(m, s).Blocked?
    ensures StepOf(m, s).Stepped? ==>
      var m' := StepOf(m, s).m; m'.elements <= elements && (m'.c.phase.StartCluster? ==> m'.elements < elements)
  {
    hide Knows, Read, TooLong, Senseless, EndOf;
    if m.elements < elements {
      NextMatches(m, s, elements);
    } else {
      assert m.elements == elements;
      AtTheEnd(m, s);
    }
  }

  /** The next of the elements is the one the parser comes to. */
  lemma NextMatches(m: Machine, s: seq<byte>, elements: seq<Element>)
    requires WellFormed(m, s) && Knows(m, s) && Read(s, elements) && m.elements < elements
    ensures !StepOf(m, s).Blocked?
    ensures StepOf(m, s).Stepped? ==>
      var m' := StepOf(m, s).m; m'.elements <= elements && (m'.c.phase.StartCluster? ==> m'.elements < elements)
  {
    hide TracksKnown, VerdictsRight, Contiguous, ClusterOffsets, InOpenCluster, IsVideoTrack, Legible, EndOf, Sized;
    var k := |m.elements|;
    var e := elements[k];
    NextThere(s, elements, k);
    assert elements[..k] == m.elements;
    if m.c.Parsing() {
      OpenIffUndecided(m, s);
      TrackKnown(m, s);
      ExamineInWords(m, s);
      ExamineSizes(m.c, s[m.pos..]);
      assert !StepOf(m, s).m.c.phase.StartCluster? ==> StepOf(m, s).m.elements == elements[..k] + [e];
    } else if m.c.phase.StartCluster? {
      assert StepOf(m, s).m.elements == elements[..k] + [e];
    } else {
      assert e.offset == m.pos + m.c.copyLen <= |s|;
    }
  }

  lemma NextThere(s: seq<byte>, elements: seq<Element>, k: nat)
    requires Read(s, elements) && k < |elements|
    ensures var e := elements[k];
      && e.offset == EndOf(elements[..k]) && e.offset <= |s| && Tag(s[e.offset..]).Parsed?
      && e.size == ElementSize(s[e.offset..]) && AllSized(s, elements[..k]) && Legible(s, elements[..k], e.offset)
  {
    assert Sized(s, elements[k]) && LegibleAt(s, elements, k);
  }

  /** Behind the last of them the parser stops with an error. */
  lemma AtTheEnd(m: Machine, s: seq<byte>)
    requires WellFormed(m, s) && Knows(m, s) && Wrong(s, m.elements) && !m.c.phase.StartCluster?
    ensures !StepOf(m, s).Blocked?
    ensures StepOf(m, s).Stepped? ==> StepOf(m, s).m.elements == m.elements && !StepOf(m, s).m.c.phase.StartCluster?
  {
    hide TracksKnown, VerdictsRight, Contiguous, InOpenCluster, IsVideoTrack, Legible, EndOf, Senseless, Read;
    hide ClusterOffsets, TooLong;
    if TooLong(s, m.elements) {
      HeaderBound(m, s);
    } else if m.c.Parsing() {
      OpenIffUndecided(m, s);
      TrackKnown(m, s);
      ExamineInWords(m, s);
    }
  }

  lemma HeaderBound(m: Machine, s: seq<byte>)
    requires WellFormed(m, s) && Recorded(m, s) && TooLong(s, m.elements) && !m.c.phase.StartCluster?
    ensures m.c.phase.CopyingToHeader? && m.pos <= 131072 < |s| && m.pos + m.c.copyLen > 131072
  {
    hide Contiguous, EndOf;
    NoClusters(s, m.elements);
    assert |Offsets(m.clusters)| == |m.clusters|;
  }

  /** A stream is rejected exactly if it can be read as some elements behind which there is something wrong. */
  lemma RejectedIff(s: seq<byte>)
    ensures OnePass(s).Error? <==> exists elements :: Wrong(s, elements)
  {
    hide Wrong;
    StartKnows(s);
    if OnePass(s).Error? {
      var elements := ErrorFound(Start, s);
    } else if elements :| Wrong(s, elements) {
      WrongStops(Start, s, elements);
    }
  }

  lemma StartKnows(s: seq<byte>)
    ensures Knows(Start, s)
  {
  }
}
