/** The EBML splitter as a one-pass parser of a byte stream: which elements it sees, which bytes go to
    the header, where the Clusters are and what it finds out about each. Nothing here knows about
    buffers; module EbmlStream and class EbmlParser refine it. */
module EbmlOnePass {
  import opened Bytes
  import opened EbmlVarInt

  const HEADER_MAX: nat := 131072
  const SEGMENT: seq<byte> := [0x18, 0x53, 0x80, 0x67]
  const CLUSTER: seq<byte> := [0x1F, 0x43, 0xB6, 0x75]
  const TRACKS: seq<byte> := [0x16, 0x54, 0xAE, 0x6B]
  const TRACK_ENTRY: byte := 0xAE
  const TRACK_NUMBER: byte := 0xD7
  const TRACK_TYPE: byte := 0x83
  const SIMPLE_BLOCK: byte := 0xA3

  datatype Phase = ParsingHeader | CopyingToHeader | StartCluster | ParsingClusters | CopyingToData

  /** What the first block of the video track says about the current Cluster. */
  datatype Verdict = Undecided | NotKeyframe | Keyframe

  /** The fields of the parser that steer it. */
  datatype Control = Control(phase: Phase, copyLen: nat, verdict: Verdict,
                             videoTrack: nat, trackNumber: nat, trackIsVideo: bool)
  {
    predicate Parsing() { phase.ParsingHeader? || phase.ParsingClusters? }
    predicate Copying() { phase.CopyingToHeader? || phase.CopyingToData? }
    predicate InHeader() { phase.ParsingHeader? || phase.CopyingToHeader? }

    /** After `n` of the bytes to copy have been copied. */
    function Copied(n: nat): Control
      requires Copying() && n <= copyLen
    {
      this.(copyLen := copyLen - n,
            phase := if n < copyLen then phase else if phase.CopyingToHeader? then ParsingHeader else ParsingClusters)
    }

    function CheckTrack(): Control {
      if videoTrack == UNKNOWN && trackIsVideo && trackNumber != UNKNOWN
      then this.(videoTrack := trackNumber) else this
    }
  }

  const Initial := Control(ParsingHeader, 0, NotKeyframe, UNKNOWN, UNKNOWN, false)

  /** An element tag: a VINT identifier, then a VINT length, which is the value answered. */
  function Tag(w: seq<byte>): (r: Parse)
    ensures r.Parsed? ==> 2 <= r.len <= 16 && r.len <= |w|
    ensures r.NeedMore? ==> |w| < 16
  {
    match VarInt(w)
    case NeedMore => NeedMore
    case Malformed => Malformed
    case Parsed(idLen, _) =>
      match VarInt(w[idLen..])
      case NeedMore => NeedMore
      case Malformed => Malformed
      case Parsed(sizeLen, payload) => Parsed(idLen + sizeLen, payload)
  }

  datatype Outcome = Wait | Fail | Next(control: Control)

  predicate Magic(w: seq<byte>, tagLen: nat, magic: seq<byte>)
    requires |magic| == 4
  {
    4 < tagLen <= |w| && w[..4] == magic
  }

  /** How much to copy along with the tag: elements of unknown size, Segment and Tracks are entered instead. */
  function Payload(w: seq<byte>, tagLen: nat, size: nat): nat {
    if size == UNKNOWN || Magic(w, tagLen, SEGMENT) || Magic(w, tagLen, TRACKS) then 0 else size
  }

  /** Examine the element whose first bytes are `w`. */
  function Examine(c: Control, w: seq<byte>): (r: Outcome)
    requires c.Parsing()
    ensures r.Wait? ==> |w| <= 26
    ensures r.Next? ==> Tag(w).Parsed?
    ensures r.Next? && r.control.phase.StartCluster? ==>
      Magic(w, Tag(w).len, CLUSTER) && r.control == c.(phase := StartCluster)
    ensures r.Next? && !r.control.phase.StartCluster? ==>
      r.control.Copying() && r.control.copyLen > 0 && (r.control.phase.CopyingToHeader? <==> c.phase.ParsingHeader?)
    ensures r.Next? && c.verdict != Undecided ==> r.control.verdict == c.verdict
  {
    match Tag(w)
    case NeedMore => Wait
    case Malformed => Fail
    case Parsed(tagLen, size) =>
      if Magic(w, tagLen, CLUSTER) then Next(c.(phase := StartCluster))
      else
        var payload := Payload(w, tagLen, size);
        match Probe(c, w, tagLen, payload)
        case Wait => Wait
        case Fail => Fail
        case Next(c') =>
          Next(c'.(copyLen := tagLen + (if w[0] == TRACK_ENTRY then 0 else payload),
                   phase := if c.phase.ParsingHeader? then CopyingToHeader else CopyingToData))
  }

  /** What is learnt from the inside of the four elements of interest. */
  function Probe(c: Control, w: seq<byte>, tagLen: nat, payload: nat): (r: Outcome)
    requires 2 <= tagLen <= 16 && tagLen <= |w|
    ensures r.Wait? ==> |w| <= 26
    ensures r.Next? ==> r.control.phase == c.phase
    ensures r.Next? && c.verdict != Undecided ==> r.control.verdict == c.verdict
  {
    var body := w[tagLen..];
    if w[0] == SIMPLE_BLOCK && c.verdict == Undecided then
      match VarInt(body)
      case NeedMore => Wait
      case Malformed => Fail
      case Parsed(n, track) =>
        if track != c.videoTrack then Next(c)
        else if tagLen + n + 2 >= |w| then Wait
        else Next(c.(verdict := if w[tagLen + n + 2] >= 0x80 then Keyframe else NotKeyframe))
    else if w[0] == TRACK_ENTRY then
      Next(c.(trackNumber := UNKNOWN, trackIsVideo := false))
    else if w[0] == TRACK_NUMBER then
      match SizedInt(body, payload, false)
      case NeedMore => Wait
      case Malformed => Fail
      case Parsed(_, v) => Next(c.(trackNumber := v).CheckTrack())
    else if w[0] == TRACK_TYPE then
      match SizedInt(body, payload, false)
      case NeedMore => Wait
      case Malformed => Fail
      case Parsed(_, v) => Next(if v % 2 == 1 then c.(trackIsVideo := true).CheckTrack() else c)
    else Next(c)
  }

  lemma TagStable(w: seq<byte>, more: seq<byte>)
    requires !Tag(w).NeedMore?
    ensures Tag(w + more) == Tag(w)
  {
    VarIntStable(w, more);
    if VarInt(w).Parsed? {
      var n := VarInt(w).len;
      VarIntStable(w[n..], more);
      assert (w + more)[n..] == w[n..] + more;
    }
  }

  /** Once the parser can decide on an element, bytes that arrive later do not change its mind. */
  lemma ExamineStable(c: Control, w: seq<byte>, more: seq<byte>)
    requires c.Parsing() && !Examine(c, w).Wait?
    ensures Examine(c, w + more) == Examine(c, w)
  {
    TagStable(w, more);
    if Tag(w).Parsed? {
      var tagLen, size := Tag(w).len, Tag(w).value;
      MagicStable(w, more, tagLen, CLUSTER);
      MagicStable(w, more, tagLen, SEGMENT);
      MagicStable(w, more, tagLen, TRACKS);
      var payload := Payload(w, tagLen, size);
      if !Magic(w, tagLen, CLUSTER) {
        ProbeStable(c, w, more, tagLen, payload);
      }
    }
  }

  lemma MagicStable(w: seq<byte>, more: seq<byte>, tagLen: nat, magic: seq<byte>)
    requires |magic| == 4 && tagLen <= |w|
    ensures Magic(w + more, tagLen, magic) == Magic(w, tagLen, magic)
  {
    if 4 < tagLen {
      assert (w + more)[..4] == w[..4];
    }
  }

  lemma ProbeStable(c: Control, w: seq<byte>, more: seq<byte>, tagLen: nat, payload: nat)
    requires 2 <= tagLen <= 16 && tagLen <= |w| && !Probe(c, w, tagLen, payload).Wait?
    ensures Probe(c, w + more, tagLen, payload) == Probe(c, w, tagLen, payload)
  {
    var body := w[tagLen..];
    assert (w + more)[tagLen..] == body + more;
    assert (w + more)[0] == w[0];
    if w[0] == SIMPLE_BLOCK && c.verdict == Undecided {
      VarIntStable(body, more);
    } else if w[0] == TRACK_NUMBER || w[0] == TRACK_TYPE {
      SizedIntStable(body, more, payload, false);
    }
  }

  /** An element as the parser copies it: where it starts and how many bytes belong to it. A Cluster and
      the containers whose children are parsed count with their tag alone. */
  datatype Element = Element(offset: nat, size: nat)

  datatype Cluster = Cluster(offset: nat, verdict: Verdict)

  /** The one-pass parser: its control state, how far it is and what it has recorded. */
  datatype Machine = Machine(c: Control, pos: nat, elements: seq<Element>, clusters: seq<Cluster>)

  const Start := Machine(Initial, 0, [], [])

  function WithVerdict(clusters: seq<Cluster>, v: Verdict): (r: seq<Cluster>)
    ensures |r| == |clusters|
  {
    if clusters == [] then [] else clusters[|clusters| - 1 := Cluster(clusters[|clusters| - 1].offset, v)]
  }

  ghost predicate WellFormed(m: Machine, s: seq<byte>) {
    && m.pos <= |s|
    && (m.c.Copying() ==> m.c.copyLen > 0)
    && (m.c.phase.StartCluster? ==> Tag(s[m.pos..]).Parsed?)
    && (m.clusters == [] <==> m.c.InHeader() || (m.c.phase.StartCluster? && m.clusters == []))
    && (m.clusters == [] ==> m.c.verdict == NotKeyframe && m.pos <= HEADER_MAX)
    && (m.clusters != [] ==> m.clusters[|m.clusters| - 1].verdict == m.c.verdict)
  }

  datatype Step = Blocked | Failed | Stepped(m: Machine)

  /** Bytes that can be copied now. */
  function Available(m: Machine, s: seq<byte>): nat
    requires m.pos <= |s|
  {
    Min(|s| - m.pos, m.c.copyLen)
  }

  function Advance(m: Machine, n: nat): Machine
    requires m.c.Copying() && n <= m.c.copyLen
  {
    m.(pos := m.pos + n, c := m.c.Copied(n))
  }

  /** The element at hand starts being copied. */
  function BeginCopy(m: Machine, c: Control): Machine {
    m.(c := c, elements := m.elements + [Element(m.pos, c.copyLen)], clusters := WithVerdict(m.clusters, c.verdict))
  }

  function BeginCluster(m: Machine, tagLen: nat): Machine {
    m.(c := m.c.(phase := CopyingToData, copyLen := tagLen, verdict := Undecided),
       elements := m.elements + [Element(m.pos, tagLen)],
       clusters := m.clusters + [Cluster(m.pos, Undecided)])
  }

  function StepOf(m: Machine, s: seq<byte>): (r: Step)
    requires WellFormed(m, s)
    ensures r.Stepped? ==> WellFormed(r.m, s)
    ensures r.Stepped? ==> m.pos < r.m.pos || (m.pos == r.m.pos && Rank(r.m) < Rank(m))
  {
    if m.c.Parsing() then
      match Examine(m.c, s[m.pos..])
      case Wait => Blocked
      case Fail => Failed
      case Next(c) =>
        if c.phase.StartCluster? then Stepped(m.(c := c)) else Stepped(BeginCopy(m, c))
    else if m.c.phase.StartCluster? then
      Stepped(BeginCluster(m, Tag(s[m.pos..]).len))
    else
      var n := Available(m, s);
      if n == 0 then Blocked
      else if m.c.phase.CopyingToHeader? && m.pos + n > HEADER_MAX then Failed
      else Stepped(Advance(m, n))
  }

  function Rank(m: Machine): nat {
    if m.c.Parsing() then 2 else if m.c.phase.StartCluster? then 1 else 0
  }

  datatype Result = Error | Halted(m: Machine)

  /** Parse as much of `s` as possible from state `m` on. */
  function Run(m: Machine, s: seq<byte>): (r: Result)
    requires WellFormed(m, s)
    ensures r.Halted? ==> WellFormed(r.m, s) && StepOf(r.m, s).Blocked?
    decreases |s| - m.pos, Rank(m)
  {
    match StepOf(m, s)
    case Blocked => Halted(m)
    case Failed => Error
    case Stepped(m') => Run(m', s)
  }

  /** The verdict of the one-pass parser on a whole stream. */
  function OnePass(s: seq<byte>): Result {
    Run(Start, s)
  }

  lemma WellFormedLater(m: Machine, s: seq<byte>, t: seq<byte>)
    requires WellFormed(m, s)
    ensures WellFormed(m, s + t)
  {
    assert (s + t)[m.pos..] == s[m.pos..] + t;
    if m.c.phase.StartCluster? {
      TagStable(s[m.pos..], t);
    }
  }

  /** Copying part of what is available first makes no difference. */
  lemma CopySplit(m: Machine, s: seq<byte>, n: nat)
    requires WellFormed(m, s) && m.c.Copying() && 0 < n <= Available(m, s)
    requires m.c.phase.CopyingToHeader? ==> m.pos + n <= HEADER_MAX
    ensures WellFormed(Advance(m, n), s) && Run(m, s) == Run(Advance(m, n), s)
  {
    if n < Available(m, s) {
      SecondCopy(m, s, n);
    } else {
      assert StepOf(m, s) == Stepped(Advance(m, n));
    }
  }

  lemma SecondCopy(m: Machine, s: seq<byte>, n: nat)
    requires WellFormed(m, s) && m.c.Copying() && 0 < n < Available(m, s)
    requires m.c.phase.CopyingToHeader? ==> m.pos + n <= HEADER_MAX
    ensures WellFormed(Advance(m, n), s) && StepOf(m, s) == StepOf(Advance(m, n), s)
  {
    var m' := Advance(m, n);
    var all := Available(m, s);
    assert m'.c == m.c.(copyLen := m.c.copyLen - n);
    assert Available(m', s) == all - n;
    assert Advance(m', all - n) == Advance(m, all);
  }

  /** Parsing a longer stream is parsing the shorter one and going on from there. */
  lemma {:induction false} RunExtend(m: Machine, s: seq<byte>, t: seq<byte>)
    requires WellFormed(m, s)
    ensures WellFormed(m, s + t)
    ensures match Run(m, s)
            case Error => Run(m, s + t) == Error
            case Halted(m') => WellFormed(m', s + t) && Run(m, s + t) == Run(m', s + t)
    decreases |s| - m.pos, Rank(m)
  {
    WellFormedLater(m, s, t);
    assert (s + t)[m.pos..] == s[m.pos..] + t;
    match StepOf(m, s) {
      case Blocked =>
      case Failed =>
        if m.c.Parsing() {
          ExamineStable(m.c, s[m.pos..], t);
        }
      case Stepped(m') =>
        if m.c.Parsing() {
          ExamineStable(m.c, s[m.pos..], t);
        } else if m.c.phase.StartCluster? {
          TagStable(s[m.pos..], t);
        } else {
          CopySplit(m, s + t, Available(m, s));
        }
        RunExtend(m', s, t);
    }
  }

  /** Records only grow: elements are appended, Clusters met from here on are appended, and a verdict once reached
      stays. */
  ghost predicate Extends(old': Machine, new': Machine) {
    && old'.pos <= new'.pos
    && old'.elements <= new'.elements
    && |old'.clusters| <= |new'.clusters|
    && (forall i :: 0 <= i < |old'.clusters| ==> SameCluster(old'.clusters[i], new'.clusters[i]))
    && forall i :: |old'.clusters| <= i < |new'.clusters| ==> old'.pos <= new'.clusters[i].offset
  }

  predicate SameCluster(a: Cluster, b: Cluster) {
    a.offset == b.offset && (a.verdict != Undecided ==> b.verdict == a.verdict)
  }

  lemma {:induction false} RunExtends(m: Machine, s: seq<byte>)
    requires WellFormed(m, s)
    ensures Run(m, s).Halted? ==> Extends(m, Run(m, s).m)
    decreases |s| - m.pos, Rank(m)
  {
    match StepOf(m, s) {
      case Blocked =>
      case Failed =>
      case Stepped(m') =>
        assert Extends(m, m');
        RunExtends(m', s);
    }
  }
}
