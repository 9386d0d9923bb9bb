/** What every call on the EBML splitter keeps. */
module EbmlInvariants {
  import opened Bytes
  import opened EbmlVarInt
  import opened EbmlOnePass
  import opened EbmlStream

  // ----- the chunks handed out

  /** Where the chunks end when the first one starts at `from`. */
  function End(chunks: seq<Chunk>, from: nat): nat {
    if chunks == [] then from else chunks[|chunks| - 1].offset + |chunks[|chunks| - 1].bytes|
  }

  /** Chunks are nonempty and lie end to end from `from` on. */
  ghost predicate Tiled(chunks: seq<Chunk>, from: nat) {
    forall k :: 0 <= k < |chunks| ==> chunks[k].bytes != [] && chunks[k].offset == End(chunks[..k], from)
  }

  /** The chunk opens the Cluster, and its kind follows from the verdict on that Cluster when it was read. */
  predicate Opens(ch: Chunk, cl: Cluster) {
    && ch.offset == cl.offset
    && ch.kind == (if ch.verdict == NotKeyframe then ClusterContinue else ClusterStart)
    && (ch.verdict != Undecided ==> cl.verdict == ch.verdict)
  }

  ghost predicate Opened(chunks: seq<Chunk>, cl: Cluster) {
    exists k :: 0 <= k < |chunks| && Opens(chunks[k], cl)
  }

  /** Clusters whose tag is the first byte of a chunk: all but the one still marked in the read buffer. */
  function Announced(v: View): nat {
    if v.clusterStart >= 0 && v.m.clusters != [] then |v.m.clusters| - 1 else |v.m.clusters|
  }

  ghost predicate Aligned(v: View) {
    && Tiled(v.chunks, |v.header|)
    && End(v.chunks, |v.header|) == |v.header| + |Flat(v.chunks)|
    && AllOpened(v.chunks, v.m.clusters, Announced(v))
    && Kinds(v.chunks, v.m.clusters)
  }

  ghost predicate AllOpened(chunks: seq<Chunk>, clusters: seq<Cluster>, n: nat)
    requires n <= |clusters|
  {
    forall i :: 0 <= i < n ==> Opened(chunks, clusters[i])
  }

  /** Only a chunk that opens a Cluster may be a sync point. */
  ghost predicate Kinds(chunks: seq<Chunk>, clusters: seq<Cluster>) {
    forall k :: 0 <= k < |chunks| && chunks[k].kind != ClusterContinue ==>
      chunks[k].kind == ClusterStart && StartsCluster(clusters, chunks[k].offset)
  }

  ghost predicate StartsCluster(clusters: seq<Cluster>, offset: nat) {
    exists i :: 0 <= i < |clusters| && clusters[i].offset == offset
  }

  // ----- the invariant

  /** No byte is lost, doubled or moved. */
  ghost predicate Conserved(v: View) {
    && v.m.pos + |v.pending| == |v.input|
    && v.header + Flat(v.chunks) + v.data == v.input[..v.m.pos]
    && v.pending == v.input[v.m.pos..]
    && |v.data| <= SLICE && |v.pending| <= SLICE && |v.header| <= HEADER_MAX
  }

  /** Until it has refused something the parser is somewhere on the way of the one-pass parser. */
  ghost predicate OnTrack(v: View) {
    && WellFormed(v.m, v.input)
    && (v.refused == [] ==> OnePass(v.input) == Run(v.m, v.input))
    && Extends(Start, v.m)
  }

  /** Which output fields belong to which stage. */
  ghost predicate Staged(v: View) {
    && (v.m.clusters == [] ==>
          !v.reading && v.data == [] && v.chunks == [] && v.clusterStart == -1 && v.headerSize == 0)
    && (v.m.clusters != [] ==> v.headerSize == |v.header| == v.m.clusters[0].offset)
    && (!v.reading ==> v.chunks == [] && v.headerRead == 0)
    && (v.reading ==> v.headerRead == v.headerSize > 0)
  }

  /** The mark in the read buffer is the start of the last Cluster met. */
  ghost predicate Marked(v: View) {
    && -1 <= v.clusterStart <= |v.data|
    && (v.clusterStart >= 0 && v.m.clusters != [] ==>
          v.m.clusters[|v.m.clusters| - 1].offset == |v.header| + |Flat(v.chunks)| + v.clusterStart
          && (v.clusterStart == |v.data| ==> v.m.c.phase.CopyingToData?))
  }

  ghost predicate Inv(v: View) {
    Conserved(v) && OnTrack(v) && Staged(v) && Marked(v) && Aligned(v)
  }

  lemma InvReady(v: View)
    requires Inv(v)
    ensures Ready(v)
  {
  }

  lemma PosWithin(v: View)
    requires Inv(v)
    ensures v.m.pos <= |v.input| && v.pending == v.input[v.m.pos..]
  {
  }

  lemma InvFresh()
    ensures Inv(Fresh)
  {
  }

  ghost predicate SameSource(v: View, v': View) {
    v'.input == v.input && v'.refused == v.refused
  }

  // ----- one turn of the loop

  /** Growth of the records leaves earlier chunks aligned. */
  lemma AlignedLater(v: View, v': View)
    requires Aligned(v) && v'.chunks == v.chunks && Announced(v') == Announced(v) <= |v.m.clusters|
    requires Extends(v.m, v'.m) && (v'.header == v.header || v.chunks == [])
    ensures Aligned(v')
  {
    forall i | 0 <= i < Announced(v')
      ensures Opened(v'.chunks, v'.m.clusters[i])
    {
      var k :| 0 <= k < |v.chunks| && Opens(v.chunks[k], v.m.clusters[i]);
      assert SameCluster(v.m.clusters[i], v'.m.clusters[i]);
      assert Opens(v'.chunks[k], v'.m.clusters[i]);
    }
    forall k | 0 <= k < |v'.chunks| && v'.chunks[k].kind != ClusterContinue
      ensures v'.chunks[k].kind == ClusterStart && StartsCluster(v'.m.clusters, v'.chunks[k].offset)
    {
      var i :| 0 <= i < |v.m.clusters| && v.m.clusters[i].offset == v.chunks[k].offset;
      assert SameCluster(v.m.clusters[i], v'.m.clusters[i]);
    }
  }

  lemma ExtendsTransitive(a: Machine, b: Machine, c: Machine)
    requires Extends(a, b) && Extends(b, c)
    ensures Extends(a, c)
  {
    forall i | 0 <= i < |a.clusters|
      ensures SameCluster(a.clusters[i], c.clusters[i])
    {
      assert SameCluster(a.clusters[i], b.clusters[i]) && SameCluster(b.clusters[i], c.clusters[i]);
    }
    forall i | |a.clusters| <= i < |c.clusters|
      ensures a.pos <= c.clusters[i].offset
    {
      assert i < |b.clusters| ==> SameCluster(b.clusters[i], c.clusters[i]);
    }
  }

  lemma StepExtends(m: Machine, s: seq<byte>)
    requires WellFormed(m, s) && StepOf(m, s).Stepped?
    ensures Extends(m, StepOf(m, s).m)
  {
  }

  lemma ParseKeeps(v: View)
    requires Inv(v) && v.m.c.Parsing()
    ensures match ParseElement(v)
            case Broken => v.refused == [] ==> OnePass(v.input) == Error
            case Rest(v') => v' == v
            case More(v') => Inv(v') && SameSource(v, v')
  {
    var r := ParseElement(v);
    if r.More? {
      assert StepOf(v.m, v.input) == Stepped(r.v.m);
      StepExtends(v.m, v.input);
      ExtendsTransitive(Start, v.m, r.v.m);
      AlignedLater(v, r.v);
    }
  }

  lemma BeginKeeps(v: View)
    requires Inv(v) && v.m.c.phase.StartCluster?
    ensures match MarkCluster(v)
            case Broken => true
            case Rest(v') => Inv(v') && SameSource(v, v')
            case More(v') => Inv(v') && SameSource(v, v')
  {
    var r := MarkCluster(v);
    match r {
      case Broken =>
      case Rest(v') =>
        AlignedLater(v, v');
      case More(v') =>
        HeaderIsInput(v);
        BeginOutput(v, v');
        BeginOnTrack(v, v');
        AlignedLater(v, v');
    }
  }

  lemma BeginOnTrack(v: View, v': View)
    requires Conserved(v) && OnTrack(v) && v.m.c.phase.StartCluster? && MarkCluster(v) == More(v')
    ensures OnTrack(v') && Extends(v.m, v'.m)
  {
    assert StepOf(v.m, v.input) == Stepped(v'.m);
    StepExtends(v.m, v.input);
    ExtendsTransitive(Start, v.m, v'.m);
  }

  lemma HeaderIsInput(v: View)
    requires Conserved(v) && Staged(v)
    ensures v.m.clusters == [] ==> v.header == v.input[..v.m.pos] && |v.header| == v.m.pos
    ensures |v.header| + |Flat(v.chunks)| + |v.data| == v.m.pos
  {
  }

  lemma BeginOutput(v: View, v': View)
    requires Inv(v) && v.m.c.phase.StartCluster? && MarkCluster(v) == More(v')
    requires v.m.clusters == [] ==> |v.header| == v.m.pos
    requires |v.header| + |Flat(v.chunks)| + |v.data| == v.m.pos
    ensures Conserved(v') && Staged(v') && Marked(v') && Announced(v') == Announced(v)
  {
  }

  lemma CopyHeaderKeeps(v: View)
    requires Inv(v) && v.m.c.phase.CopyingToHeader?
    ensures match CopyHeader(v)
            case Broken => v.refused == [] ==> OnePass(v.input) == Error
            case Rest(v') => Inv(v') && SameSource(v, v')
            case More(v') => Inv(v') && SameSource(v, v')
  {
    HeaderIsInput(v);
    var n := Min(|v.pending|, v.m.c.copyLen);
    assert n == Available(v.m, v.input);
    if v.m.pos + n > HEADER_MAX {
      assert n > 0;
      assert StepOf(v.m, v.input) == Failed;
    } else {
      var v0 := v.(header := v.header + v.pending[..n]);
      var v' := Moved(v0, n).v;
      MovedKeeps(v, v', n);
      AlignedLater(v, v');
    }
  }

  /** Bytes move from the front of the input buffer to the end of the header or of the read buffer. */
  lemma MovedKeeps(v: View, v': View, n: nat)
    requires Inv(v) && v.m.c.Copying() && n <= |v.pending| && n <= v.m.c.copyLen
    requires v.m.c.phase.CopyingToHeader? ==> |v.header| == v.m.pos && v.m.pos + n <= HEADER_MAX
    requires v.m.c.phase.CopyingToData? ==> |v.data| + n <= SLICE
    requires v' == v.(pending := v.pending[n..], m := Advance(v.m, n),
                      header := if v.m.c.phase.CopyingToHeader? then v.header + v.pending[..n] else v.header,
                      data := if v.m.c.phase.CopyingToHeader? then v.data else v.data + v.pending[..n])
    ensures Conserved(v') && OnTrack(v') && Staged(v') && Marked(v') && Extends(v.m, v'.m)
  {
    MovedConserves(v, v', n);
    AdvanceOnTrack(v, n);
    MovedOutput(v, v', n);
  }

  lemma AdvanceOnTrack(v: View, n: nat)
    requires Conserved(v) && OnTrack(v) && v.m.c.Copying() && n <= Available(v.m, v.input)
    requires v.m.c.phase.CopyingToHeader? ==> v.m.pos + n <= HEADER_MAX
    ensures var m' := Advance(v.m, n);
      && WellFormed(m', v.input) && (v.refused == [] ==> OnePass(v.input) == Run(m', v.input))
      && Extends(v.m, m') && Extends(Start, m')
  {
    var m' := Advance(v.m, n);
    if n > 0 {
      CopySplit(v.m, v.input, n);
    } else {
      assert m' == v.m;
    }
    ExtendsTransitive(Start, v.m, m');
  }

  lemma MovedOutput(v: View, v': View, n: nat)
    requires Staged(v) && Marked(v) && v.m.c.Copying() && n <= v.m.c.copyLen && n <= |v.pending|
    requires v.m.clusters == [] <==> v.m.c.phase.CopyingToHeader?
    requires v' == v.(pending := v.pending[n..], m := Advance(v.m, n),
                      header := if v.m.c.phase.CopyingToHeader? then v.header + v.pending[..n] else v.header,
                      data := if v.m.c.phase.CopyingToHeader? then v.data else v.data + v.pending[..n])
    requires n == 0 ==> v'.m == v.m
    ensures Staged(v') && Marked(v')
  {
  }

  lemma MovedConserves(v: View, v': View, n: nat)
    requires Conserved(v) && v.m.c.Copying() && n <= |v.pending| && n <= v.m.c.copyLen
    requires v.m.c.phase.CopyingToHeader? ==> v.chunks == [] && v.data == [] && |v.header| + n <= HEADER_MAX
    requires v.m.c.phase.CopyingToData? ==> |v.data| + n <= SLICE
    requires v' == v.(pending := v.pending[n..], m := Advance(v.m, n),
                      header := if v.m.c.phase.CopyingToHeader? then v.header + v.pending[..n] else v.header,
                      data := if v.m.c.phase.CopyingToHeader? then v.data else v.data + v.pending[..n])
    ensures Conserved(v')
  {
    var s, pos := v.input, v.m.pos;
    assert s[..pos + n] == s[..pos] + v.pending[..n];
    assert v.pending[n..] == s[pos + n..];
  }

  lemma CopyDataKeeps(v: View)
    requires Inv(v) && v.m.c.phase.CopyingToData?
    ensures match CopyData(v)
            case Broken => true
            case Rest(v') => Inv(v') && SameSource(v, v')
            case More(v') => Inv(v') && SameSource(v, v')
  {
    hide Inv;
    InvReady(v);
    var n := Min(Min(|v.pending|, v.m.c.copyLen), SLICE - |v.data|);
    var v' := v.(pending := v.pending[n..], m := Advance(v.m, n), data := v.data + v.pending[..n]);
    CopiedKeeps(v, v', n);
    assert CopyData(v) == if n == v.m.c.copyLen then More(v') else Rest(v');
  }

  lemma CopiedKeeps(v: View, v': View, n: nat)
    requires Inv(v) && v.m.c.phase.CopyingToData? && n <= |v.pending| && n <= v.m.c.copyLen && |v.data| + n <= SLICE
    requires v' == v.(pending := v.pending[n..], m := Advance(v.m, n), data := v.data + v.pending[..n])
    ensures Inv(v')
  {
    MovedKeeps(v, v', n);
    AlignedLater(v, v');
  }

  lemma PumpStepKeeps(v: View)
    requires Inv(v)
    ensures match PumpStep(v)
            case Broken => v.refused == [] ==> OnePass(v.input) == Error
            case Rest(v') => Inv(v') && SameSource(v, v')
            case More(v') => Inv(v') && SameSource(v, v')
  {
    match v.m.c.phase {
      case ParsingHeader => ParseKeeps(v);
      case ParsingClusters => ParseKeeps(v);
      case StartCluster => BeginKeeps(v);
      case CopyingToHeader => CopyHeaderKeeps(v);
      case CopyingToData => CopyDataKeeps(v);
    }
  }

  // ----- whole calls

  /** What ebml_wrote leaves behind: every way it can stop. */
  ghost predicate Stopped(v: View) {
    match v.m.c.phase
    case ParsingHeader => Examine(v.m.c, v.pending).Wait?
    case ParsingClusters => Examine(v.m.c, v.pending).Wait?
    case StartCluster => v.clusterStart >= 0 && v.flush
    case CopyingToHeader => v.pending == []
    case CopyingToData => v.pending == [] || |v.data| == SLICE
  }

  /** What of that survives draining. */
  ghost predicate Settled(v: View) {
    match v.m.c.phase
    case ParsingHeader => Examine(v.m.c, v.pending).Wait?
    case ParsingClusters => Examine(v.m.c, v.pending).Wait?
    case StartCluster => v.flush
    case CopyingToHeader => v.pending == []
    case CopyingToData => true
  }

  lemma {:induction false} PumpKeeps(v: View)
    requires Inv(v)
    ensures match Pump(v)
            case Refused(f) => Inv(f) && SameSource(v, f) && PumpStep(f) == Broken && |f.pending| <= |v.pending|
                               && (v.refused == [] ==> OnePass(v.input) == Error)
            case Done(v') => Inv(v') && SameSource(v, v') && Stopped(v') && |v'.pending| <= |v.pending|
    decreases |v.pending|, Rank(v.m)
  {
    PumpStepKeeps(v);
    InvReady(v);
    PumpStepStops(v);
    match PumpStep(v) {
      case Rest(v') =>
      case Broken =>
      case More(v') => PumpKeeps(v');
    }
  }

  lemma PumpStepStops(v: View)
    requires Ready(v)
    ensures PumpStep(v).Rest? ==> Stopped(PumpStep(v).v) && |PumpStep(v).v.pending| <= |v.pending|
  {
  }

  /** Writing hands nothing out and leaves a header that has been extracted alone. */
  lemma {:induction false} PumpOutput(v: View)
    requires Inv(v)
    ensures SameOutput(v, Pump(v).v)
    decreases |v.pending|, Rank(v.m)
  {
    PumpStepKeeps(v);
    PumpStepOutput(v);
    match PumpStep(v) {
      case Rest(v') =>
      case Broken =>
      case More(v') => PumpOutput(v');
    }
  }

  ghost predicate SameOutput(v: View, v': View) {
    v'.chunks == v.chunks && v'.reading == v.reading && (v.reading ==> v'.header == v.header)
  }

  lemma PumpStepOutput(v: View)
    requires Ready(v) && (v.reading ==> !v.m.c.InHeader())
    ensures match PumpStep(v)
            case Rest(v') => SameOutput(v, v')
            case Broken => true
            case More(v') => SameOutput(v, v')
  {
  }

  lemma ReceivedKeeps(v: View, bytes: seq<byte>)
    requires Inv(v) && |v.pending| + |bytes| <= SLICE
    ensures Inv(Received(v, bytes))
  {
    var v' := Received(v, bytes);
    ReceivedOnTrack(v, bytes);
    ReceivedConserves(v, bytes);
    assert Staged(v') && Marked(v');
    AlignedLater(v, v');
  }

  lemma ReceivedConserves(v: View, bytes: seq<byte>)
    requires Conserved(v) && |v.pending| + |bytes| <= SLICE
    ensures Conserved(Received(v, bytes))
  {
    var v' := Received(v, bytes);
    assert v'.input[..v.m.pos] == v.input[..v.m.pos];
    assert v'.pending == v'.input[v.m.pos..];
  }

  lemma ReceivedOnTrack(v: View, bytes: seq<byte>)
    requires OnTrack(v)
    ensures OnTrack(Received(v, bytes))
  {
    RunExtend(Start, v.input, bytes);
    RunExtend(v.m, v.input, bytes);
  }

  /** What a refused ebml_wrote leaves behind: the fields it has advanced and an input buffer it has not shifted. */
  lemma UnshiftedKeeps(f: View, pending: seq<byte>)
    requires Inv(f) && PumpStep(f) == Broken && |f.pending| <= |pending| <= SLICE
    ensures f.m.pos <= |f.input| && Inv(Unshifted(f, pending))
  {
    var v := Unshifted(f, pending);
    UnshiftedConserves(f, pending);
    assert !f.m.c.phase.StartCluster?;
    assert OnTrack(v) && Staged(v) && Marked(v);
    AlignedLater(f, v);
  }

  lemma UnshiftedConserves(f: View, pending: seq<byte>)
    requires Conserved(f) && |f.pending| <= |pending| <= SLICE
    ensures f.m.pos <= |f.input| && Conserved(Unshifted(f, pending))
  {
    var v := Unshifted(f, pending);
    assert v.input[..f.m.pos] == f.input[..f.m.pos];
    assert v.input[f.m.pos..] == pending;
  }

  /** ebml_wrote, once `bytes` have been put into the write buffer. */
  ghost function Wrote(v: View, bytes: seq<byte>): (r: View)
    requires Inv(v) && |v.pending| + |bytes| <= SLICE
    ensures Inv(r)
  {
    var v0 := Received(v, bytes);
    ReceivedKeeps(v, bytes);
    InvReady(v0);
    PumpKeeps(v0);
    match Pump(v0)
    case Done(v') => v'
    case Refused(f) => UnshiftedKeeps(f, v0.pending); Unshifted(f, v0.pending)
  }

  lemma WroteOutput(v: View, bytes: seq<byte>)
    requires Inv(v) && |v.pending| + |bytes| <= SLICE
    ensures SameOutput(v, Wrote(v, bytes))
  {
    hide Inv;
    ReceivedKeeps(v, bytes);
    InvReady(Received(v, bytes));
    PumpKeeps(Received(v, bytes));
    PumpOutput(Received(v, bytes));
  }

  lemma AskedKeeps(v: View)
    requires Inv(v)
    ensures Inv(Asked(v)) && Space(Asked(v)) == Space(v) && (Settled(v) ==> Settled(Asked(v)))
  {
    var v' := Asked(v);
    SameTrack(v, v');
    AskedOutput(v);
    AlignedLater(v, v');
  }

  lemma AskedOutput(v: View)
    requires Conserved(v) && Staged(v) && Marked(v)
    ensures var v' := Asked(v);
      Conserved(v') && Staged(v') && Marked(v') && Space(v') == Space(v) && (Settled(v) ==> Settled(v'))
  {
  }

  lemma SameTrack(v: View, v': View)
    requires OnTrack(v) && v'.m == v.m && SameSource(v, v')
    ensures OnTrack(v')
  {
  }

  /** A read of exactly the space announced hands out a nonempty chunk and keeps the invariant. */
  lemma ReadKeeps(v: View)
    requires Inv(v) && Space(v) > 0
    ensures var r := Read(v, Space(v));
      Inv(r.v) && SameSource(v, r.v) && r.v.m == v.m && |r.bytes| == Space(v) && (Settled(v) ==> Settled(r.v))
    ensures var r := Read(v, Space(v));
      if v.reading then
        r.kind != HeaderChunk
        && r.v.chunks == v.chunks + [Chunk(|v.header| + |Flat(v.chunks)|, r.bytes, r.kind, v.m.c.verdict)]
      else r.bytes == v.header && r.kind == HeaderChunk && r.v == v.(headerRead := v.headerSize, reading := true)
  {
    hide Conserved, Aligned, Settled;
    var r := Read(v, Space(v));
    if v.reading {
      ReadDataKeeps(v);
    } else {
      ReadHeaderKeeps(v);
      AlignedLater(v, r.v);
    }
    SameTrack(v, r.v);
    SettledReading(v, r.v);
  }

  lemma ReadLeaves(v: View)
    requires Inv(v) && Space(v) > 0
    ensures var v' := Read(v, Space(v)).v;
      v'.reading && v'.header == v.header && SameSource(v, v') && (!v.reading ==> v'.chunks == v.chunks)
  {
  }

  lemma SettledReading(v: View, v': View)
    requires v'.m == v.m && v'.pending == v.pending && v'.flush == v.flush
    ensures Settled(v) ==> Settled(v')
  {
  }

  lemma ReadHeaderKeeps(v: View)
    requires Conserved(v) && Staged(v) && Marked(v) && !v.reading && Space(v) > 0
    ensures var r := Read(v, Space(v));
      Conserved(r.v) && Staged(r.v) && Marked(r.v)
      && r.bytes == v.header && r.kind == HeaderChunk && r.v == v.(headerRead := v.headerSize, reading := true)
  {
    assert v.header[..|v.header|] == v.header;
  }

  lemma ReadDataKeeps(v: View)
    requires Conserved(v) && Staged(v) && Marked(v) && Aligned(v) && v.reading && Space(v) > 0
    requires VerdictHeld(v.m)
    ensures var r := ReadData(v, Space(v));
      Conserved(r.v) && Staged(r.v) && Marked(r.v) && Aligned(r.v) && Unread(v, r.v) && |r.bytes| == Space(v)
      && r.kind != HeaderChunk
      && r.v.chunks == v.chunks + [Chunk(|v.header| + |Flat(v.chunks)|, r.bytes, r.kind, v.m.c.verdict)]
  {
    hide Conserved, Staged, Aligned;
    var n := Space(v);
    var r := ReadData(v, n);
    ReadDataShape(v);
    var ch := Chunk(|v.header| + |Flat(v.chunks)|, v.data[..n], r.kind, v.m.c.verdict);
    HandedOutKeeps(v, r.v, n, ch);
    HandedOutAligned(v, r.v, n, ch);
  }

  /** The verdict field is about the last Cluster met. */
  ghost predicate VerdictHeld(m: Machine) {
    m.clusters != [] ==> m.clusters[|m.clusters| - 1].verdict == m.c.verdict
  }

  /** The parsing side is not touched. */
  ghost predicate Unread(v: View, v': View) {
    v'.m == v.m && SameSource(v, v') && v'.pending == v.pending && v'.flush == v.flush
  }

  lemma ReadDataShape(v: View)
    requires Marked(v) && v.reading && Space(v) > 0
    ensures var n := Space(v); var r := ReadData(v, n);
      var ch := Chunk(|v.header| + |Flat(v.chunks)|, v.data[..n], r.kind, v.m.c.verdict);
      n <= |v.data| && r.bytes == v.data[..n] && HandedOver(v, r.v, n, ch)
  {
  }

  /** `ch`, the next `n` bytes of the read buffer, has been handed out; a mark moves down with the data. */
  ghost predicate HandedOver(v: View, v': View, n: nat, ch: Chunk) {
    && 0 < n <= |v.data|
    && (v.clusterStart > 0 ==> n == v.clusterStart)
    && ch.bytes == v.data[..n] && ch.offset == |v.header| + |Flat(v.chunks)| && ch.verdict == v.m.c.verdict
    && ch.kind == (if v.clusterStart == 0 && ch.verdict != NotKeyframe then ClusterStart else ClusterContinue)
    && v' == v.(data := v.data[n..], chunks := v.chunks + [ch], clusterStart := if v.clusterStart > 0 then 0 else -1)
  }

  lemma HandedOutKeeps(v: View, v': View, n: nat, ch: Chunk)
    requires Conserved(v) && Staged(v) && Marked(v) && v.reading && HandedOver(v, v', n, ch)
    ensures Conserved(v') && Staged(v') && Marked(v') && Flat(v'.chunks) == Flat(v.chunks) + ch.bytes
  {
    FlatAppend(v.chunks, ch);
    assert v.data == v.data[..n] + v.data[n..];
    assert v.header + (Flat(v.chunks) + v.data[..n]) + v.data[n..] == v.header + Flat(v.chunks) + v.data;
  }

  lemma FlatAppend(chunks: seq<Chunk>, ch: Chunk)
    ensures Flat(chunks + [ch]) == Flat(chunks) + ch.bytes
  {
    assert (chunks + [ch])[..|chunks|] == chunks;
  }

  lemma HandedOutAligned(v: View, v': View, n: nat, ch: Chunk)
    requires Staged(v) && Marked(v) && Aligned(v) && v.reading && VerdictHeld(v.m) && HandedOver(v, v', n, ch)
    requires Flat(v'.chunks) == Flat(v.chunks) + ch.bytes
    ensures Aligned(v')
  {
    ChunkOpens(v, ch);
    TiledAppend(v.chunks, ch, |v.header|);
    OpenedAppend(v.chunks, ch, v.m.clusters, Announced(v), Announced(v'));
    KindsAppend(v.chunks, ch, v.m.clusters);
  }

  lemma ChunkOpens(v: View, ch: Chunk)
    requires Staged(v) && Marked(v) && v.reading && ch.offset == |v.header| + |Flat(v.chunks)|
    requires ch.verdict == v.m.c.verdict && VerdictHeld(v.m)
    requires ch.kind == if v.clusterStart == 0 && ch.verdict != NotKeyframe then ClusterStart else ClusterContinue
    ensures v.clusterStart == 0 ==> v.m.clusters != [] && Opens(ch, v.m.clusters[|v.m.clusters| - 1])
    ensures ch.kind != ClusterContinue ==> ch.kind == ClusterStart && StartsCluster(v.m.clusters, ch.offset)
  {
  }

  lemma KindsAppend(chunks: seq<Chunk>, ch: Chunk, clusters: seq<Cluster>)
    requires Kinds(chunks, clusters)
    requires ch.kind != ClusterContinue ==> ch.kind == ClusterStart && StartsCluster(clusters, ch.offset)
    ensures Kinds(chunks + [ch], clusters)
  {
  }

  lemma OpenedAppend(chunks: seq<Chunk>, ch: Chunk, clusters: seq<Cluster>, n: nat, n': nat)
    requires n <= n' <= |clusters| && AllOpened(chunks, clusters, n)
    requires n < n' ==> n' == n + 1 && Opens(ch, clusters[n])
    ensures AllOpened(chunks + [ch], clusters, n')
  {
    forall i | 0 <= i < n'
      ensures Opened(chunks + [ch], clusters[i])
    {
      if i < n {
        OpenedLater(chunks, ch, clusters[i]);
      } else {
        assert Opens((chunks + [ch])[|chunks|], clusters[i]);
      }
    }
  }

  lemma OpenedLater(chunks: seq<Chunk>, ch: Chunk, cl: Cluster)
    requires Opened(chunks, cl)
    ensures Opened(chunks + [ch], cl)
  {
    var k :| 0 <= k < |chunks| && Opens(chunks[k], cl);
    assert Opens((chunks + [ch])[k], cl);
  }

  lemma TiledAppend(chunks: seq<Chunk>, ch: Chunk, from: nat)
    requires Tiled(chunks, from) && ch.bytes != [] && ch.offset == End(chunks, from)
    ensures Tiled(chunks + [ch], from)
  {
    var all := chunks + [ch];
    forall k | 0 <= k < |all|
      ensures all[k].bytes != [] && all[k].offset == End(all[..k], from)
    {
      if k < |chunks| {
        assert all[..k] == chunks[..k] && all[k] == chunks[k];
      } else {
        assert all[..k] == chunks;
      }
    }
  }

  /** The header is read whole because it is asked for whole. Two shorter reads would both start at its first
      byte: together they give the header exactly when its two parts happen to agree. */
  lemma ShortHeaderReads(v: View, a: nat, b: nat)
    requires Inv(v) && !v.reading && 0 < a && 0 < b && a + b == v.headerSize
    ensures var first := Read(v, a); var second := Read(first.v, b);
      first.bytes + second.bytes == v.header <==> v.header[a..] == v.header[..b]
  {
    var h := v.header;
    assert h == h[..a] + h[a..];
    if h[..a] + h[..b] == h {
      assert (h[..a] + h[..b])[a..] == h[..b];
    }
  }
}
