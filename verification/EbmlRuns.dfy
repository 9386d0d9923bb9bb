/** Any run of the EBML splitter: input written in pieces of any size that fit, chunks read whenever the
    pump loop likes. What the run has seen, whatever its schedule, is what a one-pass parser sees. */
module EbmlRuns {
  import opened Bytes
  import opened EbmlVarInt
  import opened EbmlOnePass
  import opened EbmlElements
  import opened EbmlStream
  import opened EbmlInvariants
  import opened EbmlVerdicts

  /** `Write` is client_read_bytes into the write buffer followed by ebml_wrote, whatever that answers; `Drain` is
      ebml_read_space followed by ebml_read of that much, if there is anything. */
  datatype Action = Write(bytes: seq<byte>) | Drain

  function BytesOf(a: Action): seq<byte> {
    if a.Write? then a.bytes else []
  }

  /** No more is written than ebml_get_write_buffer offers. */
  predicate Fits(v: View, a: Action) {
    |v.pending| + |BytesOf(a)| <= SLICE
  }

  ghost function Apply(v: View, a: Action): (r: View)
    requires Inv(v) && Fits(v, a)
    ensures Inv(r)
  {
    match a
    case Write(bytes) => Wrote(v, bytes)
    case Drain => DrainKeeps(v); Drained(v)
  }

  function Drained(v: View): View
    requires Space(v) > 0 ==> Asked(v).headerRead <= Asked(v).headerSize <= |Asked(v).header|
                              && Asked(v).clusterStart <= |Asked(v).data|
  {
    if Space(v) > 0 then Read(Asked(v), Space(v)).v else Asked(v)
  }

  lemma DrainKeeps(v: View)
    requires Inv(v)
    ensures Asked(v).headerRead <= Asked(v).headerSize <= |Asked(v).header| && Asked(v).clusterStart <= |Asked(v).data|
    ensures Inv(Drained(v)) && SameSource(v, Drained(v)) && (Settled(v) ==> Settled(Drained(v)))
  {
    hide Conserved, OnTrack, Aligned, Settled;
    AskedKeeps(v);
    if Space(v) > 0 {
      ReadKeeps(Asked(v));
    }
  }

  /** The parser is given time to find out about a Cluster: with the beginning of one in the read buffer nothing is
      handed out until the buffer is full or the next Cluster waits. */
  lemma Patience(v: View)
    requires Inv(v) && v.reading && v.clusterStart <= 0 && !v.flush && |v.data| < 4096
    ensures Apply(v, Drain) == v
  {
  }

  /** To hand out what there is becomes due in a write only because the next Cluster waits. */
  lemma DueInWrite(v: View, bytes: seq<byte>)
    requires Inv(v) && |v.pending| + |bytes| <= SLICE
    ensures Wrote(v, bytes).flush ==> v.flush || Wrote(v, bytes).m.c.phase.StartCluster?
  {
    hide Inv;
    var v0 := Received(v, bytes);
    ReceivedKeeps(v, bytes);
    InvReady(v0);
    PumpFlush(v0);
  }

  lemma {:induction false} PumpFlush(v: View)
    requires Ready(v)
    ensures var r := Pump(v); r.v.flush ==> v.flush || r.v.m.c.phase.StartCluster?
    decreases |v.pending|, Rank(v.m)
  {
    match PumpStep(v) {
      case Rest(v') =>
      case Broken =>
      case More(v') => PumpFlush(v');
    }
  }

  /** Everything in order; None if a write does not fit. */
  ghost function Exec(v: View, acts: seq<Action>): (r: Option<View>)
    requires Inv(v)
    ensures r.Some? ==> Inv(r.value)
    decreases |acts|
  {
    if acts == [] then Some(v)
    else if !Fits(v, acts[0]) then None
    else Exec(Apply(v, acts[0]), acts[1..])
  }

  /** One action more. */
  lemma {:induction false} ExecAppend(v: View, acts: seq<Action>, a: Action)
    requires Inv(v) && Exec(v, acts).Some? && Fits(Exec(v, acts).value, a)
    ensures Exec(v, acts + [a]) == Some(Apply(Exec(v, acts).value, a))
    ensures Written(acts + [a]) == Written(acts) + BytesOf(a)
    decreases |acts|
  {
    hide Inv, Apply, Fits;
    var all := acts + [a];
    if acts == [] {
      assert all[1..] == [];
      assert [] + BytesOf(a) == BytesOf(a) + [];
    } else {
      assert all[1..] == acts[1..] + [a];
      ExecAppend(Apply(v, acts[0]), acts[1..], a);
      Regroup(BytesOf(acts[0]), Written(acts[1..]), BytesOf(a));
    }
  }

  /** All the bytes a run writes. */
  function Written(acts: seq<Action>): seq<byte> {
    if acts == [] then [] else BytesOf(acts[0]) + Written(acts[1..])
  }

  /** The state some run from the start ends in. */
  ghost predicate RunsTo(acts: seq<Action>, v: View) {
    InvFresh();
    Exec(Fresh, acts) == Some(v)
  }

  function Sum(a: seq<nat>): nat {
    if a == [] then 0 else Sum(a[..|a| - 1]) + a[|a| - 1]
  }

  lemma SumAppend(a: seq<nat>, n: nat)
    ensures Sum(a + [n]) == Sum(a) + n
  {
    assert (a + [n])[..|a|] == a;
  }

  /** How `v` relates to the bytes `w` written so far. */
  ghost predicate Facts(v: View, w: seq<byte>) {
    && (if v.refused == [] then Settled(v) && v.input == w else OnePass(w) == Error)
    && |v.input| == |w| + Sum(v.refused)
    && (Sum(v.refused) == 0 ==> v.input == w)
  }

  lemma ErrorStays(w: seq<byte>, more: seq<byte>)
    requires OnePass(w) == Error
    ensures OnePass(w + more) == Error
  {
    RunExtend(Start, w, more);
  }

  /** What a write that is not refused answers for. */
  lemma WriteDone(v: View, bytes: seq<byte>)
    requires Inv(v) && |v.pending| + |bytes| <= SLICE && Wrote(v, bytes).refused == v.refused
    ensures var v' := Wrote(v, bytes);
      Pump(Received(v, bytes)) == Done(v') && v'.input == v.input + bytes && Stopped(v') && Settled(v')
      && |v'.pending| <= |v.pending| + |bytes|
  {
    hide Inv, Stopped, Settled;
    var v0 := Received(v, bytes);
    ReceivedKeeps(v, bytes);
    InvReady(v0);
    PumpKeeps(v0);
    StoppedSettles(Wrote(v, bytes));
  }

  lemma StoppedSettles(v: View)
    ensures Stopped(v) ==> Settled(v)
  {
  }

  /** A refused ebml_wrote. All of the input buffer remains, but what was moved before the refusal has been put out as
      well: it will be taken for input once more. */
  lemma RefusalRepeats(v: View, bytes: seq<byte>)
    requires Inv(v) && |v.pending| + |bytes| <= SLICE && Wrote(v, bytes).refused != v.refused
    ensures var v', all := Wrote(v, bytes), v.pending + bytes;
      && Inv(v') && |v'.refused| == |v.refused| + 1 && v'.refused[..|v.refused|] == v.refused
      && v'.refused[|v.refused|] <= |all| && v'.pending == all
      && v'.input == (v.input + bytes)[..v.m.pos + v'.refused[|v.refused|]] + all
      && v'.header + Flat(v'.chunks) + v'.data
         == v.header + Flat(v.chunks) + v.data + all[..v'.refused[|v.refused|]]
    ensures v.refused == [] ==> OnePass(v.input + bytes) == Error
  {
    hide Inv;
    var v0 := Received(v, bytes);
    ReceivedKeeps(v, bytes);
    InvReady(v0);
    PumpKeeps(v0);
    var f, all := Pump(v0).v, v.pending + bytes;
    assert Pump(v0).Refused?;
    UnshiftedKeeps(f, all);
    assert Wrote(v, bytes) == Unshifted(f, all);
    MovedTwice(v0, f);
  }

  lemma MovedTwice(v: View, f: View)
    requires Inv(v) && Inv(f) && SameSource(v, f) && |f.pending| <= |v.pending|
    ensures f.m.pos <= |f.input|
    ensures var v', moved := Unshifted(f, v.pending), |v.pending| - |f.pending|;
      && v'.input == v.input[..v.m.pos + moved] + v.pending
      && v'.header + Flat(v'.chunks) + v'.data == v.header + Flat(v.chunks) + v.data + v.pending[..moved]
  {
    hide OnTrack, Staged, Marked, Aligned;
    var moved := |v.pending| - |f.pending|;
    assert f.m.pos == v.m.pos + moved;
    assert v.input[..v.m.pos + moved] == v.input[..v.m.pos] + v.input[v.m.pos..][..moved];
  }

  lemma ApplyFacts(v: View, a: Action, w: seq<byte>)
    requires Inv(v) && Fits(v, a) && Facts(v, w)
    ensures Facts(Apply(v, a), w + BytesOf(a))
  {
    hide Inv, Settled;
    match a {
      case Write(bytes) =>
        WriteFacts(v, bytes, w);
      case Drain =>
        DrainKeeps(v);
        assert w + [] == w;
    }
  }

  lemma WriteFacts(v: View, bytes: seq<byte>, w: seq<byte>)
    requires Inv(v) && |v.pending| + |bytes| <= SLICE && Facts(v, w)
    ensures Facts(Wrote(v, bytes), w + bytes)
  {
    hide Inv, Settled, OnePass, Wrote;
    var v' := Wrote(v, bytes);
    if OnePass(w) == Error {
      ErrorStays(w, bytes);
    }
    if v'.refused == v.refused {
      WriteDone(v, bytes);
    } else {
      RefusalRepeats(v, bytes);
      PosWithin(v);
      var moved := v'.refused[|v.refused|];
      assert v'.refused == v.refused + [moved];
      SumAppend(v.refused, moved);
      assert v.pending == v.input[v.m.pos..];
      var all := v.input + bytes;
      assert all == all[..v.m.pos] + (v.pending + bytes);
    }
  }

  lemma {:induction false} ExecFacts(v: View, acts: seq<Action>, w: seq<byte>)
    requires Inv(v) && Facts(v, w)
    ensures Exec(v, acts).Some? ==> Facts(Exec(v, acts).value, w + Written(acts))
    decreases |acts|
  {
    hide Inv, Facts;
    if acts == [] {
      assert w + [] == w;
    } else if Fits(v, acts[0]) {
      ApplyFacts(v, acts[0], w);
      ExecFacts(Apply(v, acts[0]), acts[1..], w + BytesOf(acts[0]));
      Regroup(w, BytesOf(acts[0]), Written(acts[1..]));
    }
  }

  lemma RunFacts(acts: seq<Action>, v: View)
    requires RunsTo(acts, v)
    ensures Inv(v) && Facts(v, Written(acts))
  {
    hide Inv;
    InvFresh();
    ExecFacts(Fresh, acts, []);
    assert [] + Written(acts) == Written(acts);
  }

  /** Byte conservation. What has come out, the header, the chunks, the read buffer and the input buffer together, is
      everything written, in order, exactly if no ebml_wrote that answered -1 had moved anything by then; the source
      goes on after a -1 it ignores, and bytes moved before one come out again. The buffers stay within bounds. */
  lemma BytesConserved(acts: seq<Action>, v: View)
    requires RunsTo(acts, v)
    ensures v.header + Flat(v.chunks) + v.data + v.pending == Written(acts) <==> Sum(v.refused) == 0
    ensures |v.header| + |Flat(v.chunks)| + |v.data| + |v.pending| == |Written(acts)| + Sum(v.refused)
    ensures |v.header| <= HEADER_MAX && |v.data| <= SLICE && |v.pending| <= SLICE
    ensures v.reading ==> v.headerRead == |v.header|
  {
    hide RunsTo, OnTrack, Marked, Aligned, Settled, OnePass;
    RunFacts(acts, v);
    assert v.input == v.input[..v.m.pos] + v.input[v.m.pos..];
  }

  /** What is at fault is the very first thing ebml_wrote looks at. */
  predicate AtFault(v: View) {
    match v.m.c.phase
    case StartCluster => false
    case CopyingToData => false
    case CopyingToHeader => Overflows(v, v.m.c.copyLen)
    case ParsingHeader =>
      var r := Examine(v.m.c, v.pending);
      r.Fail? || (r.Next? && !r.control.phase.StartCluster? && Overflows(v, r.control.copyLen))
    case ParsingClusters => Examine(v.m.c, v.pending).Fail?
  }

  predicate Overflows(v: View, copyLen: nat) {
    |v.header| + Min(|v.pending|, copyLen) > HEADER_MAX
  }

  /** Exactly then nothing is moved before the refusal. */
  lemma RefusedAtOnce(v: View, bytes: seq<byte>)
    requires Inv(v) && |v.pending| + |bytes| <= SLICE
    ensures Wrote(v, bytes).refused == v.refused + [0] <==> AtFault(Received(v, bytes))
  {
    hide Inv, AtFault;
    var v0 := Received(v, bytes);
    ReceivedKeeps(v, bytes);
    InvReady(v0);
    PumpKeeps(v0);
    FaultFirst(v0);
    match Pump(v0) {
      case Done(v') =>
      case Refused(f) =>
        assert Wrote(v, bytes).refused[|v.refused|] == |v0.pending| - |f.pending|;
    }
  }

  /** The action is no write that is refused behind something it has moved. */
  ghost predicate Harmless(v: View, a: Action)
    requires Inv(v) && Fits(v, a)
  {
    Apply(v, a).refused != v.refused ==> AtFault(Received(v, BytesOf(a)))
  }

  /** Every write that was refused found what is at fault at the front of the input buffer. */
  ghost predicate AllHarmless(v: View, acts: seq<Action>)
    requires Inv(v)
    decreases |acts|
  {
    acts != [] && Fits(v, acts[0]) ==> Harmless(v, acts[0]) && AllHarmless(Apply(v, acts[0]), acts[1..])
  }

  lemma HarmlessIff(v: View, a: Action)
    requires Inv(v) && Fits(v, a)
    ensures Sum(Apply(v, a).refused) >= Sum(v.refused)
    ensures Sum(Apply(v, a).refused) == Sum(v.refused) <==> Harmless(v, a)
  {
    hide Inv, AtFault, Wrote;
    if a.Drain? {
      DrainKeeps(v);
    } else if Wrote(v, a.bytes).refused != v.refused {
      RefusalRepeats(v, a.bytes);
      RefusedAtOnce(v, a.bytes);
      var refused := Wrote(v, a.bytes).refused;
      var moved := refused[|v.refused|];
      assert refused == v.refused + [moved];
      SumAppend(v.refused, moved);
      assert moved == 0 <==> refused == v.refused + [0];
    }
  }

  lemma {:induction false} AllHarmlessIff(v: View, acts: seq<Action>)
    requires Inv(v) && Exec(v, acts).Some?
    ensures Sum(Exec(v, acts).value.refused) >= Sum(v.refused)
    ensures Sum(Exec(v, acts).value.refused) == Sum(v.refused) <==> AllHarmless(v, acts)
    decreases |acts|
  {
    hide Inv, Apply, Fits, Harmless, Sum;
    if acts != [] {
      HarmlessIff(v, acts[0]);
      AllHarmlessIff(Apply(v, acts[0]), acts[1..]);
    }
  }

  /** So a run conserves its bytes exactly if each write it refused met the fault at once. */
  lemma ConservedIff(acts: seq<Action>, v: View)
    requires RunsTo(acts, v)
    ensures Inv(Fresh)
    ensures v.header + Flat(v.chunks) + v.data + v.pending == Written(acts) <==> AllHarmless(Fresh, acts)
  {
    hide Inv, AllHarmless;
    InvFresh();
    BytesConserved(acts, v);
    AllHarmlessIff(Fresh, acts);
  }

  lemma FaultFirst(v: View)
    requires Inv(v)
    ensures Ready(v)
    ensures Pump(v).Refused? && |Pump(v).v.pending| == |v.pending| <==> AtFault(v)
  {
    hide Inv;
    InvReady(v);
    PumpStepKeeps(v);
    match v.m.c.phase {
      case ParsingHeader => FaultParsing(v);
      case ParsingClusters => FaultParsing(v);
      case StartCluster => StartMoves(v);
      case CopyingToHeader => HeaderMoves(v);
      case CopyingToData => DataMoves(v);
    }
  }

  lemma FaultParsing(v: View)
    requires Inv(v) && v.m.c.Parsing()
    ensures Ready(v)
    ensures Pump(v).Refused? && |Pump(v).v.pending| == |v.pending| <==> AtFault(v)
  {
    hide Inv, Examine;
    InvReady(v);
    PumpStepKeeps(v);
    var r := Examine(v.m.c, v.pending);
    if r.Next? {
      var v' := ParseElement(v).v;
      if r.control.phase.StartCluster? {
        StartMoves(v');
      } else if r.control.phase.CopyingToHeader? {
        HeaderMoves(v');
      } else {
        DataMoves(v');
      }
    }
  }

  lemma HeaderMoves(v: View)
    requires Inv(v) && v.m.c.phase.CopyingToHeader?
    ensures Ready(v)
    ensures Pump(v).Refused? && |Pump(v).v.pending| == |v.pending| <==> Overflows(v, v.m.c.copyLen)
  {
    hide Inv;
    InvReady(v);
    CopyHeaderKeeps(v);
    var r := CopyHeader(v);
    if r.More? {
      PumpKeeps(r.v);
    }
  }

  lemma DataMoves(v: View)
    requires Inv(v) && v.m.c.phase.CopyingToData?
    ensures Ready(v) && !(Pump(v).Refused? && |Pump(v).v.pending| == |v.pending|)
  {
    hide Inv;
    InvReady(v);
    CopyDataKeeps(v);
    var r := CopyData(v);
    if r.More? {
      PumpKeeps(r.v);
    }
  }

  lemma StartMoves(v: View)
    requires Inv(v) && v.m.c.phase.StartCluster?
    ensures Ready(v) && !(Pump(v).Refused? && |Pump(v).v.pending| == |v.pending|)
  {
    hide Inv;
    InvReady(v);
    BeginKeeps(v);
    if MarkCluster(v).More? {
      DataMoves(MarkCluster(v).v);
    }
  }

  /** The parser does not wait for the reader. */
  predicate Unobstructed(v: View) {
    !v.m.c.phase.StartCluster? && (v.m.c.phase.CopyingToData? ==> v.pending == [])
  }

  /** Refinement: on a stream the one-pass parser accepts nothing is ever refused, and what has been recorded so far
      is a beginning of what that parser records on the same bytes, and all of it unless the splitter waits for the
      reader. */
  lemma RefinesOnePass(acts: seq<Action>, v: View)
    requires RunsTo(acts, v)
    ensures OnePass(Written(acts)).Halted? ==> v.refused == [] && Extends(v.m, OnePass(Written(acts)).m)
    ensures v.refused == [] && Unobstructed(v) ==> OnePass(Written(acts)) == Halted(v.m)
  {
    RunFacts(acts, v);
    if v.refused == [] {
      RunExtends(v.m, v.input);
    }
  }

  /** Hence two runs on the same bytes, cut and drained differently, agree on every element, Cluster and
      verdict and on what is header. */
  lemma ScheduleIndependent(acts: seq<Action>, acts': seq<Action>, v: View, v': View)
    requires RunsTo(acts, v) && RunsTo(acts', v') && Written(acts) == Written(acts')
    requires Unobstructed(v) && Unobstructed(v') && v'.refused == []
    ensures v.m == v'.m && v.header == v'.header && Flat(v.chunks) + v.data == Flat(v'.chunks) + v'.data
  {
    hide Inv, Unobstructed;
    RunFacts(acts, v);
    RunFacts(acts', v');
    RefinesOnePass(acts, v);
    RefinesOnePass(acts', v');
    SameSplit(v, v');
  }

  lemma SameSplit(v: View, v': View)
    requires Inv(v) && Inv(v') && v.m == v'.m && v.input == v'.input
    ensures v.header == v'.header && Flat(v.chunks) + v.data == Flat(v'.chunks) + v'.data
  {
    hide Conserved, Staged, Flat;
    HeaderLength(v);
    HeaderLength(v');
    HeaderThenData(v);
    HeaderThenData(v');
    SplitAt(v.header, Flat(v.chunks) + v.data, v.input[..v.m.pos]);
    SplitAt(v'.header, Flat(v'.chunks) + v'.data, v.input[..v.m.pos]);
  }

  lemma HeaderThenData(v: View)
    requires Conserved(v)
    ensures v.m.pos <= |v.input| && v.header + (Flat(v.chunks) + v.data) == v.input[..v.m.pos]
  {
    Regroup(v.header, Flat(v.chunks), v.data);
  }

  lemma SplitAt(a: seq<byte>, b: seq<byte>, s: seq<byte>)
    ensures a + b == s ==> |a| <= |s| && a == s[..|a|] && b == s[|a|..]
  {
  }

  /** The header is everything before the first Cluster. */
  lemma HeaderLength(v: View)
    requires Conserved(v) && Staged(v)
    ensures |v.header| == if v.m.clusters == [] then v.m.pos else v.m.clusters[0].offset
  {
    HeaderIsInput(v);
  }

  /** Errors do not depend on the schedule either: something has been refused only if the one-pass parser rejects the
      bytes, and exactly then unless the splitter waits for the reader. */
  lemma ErrorsAreReal(acts: seq<Action>, v: View)
    requires RunsTo(acts, v)
    ensures v.refused != [] ==> OnePass(Written(acts)) == Error
    ensures Unobstructed(v) ==> (v.refused != [] <==> OnePass(Written(acts)) == Error)
  {
    RunFacts(acts, v);
    RefinesOnePass(acts, v);
  }

  /** Cluster alignment, in runs with refusals too: of what comes out, every recognised Cluster tag is the first byte of
      a chunk, except that one may wait, marked, in the read buffer; no chunk has a Cluster tag inside it. */
  lemma ClustersAligned(acts: seq<Action>, v: View, i: nat)
    requires RunsTo(acts, v) && i < |v.m.clusters|
    ensures Opened(v.chunks, v.m.clusters[i])
            || (i == |v.m.clusters| - 1 && v.clusterStart >= 0
                && v.m.clusters[i].offset == |v.header| + |Flat(v.chunks)| + v.clusterStart)
    ensures forall k :: 0 <= k < |v.chunks| ==>
        !(v.chunks[k].offset < v.m.clusters[i].offset < v.chunks[k].offset + |v.chunks[k].bytes|)
  {
    hide RunsTo, Conserved, OnTrack, Staged, Settled, Kinds;
    RunFacts(acts, v);
    var cl := v.m.clusters[i];
    forall k | 0 <= k < |v.chunks|
      ensures !(v.chunks[k].offset < cl.offset < v.chunks[k].offset + |v.chunks[k].bytes|)
    {
      EndMono(v.chunks, |v.header|, k + 1);
      if i < Announced(v) {
        var j :| 0 <= j < |v.chunks| && Opens(v.chunks[j], cl);
        if j < k {
          ChunksApart(v.chunks, |v.header|, j, k);
        } else if k < j {
          ChunksApart(v.chunks, |v.header|, k, j);
        }
      }
    }
  }

  lemma ChunksApart(chunks: seq<Chunk>, from: nat, j: nat, k: nat)
    requires Tiled(chunks, from) && j < k < |chunks|
    ensures chunks[j].offset + |chunks[j].bytes| <= chunks[k].offset
    decreases k
  {
    assert chunks[..k][k - 1] == chunks[k - 1];
    if j < k - 1 {
      ChunksApart(chunks, from, j, k - 1);
    }
  }

  lemma EndMono(chunks: seq<Chunk>, from: nat, k: nat)
    requires Tiled(chunks, from) && 0 < k <= |chunks|
    ensures chunks[k - 1].offset + |chunks[k - 1].bytes| <= End(chunks, from)
  {
    if k < |chunks| {
      ChunksApart(chunks, from, k - 1, |chunks| - 1);
    }
  }

  /** Element `a` of the stream is a Cluster, and the chunk begins with it. */
  ghost predicate ChunkOfCluster(s: seq<byte>, elements: seq<Element>, a: nat, ch: Chunk) {
    a < |elements| && elements[a].offset == ch.offset && ClusterAt(s, ch.offset)
  }

  /** Sync points. A sync-point chunk starts a Cluster of the stream. A chunk that starts a Cluster is a sync point
      unless the first block of the video track in that Cluster is no keyframe; if it is one all the same, this block
      had not been seen when the chunk was handed out. */
  lemma SyncPoints(acts: seq<Action>, v: View, k: nat)
    requires RunsTo(acts, v) && k < |v.chunks| && OnePass(Written(acts)).Halted?
    ensures var s, ch := Written(acts), v.chunks[k]; var elements := OnePass(s).m.elements;
      && AllSized(s, elements)
      && (ch.kind == ClusterStart ==> exists a :: ChunkOfCluster(s, elements, a, ch))
      && (forall a :: ChunkOfCluster(s, elements, a, ch) && ch.kind != ClusterStart ==>
            Judges(s, elements, a, NotKeyframe))
      && (forall a :: ChunkOfCluster(s, elements, a, ch) && ch.verdict != Undecided ==>
            Judges(s, elements, a, ch.verdict) && (ch.kind == ClusterStart <==> ch.verdict == Keyframe))
  {
    hide RunsTo, Inv, Facts, OnePass, Judges, ClusterAt;
    var s, ch := Written(acts), v.chunks[k];
    RunFacts(acts, v);
    RefinesOnePass(acts, v);
    var final := OnePass(s).m;
    VerdictMeaning(s);
    OnePassMeaning(s);
    if ch.kind == ClusterStart {
      KindStarts(v, k);
      var i :| 0 <= i < |v.m.clusters| && v.m.clusters[i].offset == ch.offset;
      assert SameCluster(v.m.clusters[i], final.clusters[i]);
      assert Offsets(final.clusters)[i] == ch.offset;
      var a := ClusterElement(s, final.elements, i);
      assert ChunkOfCluster(s, final.elements, a, ch);
    }
    forall a: nat | ChunkOfCluster(s, final.elements, a, ch)
      ensures ch.kind != ClusterStart ==> Judges(s, final.elements, a, NotKeyframe)
      ensures ch.verdict != Undecided ==>
        Judges(s, final.elements, a, ch.verdict) && (ch.kind == ClusterStart <==> ch.verdict == Keyframe)
    {
      assert Verdicted(final, s, a);
      var i := ClusterIndex(s, final.elements, a);
      ChunkJudged(v, final, k, i);
    }
  }

  /** Each Cluster recorded is an element. */
  lemma {:induction false} ClusterElement(s: seq<byte>, elements: seq<Element>, i: nat) returns (a: nat)
    requires i < |ClusterOffsets(s, elements)|
    ensures a < |elements| && elements[a].offset == ClusterOffsets(s, elements)[i] && ClusterAt(s, elements[a].offset)
    decreases |elements|
  {
    var before := elements[..|elements| - 1];
    if i < |ClusterOffsets(s, before)| {
      a := ClusterElement(s, before, i);
    } else {
      a := |elements| - 1;
    }
  }

  lemma KindStarts(v: View, k: nat)
    requires Inv(v) && k < |v.chunks| && v.chunks[k].kind == ClusterStart
    ensures StartsCluster(v.m.clusters, v.chunks[k].offset)
  {
  }

  /** A chunk at the place of a Cluster met sooner or later is the one that opens it. */
  lemma ChunkJudged(v: View, final: Machine, k: nat, i: nat)
    requires Inv(v) && Extends(v.m, final) && k < |v.chunks|
    requires i < |final.clusters| && final.clusters[i].offset == v.chunks[k].offset
    ensures var ch := v.chunks[k];
      && (ch.kind != ClusterStart ==> final.clusters[i].verdict == NotKeyframe)
      && (ch.verdict != Undecided ==>
            final.clusters[i].verdict == ch.verdict && (ch.kind == ClusterStart <==> ch.verdict == Keyframe))
  {
    hide Conserved, OnTrack, Staged;
    ChunkBefore(v, k);
    assert i < |v.m.clusters|;
    assert SameCluster(v.m.clusters[i], final.clusters[i]);
    OpenedBy(v, k, i);
  }

  lemma ChunkBefore(v: View, k: nat)
    requires Inv(v) && k < |v.chunks|
    ensures v.chunks[k].offset < v.m.pos
  {
    hide OnTrack, Marked, AllOpened, Kinds;
    EndMono(v.chunks, |v.header|, k + 1);
    HeaderIsInput(v);
  }

  lemma OpenedBy(v: View, k: nat, i: nat)
    requires Aligned(v) && Marked(v) && k < |v.chunks| && i < |v.m.clusters|
    requires v.m.clusters[i].offset == v.chunks[k].offset
    ensures Opens(v.chunks[k], v.m.clusters[i])
  {
    EndMono(v.chunks, |v.header|, k + 1);
    assert i < Announced(v);
    var j :| 0 <= j < |v.chunks| && Opens(v.chunks[j], v.m.clusters[i]);
    if j < k {
      ChunksApart(v.chunks, |v.header|, j, k);
    } else if k < j {
      ChunksApart(v.chunks, |v.header|, k, j);
    }
  }

  /** Progress: when the input buffer is full and there is nothing to read, the next ebml_wrote(0) makes room or
      refuses, unless the stream began with a Cluster... */
  lemma Progress(acts: seq<Action>, v: View)
    requires RunsTo(acts, v) && v.refused == [] && |v.pending| == SLICE && Space(v) == 0
    requires v.m.clusters == [] || v.m.clusters[0].offset > 0
    ensures Inv(v)
    ensures var v' := Apply(v, Write([])); v'.refused != [] || |v'.pending| < SLICE
  {
    RunFacts(acts, v);
    WriteNothing(v);
    FullAndUnreadable(v);
    if v.m.c.phase.StartCluster? {
      BeginProgress(v);
    } else {
      PumpShrinks(v);
    }
  }

  lemma WriteNothing(v: View)
    requires Inv(v)
    ensures Ready(v) && Received(v, []) == v
    ensures Wrote(v, []) == match Pump(v) case Done(v') => v' case Refused(f) => Wrote(v, [])
    ensures Pump(v).Refused? ==> Wrote(v, []).refused != []
  {
    InvReady(v);
    assert v.pending + [] == v.pending && v.input + [] == v.input;
    if Pump(v).Refused? {
      PumpKeeps(v);
      assert Wrote(v, []) == Unshifted(Pump(v).v, v.pending);
    }
  }

  /** With a full input buffer and nothing to read, the read buffer has room and the parser is about to fill it. */
  lemma FullAndUnreadable(v: View)
    requires Staged(v) && Marked(v) && Settled(v) && |v.data| <= SLICE && |v.pending| == SLICE && Space(v) == 0
    requires v.m.clusters == [] || v.m.clusters[0].offset > 0
    requires v.m.clusters == [] <==> v.m.c.InHeader() || (v.m.c.phase.StartCluster? && v.m.clusters == [])
    ensures |v.data| < SLICE
    ensures (v.m.c.phase.StartCluster? && v.clusterStart < 0) || v.m.c.phase.CopyingToData?
  {
  }

  lemma PumpShrinks(v: View)
    requires Inv(v) && v.m.c.phase.CopyingToData? && v.pending != [] && |v.data| < SLICE
    ensures Ready(v) && |Pump(v).v.pending| < |v.pending|
  {
    var r := CopyData(v);
    InvReady(v);
    CopyDataKeeps(v);
    if r.More? {
      PumpKeeps(r.v);
    }
  }

  lemma BeginProgress(v: View)
    requires Inv(v) && v.m.c.phase.StartCluster? && v.clusterStart < 0 && |v.data| < SLICE
    ensures Ready(v) && |Pump(v).v.pending| < |v.pending|
  {
    InvReady(v);
    BeginKeeps(v);
    PumpShrinks(MarkCluster(v).v);
  }

  /** ...and then nothing ever can be read: a header of no bytes counts as a header not ready yet. */
  lemma ClusterFirstIsStuck(acts: seq<Action>, v: View)
    requires RunsTo(acts, v) && v.m.clusters != [] && v.m.clusters[0].offset == 0
    ensures Space(v) == 0 && v.chunks == [] && !v.reading
  {
    RunFacts(acts, v);
  }
}
