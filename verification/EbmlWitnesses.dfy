/** Two small streams on which the splitter does not do what a reader of its comments would expect: one whose last
    Cluster it hands out again and again, and one it never gets past the header of. */
module EbmlWitnesses {
  import opened Bytes
  import opened EbmlVarInt
  import opened EbmlOnePass
  import opened EbmlStream
  import opened EbmlInvariants
  import opened EbmlRuns

  const VOID: seq<byte> := [0xEC, 0x80]
  const EMPTY_CLUSTER: seq<byte> := [0x1F, 0x43, 0xB6, 0x75, 0x80]

  /** An empty header element, two empty Clusters and a byte that starts no element. */
  const FAULTY: seq<byte> := VOID + (EMPTY_CLUSTER + (EMPTY_CLUSTER + [0]))

  lemma ZeroSize(w: seq<byte>)
    requires |w| > 0 && w[0] == 0x80
    ensures VarInt(w) == Parsed(1, 0)
  {
    assert w[1..1] == [];
    assert Capacity(1) == 128;
  }

  lemma ClusterTag(rest: seq<byte>)
    ensures var w := EMPTY_CLUSTER + rest; Tag(w) == Parsed(5, 0) && Magic(w, 5, CLUSTER)
  {
    var w := EMPTY_CLUSTER + rest;
    ZeroSize(w[4..]);
    assert w[..4] == CLUSTER;
  }

  lemma VoidTag(rest: seq<byte>)
    ensures Tag(VOID + rest) == Parsed(2, 0)
  {
    var w := VOID + rest;
    ZeroSize(w[1..]);
  }

  // ----- turns of ebml_wrote

  /** A Cluster at the front of the input buffer, recognised. */
  lemma Recognises(v: View, rest: seq<byte>)
    requires Ready(v) && v.m.c.Parsing() && v.pending == EMPTY_CLUSTER + rest
    ensures PumpStep(v) == More(v.(m := v.m.(c := v.m.c.(phase := StartCluster))))
  {
    ClusterTag(rest);
  }

  /** A Cluster whose turn it is goes to the read buffer whole. */
  function Taken(v: View, rest: seq<byte>): View {
    v.(m := v.m.(c := v.m.c.(phase := ParsingClusters, copyLen := 0, verdict := Undecided), pos := v.m.pos + 5,
                 elements := v.m.elements + [Element(v.m.pos, 5)],
                 clusters := v.m.clusters + [Cluster(v.m.pos, Undecided)]),
       headerSize := |v.header|, clusterStart := |v.data|, flush := false,
       pending := rest, data := v.data + EMPTY_CLUSTER)
  }

  lemma Takes(v: View, rest: seq<byte>)
    requires Ready(v) && v.m.c.phase.StartCluster? && v.pending == EMPTY_CLUSTER + rest
    requires v.clusterStart < 0 && |v.data| + 5 <= SLICE
    ensures Ready(Taken(v, rest)) && Pump(v) == Pump(Taken(v, rest))
  {
    ClusterTag(rest);
    var v1 := MarkCluster(v).v;
    assert v.pending[..5] == EMPTY_CLUSTER && v.pending[5..] == rest;
    assert PumpStep(v) == More(v1);
    assert CopyData(v1) == More(Taken(v, rest));
    assert PumpStep(v1) == More(Taken(v, rest));
  }

  // ----- a Cluster without end

  /** What one pass of the source's loop does while its connection has nothing: a write that is refused, one that is
      not, and a chunk. */
  const Again: seq<Action> := [Write([]), Write([]), Drain]

  /** A Cluster that has been handed out, or not yet, waits in front of the faulty byte. */
  ghost predicate Waiting(v: View) {
    && Inv(v) && v.m.c.phase.StartCluster? && v.pending == EMPTY_CLUSTER + [0]
    && v.data == [] && v.clusterStart == -1 && v.reading
  }

  /** It is put out, the byte behind it refused, and the input buffer stays as it was. */
  lemma PutOut(v: View)
    requires Waiting(v)
    ensures var v1 := Wrote(v, []);
      && v1.m.c.phase.ParsingClusters? && v1.m.c.verdict == Undecided && v1.pending == v.pending
      && v1.data == EMPTY_CLUSTER && v1.clusterStart == 0 && v1.reading && v1.chunks == v.chunks
      && v1.refused == v.refused + [5]
  {
    hide Inv;
    WriteNothing(v);
    Takes(v, [0]);
    var v2 := Taken(v, [0]);
    assert PumpStep(v2) == Broken;
    assert Pump(v) == Refused(v2);
    PumpKeeps(v);
    UnshiftedKeeps(v2, v.pending);
    assert Wrote(v, []) == Unshifted(v2, v.pending);
    assert [] + EMPTY_CLUSTER == EMPTY_CLUSTER;
  }

  /** It is recognised anew. */
  lemma Recognised(v: View)
    requires Inv(v) && v.m.c.phase.ParsingClusters? && v.pending == EMPTY_CLUSTER + [0] && v.clusterStart >= 0
    ensures Wrote(v, []) == v.(m := v.m.(c := v.m.c.(phase := StartCluster)), flush := true)
  {
    hide Inv;
    WriteNothing(v);
    Recognises(v, [0]);
    var v1 := v.(m := v.m.(c := v.m.c.(phase := StartCluster)));
    assert PumpStep(v1) == Rest(v1.(flush := true));
    assert Pump(v1) == Done(v1.(flush := true));
  }

  /** And handed out. */
  lemma HandsOut(v: View)
    requires Inv(v) && v.reading && v.clusterStart == 0 && v.flush && v.data == EMPTY_CLUSTER
    requires v.m.c.verdict == Undecided
    ensures Apply(v, Drain) == HandedOut(v, 5, ClusterStart).(clusterStart := -1)
    ensures HandedOut(v, 5, ClusterStart).data == []
  {
    assert v.data[..5] == EMPTY_CLUSTER;
    assert Space(v) == 5 && Asked(v) == v;
  }

  lemma OnceMore(v: View) returns (v': View)
    requires Waiting(v)
    ensures Waiting(v') && Exec(v, Again) == Some(v')
    ensures |v'.chunks| == |v.chunks| + 1 && v'.chunks[..|v.chunks|] == v.chunks
    ensures v'.chunks[|v.chunks|].bytes == EMPTY_CLUSTER && v'.chunks[|v.chunks|].kind == ClusterStart
    ensures v'.refused == v.refused + [5]
  {
    hide Inv, Wrote, Apply, HandedOut, Exec, Fits;
    PutOut(v);
    var v1 := Wrote(v, []);
    Recognised(v1);
    var v2 := Wrote(v1, []);
    WriteIsWrote(v2);
    HandsOut(v2);
    v' := Apply(v2, Drain);
    Leaves(v2, v');
    WriteIsWrote(v);
    WriteIsWrote(v1);
    Thrice(v, Write([]), Write([]), Drain, v1, v2, v');
  }

  lemma Leaves(v: View, v': View)
    requires |v.data| >= 5 && v' == HandedOut(v, 5, ClusterStart).(clusterStart := -1)
    ensures |v'.chunks| == |v.chunks| + 1 && v'.chunks[..|v.chunks|] == v.chunks
    ensures v'.chunks[|v.chunks|].bytes == v.data[..5]
    ensures v'.chunks[|v.chunks|].kind == ClusterStart
    ensures v'.m == v.m && v'.pending == v.pending && v'.refused == v.refused && v'.reading == v.reading
  {
  }

  lemma WriteIsWrote(v: View)
    requires Inv(v)
    ensures Fits(v, Write([])) && Fits(v, Drain) && Apply(v, Write([])) == Wrote(v, [])
  {
  }

  lemma Thrice(v: View, a: Action, b: Action, c: Action, v1: View, v2: View, v3: View)
    requires Inv(v) && Inv(v1) && Inv(v2) && Fits(v, a) && Fits(v1, b) && Fits(v2, c)
    requires Apply(v, a) == v1 && Apply(v1, b) == v2 && Apply(v2, c) == v3
    ensures Exec(v, [a, b, c]) == Some(v3)
  {
    hide Inv, Apply, Fits;
    assert [a, b, c][1..] == [b, c] && [b, c][1..] == [c] && [c][1..] == [];
    assert Exec(v3, []) == Some(v3);
    assert Exec(v2, [c]) == Some(v3);
    assert Exec(v1, [b, c]) == Some(v3);
  }

  // ----- from the start

  const Begin: seq<Action> := [Write(FAULTY), Drain, Drain]

  lemma ExaminesVoid(rest: seq<byte>)
    ensures Examine(Initial, VOID + rest) == Next(Initial.(phase := CopyingToHeader, copyLen := 2))
  {
    hide Tag;
    VoidTag(rest);
    assert (VOID + rest)[0] == 0xEC;
  }

  lemma ReadsVoid(v: View, rest: seq<byte>)
    requires v == Received(Fresh, VOID + rest)
    ensures var v1 := v.(m := Machine(Initial, 2, [Element(0, 2)], []), header := VOID, pending := rest);
      Ready(v) && Ready(v1) && Pump(v) == Pump(v1)
  {
    hide Examine, Tag;
    ExaminesVoid(rest);
    assert v.pending == VOID + rest;
    var v0 := v.(m := Machine(Initial.(phase := CopyingToHeader, copyLen := 2), 0, [Element(0, 2)], []));
    assert PumpStep(v) == More(v0);
    CopiesVoid(v0, rest);
  }

  lemma CopiesVoid(v: View, rest: seq<byte>)
    requires v.m.c == Initial.(phase := CopyingToHeader, copyLen := 2) && v.m.pos == 0 && v.data == []
    requires v.pending == VOID + rest && v.header == []
    ensures var v1 := v.(m := v.m.(c := Initial, pos := 2), header := VOID, pending := rest);
      Ready(v) && Ready(v1) && Pump(v) == Pump(v1)
  {
    hide Examine, Tag;
    assert v.pending[..2] == VOID && v.pending[2..] == rest;
    assert [] + VOID == VOID;
    assert PumpStep(v) == More(v.(m := v.m.(c := Initial, pos := 2), header := VOID, pending := rest));
  }

  /** The first write takes in the header and the first Cluster and waits before the second. */
  lemma FirstWrite()
    ensures Inv(Fresh) && Fits(Fresh, Write(FAULTY))
    ensures var v := Apply(Fresh, Write(FAULTY));
      && v.m.c.phase.StartCluster? && v.m.c.verdict == Undecided && v.pending == EMPTY_CLUSTER + [0]
      && v.data == EMPTY_CLUSTER && v.clusterStart == 0 && v.flush && !v.reading && v.chunks == [] && v.refused == []
      && v.header == VOID && v.headerSize == 2 && v.headerRead == 0
  {
    hide Inv;
    InvFresh();
    var v := Received(Fresh, FAULTY);
    ReceivedKeeps(Fresh, FAULTY);
    InvReady(v);
    var rest := EMPTY_CLUSTER + (EMPTY_CLUSTER + [0]);
    ReadsVoid(v, rest);
    var v1 := v.(m := Machine(Initial, 2, [Element(0, 2)], []), header := VOID, pending := rest);
    Recognises(v1, EMPTY_CLUSTER + [0]);
    var v2 := v1.(m := v1.m.(c := v1.m.c.(phase := StartCluster)));
    Takes(v2, EMPTY_CLUSTER + [0]);
    var v3 := Taken(v2, EMPTY_CLUSTER + [0]);
    Recognises(v3, [0]);
    var v4 := v3.(m := v3.m.(c := v3.m.c.(phase := StartCluster)));
    assert PumpStep(v4) == Rest(v4.(flush := true));
    assert Pump(v4) == Done(v4.(flush := true));
    assert [] + EMPTY_CLUSTER == EMPTY_CLUSTER;
    assert Pump(v) == Done(v4.(flush := true));
  }

  /** Then the header is read, and the first Cluster. */
  lemma Begins() returns (v: View)
    ensures RunsTo(Begin, v) && Waiting(v) && v.refused == [] && |v.chunks| == 1
    ensures v.chunks[0].bytes == EMPTY_CLUSTER && v.chunks[0].kind == ClusterStart
  {
    hide Inv, Wrote, HandedOut;
    FirstWrite();
    var v1 := Apply(Fresh, Write(FAULTY));
    DrainFits(v1);
    assert Space(v1) == 2 && Asked(v1) == v1;
    var v2 := Apply(v1, Drain);
    assert v2 == v1.(headerRead := 2, reading := true);
    DrainFits(v2);
    HandsOut(v2);
    v := Apply(v2, Drain);
    Leaves(v2, v);
    Thrice(Fresh, Write(FAULTY), Drain, Drain, v1, v2, v);
  }

  lemma DrainFits(v: View)
    requires Inv(v)
    ensures Fits(v, Drain)
  {
  }

  function Repeated(n: nat): seq<Action> {
    if n == 0 then Begin else Repeated(n - 1) + Again
  }

  lemma {:induction false} WrittenConcat(a: seq<Action>, b: seq<Action>)
    ensures Written(a + b) == Written(a) + Written(b)
  {
    if a == [] {
      assert a + b == b && [] + Written(b) == Written(b);
    } else {
      assert (a + b)[1..] == a[1..] + b;
      WrittenConcat(a[1..], b);
      Regroup(BytesOf(a[0]), Written(a[1..]), Written(b));
    }
  }

  lemma {:induction false} ExecConcat(v: View, a: seq<Action>, b: seq<Action>)
    requires Inv(v) && Exec(v, a).Some?
    ensures Exec(v, a + b) == Exec(Exec(v, a).value, b)
    decreases |a|
  {
    hide Inv, Apply, Fits;
    if a == [] {
      assert a + b == b;
    } else {
      assert (a + b)[1..] == a[1..] + b;
      ExecConcat(Apply(v, a[0]), a[1..], b);
    }
  }

  /** All the chunks are the empty Cluster, as a sync point. */
  ghost predicate AllTheSame(chunks: seq<Chunk>) {
    forall k :: 0 <= k < |chunks| ==> chunks[k].bytes == EMPTY_CLUSTER && chunks[k].kind == ClusterStart
  }

  lemma RunMore(acts: seq<Action>, v: View, more: seq<Action>, v': View)
    requires Inv(v) && RunsTo(acts, v) && Exec(v, more) == Some(v')
    ensures RunsTo(acts + more, v') && Written(acts + more) == Written(acts) + Written(more)
  {
    hide Inv, Exec, Written;
    InvFresh();
    ExecConcat(Fresh, acts, more);
    WrittenConcat(acts, more);
  }

  lemma OnlyFaulty()
    ensures Written(Begin) == FAULTY && Written(Again) == []
  {
    assert Begin == [Write(FAULTY)] + [Drain, Drain] && Again == [Write([]), Write([])] + [Drain];
    assert [Drain, Drain][1..] == [Drain] && [Drain][1..] == [];
    assert Begin[1..] == [Drain, Drain] && Again[1..] == [Write([]), Drain] && [Write([]), Drain][1..] == [Drain];
    assert Written([Drain]) == [] && Written([Drain, Drain]) == [] && Written([Write([]), Drain]) == [];
  }

  /** Of the thirteen bytes of the faulty stream, written once, the source can get any number of Clusters: as long as
      it asks while there is nothing to read, the second Cluster is handed out again each time. */
  lemma {:induction false} ClusterRepeats(n: nat) returns (v: View)
    ensures RunsTo(Repeated(n), v) && Written(Repeated(n)) == FAULTY
    ensures |v.chunks| == n + 1 && AllTheSame(v.chunks) && Sum(v.refused) == 5 * n && Waiting(v)
  {
    hide Inv, Written, RunsTo, Exec;
    OnlyFaulty();
    if n == 0 {
      v := Begins();
    } else {
      var before := ClusterRepeats(n - 1);
      v := OnceMore(before);
      RunMore(Repeated(n - 1), before, Again, v);
      SumAppend(before.refused, 5);
      assert FAULTY + [] == FAULTY;
      assert forall k :: 0 <= k < n ==> v.chunks[k] == v.chunks[..n][k];
    }
  }

  // ----- a Cluster at once

  /** A stream that begins with a Cluster is never got past, and there is such a run. */
  lemma StuckAtOnce() returns (v: View)
    ensures RunsTo([Write(EMPTY_CLUSTER)], v) && v.m.clusters == [Cluster(0, Undecided)]
    ensures v.refused == [] && v.data == EMPTY_CLUSTER && Space(v) == 0
  {
    hide Inv;
    InvFresh();
    var v0, w := Received(Fresh, EMPTY_CLUSTER), Write(EMPTY_CLUSTER);
    ReceivedKeeps(Fresh, EMPTY_CLUSTER);
    InvReady(v0);
    assert v0.pending == EMPTY_CLUSTER + [];
    Recognises(v0, []);
    var v1 := v0.(m := v0.m.(c := v0.m.c.(phase := StartCluster)));
    Takes(v1, []);
    var v2 := Taken(v1, []);
    assert PumpStep(v2) == Rest(v2);
    assert Pump(v0) == Done(v2);
    assert [] + EMPTY_CLUSTER == EMPTY_CLUSTER;
    v := Apply(Fresh, w);
    assert [w][1..] == [] && Exec(v, []) == Some(v);
  }
}
