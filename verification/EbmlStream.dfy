/** The EBML splitter as it runs: bounded buffers, a header that is published when the first Cluster is
    met, a marker for one unread Cluster start, input in arbitrary pieces and output drained at arbitrary
    times. Its state is a value here and each entry point a function on it; class EbmlParser does the
    same in place. */
module EbmlStream {
  import opened Bytes
  import opened EbmlVarInt
  import opened EbmlOnePass

  const SLICE: nat := 4096

  datatype ChunkKind = HeaderChunk | ClusterStart | ClusterContinue

  /** A chunk of cluster data handed out: its place in the stream and the verdict held when it was read. */
  datatype Chunk = Chunk(offset: nat, bytes: seq<byte>, kind: ChunkKind, verdict: Verdict)

  /** `input`, `chunks`, `refused` and the records in `m` are history; the rest is the parser's state. `pending` is
      the unconsumed part of the input buffer, `data` the filled part of the read buffer. `refused` says of every
      ebml_wrote that answered -1 how many bytes it had moved by then; `input` is what has been received, with these
      bytes in it twice, since they stay in the input buffer. */
  datatype View = View(m: Machine, input: seq<byte>, pending: seq<byte>,
                       header: seq<byte>, headerSize: nat, headerRead: nat, reading: bool,
                       chunks: seq<Chunk>, data: seq<byte>, clusterStart: int, flush: bool,
                       refused: seq<nat>)

  const Fresh := View(Start, [], [], [], 0, 0, false, [], [], -1, false, [])

  function Flat(chunks: seq<Chunk>): seq<byte> {
    if chunks == [] then [] else Flat(chunks[..|chunks| - 1]) + chunks[|chunks| - 1].bytes
  }

  // ----- ebml_wrote

  datatype PumpResult = Rest(v: View) | Broken | More(v: View)

  ghost predicate Ready(v: View) {
    && |v.data| <= SLICE
    && (v.m.c.Copying() ==> v.m.c.copyLen > 0)
    && (v.m.c.phase.StartCluster? ==> Tag(v.pending).Parsed?)
  }

  /** One turn of the loop in ebml_wrote. */
  ghost function PumpStep(v: View): (r: PumpResult)
    requires Ready(v)
    ensures r.More? ==> Ready(r.v)
    ensures r.More? ==> |r.v.pending| < |v.pending| || (|r.v.pending| == |v.pending| && Rank(r.v.m) < Rank(v.m))
  {
    match v.m.c.phase
    case ParsingHeader => ParseElement(v)
    case ParsingClusters => ParseElement(v)
    case StartCluster => MarkCluster(v)
    case CopyingToHeader => CopyHeader(v)
    case CopyingToData => CopyData(v)
  }

  ghost function ParseElement(v: View): PumpResult
    requires v.m.c.Parsing()
  {
    match Examine(v.m.c, v.pending)
    case Wait => Rest(v)
    case Fail => Broken
    case Next(c) => More(v.(m := if c.phase.StartCluster? then v.m.(c := c) else BeginCopy(v.m, c)))
  }

  /** A Cluster waits until the one before it has left the read buffer; then it is marked. */
  ghost function MarkCluster(v: View): PumpResult
    requires v.m.c.phase.StartCluster? && Tag(v.pending).Parsed?
  {
    if v.clusterStart >= 0 then Rest(v.(flush := true))
    else More(v.(m := BeginCluster(v.m, Tag(v.pending).len), headerSize := |v.header|,
                 clusterStart := |v.data|, flush := false))
  }

  ghost function CopyHeader(v: View): PumpResult
    requires v.m.c.phase.CopyingToHeader?
  {
    var n := Min(|v.pending|, v.m.c.copyLen);
    if |v.header| + n > HEADER_MAX then Broken
    else Moved(v.(header := v.header + v.pending[..n]), n)
  }

  ghost function CopyData(v: View): PumpResult
    requires v.m.c.phase.CopyingToData? && |v.data| <= SLICE
  {
    var n := Min(Min(|v.pending|, v.m.c.copyLen), SLICE - |v.data|);
    Moved(v.(data := v.data + v.pending[..n]), n)
  }

  /** `n` bytes have left the input buffer; parsing resumes once the element is complete. */
  ghost function Moved(v: View, n: nat): PumpResult
    requires v.m.c.Copying() && n <= |v.pending| && n <= v.m.c.copyLen
  {
    var v' := v.(pending := v.pending[n..], m := Advance(v.m, n));
    if n == v.m.c.copyLen then More(v') else Rest(v')
  }

  /** How ebml_wrote ends: by itself, or refusing its input in some state. */
  datatype Pumped = Done(v: View) | Refused(v: View)

  ghost function Pump(v: View): Pumped
    requires Ready(v)
    decreases |v.pending|, Rank(v.m)
  {
    match PumpStep(v)
    case Rest(v') => Done(v')
    case Broken => Refused(v)
    case More(v') => Pump(v')
  }

  function Received(v: View, bytes: seq<byte>): View {
    v.(input := v.input + bytes, pending := v.pending + bytes)
  }

  /** A refusal leaves the whole input buffer where it was, the bytes moved before it included. */
  function Unshifted(v: View, pending: seq<byte>): View
    requires v.m.pos <= |v.input| && |v.pending| <= |pending|
  {
    v.(pending := pending, input := v.input[..v.m.pos] + pending, refused := v.refused + [|pending| - |v.pending|])
  }

  // ----- ebml_read_space and ebml_read

  /** What ebml_read_space answers... */
  function Space(v: View): nat {
    if !v.reading then v.headerSize
    else if v.clusterStart > 0 then v.clusterStart
    else if v.flush || |v.data| == SLICE then |v.data| else 0
  }

  /** ...and the mark it leaves when the Cluster at hand fills the buffer. */
  function Asked(v: View): View {
    if v.reading && v.clusterStart <= 0 && |v.data| == SLICE then v.(flush := true) else v
  }

  datatype ReadResult = ReadResult(v: View, bytes: seq<byte>, kind: ChunkKind)

  /** ebml_read into a buffer of `len` bytes. */
  function Read(v: View, len: nat): ReadResult
    requires v.headerRead <= v.headerSize <= |v.header| && v.clusterStart <= |v.data|
  {
    if len < 1 then ReadResult(v, [], HeaderChunk)
    else if v.reading then ReadData(v, len)
    else if v.headerSize == 0 then ReadResult(v, [], HeaderChunk)
    else
      var n := Min(v.headerSize - v.headerRead, len);
      ReadResult(v.(headerRead := v.headerRead + n, reading := v.headerRead + n == v.headerSize),
                 v.header[..n], HeaderChunk)
  }

  function ReadData(v: View, len: nat): ReadResult
    requires v.clusterStart <= |v.data|
  {
    var kind := if v.clusterStart == 0 && v.m.c.verdict != NotKeyframe then ClusterStart else ClusterContinue;
    var mark := if v.clusterStart == 0 then -1 else v.clusterStart;
    var n := Min(if mark > 0 then mark else |v.data|, len);
    if n == 0 then ReadResult(v.(clusterStart := mark), [], kind)
    else ReadResult(HandedOut(v, n, kind).(clusterStart := if mark > 0 then mark - n else mark), v.data[..n], kind)
  }

  /** The first `n` bytes of the read buffer leave as a chunk. */
  function HandedOut(v: View, n: nat, kind: ChunkKind): View
    requires n <= |v.data|
  {
    v.(data := v.data[n..],
       chunks := v.chunks + [Chunk(|v.header| + |Flat(v.chunks)|, v.data[..n], kind, v.m.c.verdict)])
  }
}
