/** The EBML splitter in place: three byte buffers, positions and states, updated by the calls of the source.
    Every call is proved to do to the fields what module EbmlStream says it does to their value. */
module EbmlParser {
  import opened Bytes
  import opened EbmlVarInt
  import opened EbmlOnePass
  import opened EbmlStream
  import opened EbmlInvariants

  /** memcpy. */
  method Copy(dst: array<byte>, at: nat, src: array<byte>, from: nat, n: nat)
    requires dst != src && at + n <= dst.Length && from + n <= src.Length
    modifies dst
    ensures dst[..at] == old(dst[..at]) && dst[at..at + n] == src[from..from + n]
  {
    forall i | 0 <= i < n {
      dst[at + i] := src[from + i];
    }
  }

  class Parser {
    var reading: bool
    var phase: Phase
    var copyLen: nat
    var clusterStart: int
    var verdict: Verdict
    var flush: bool
    var position: nat
    const buffer: array<byte>
    var inputPosition: nat
    const inputBuffer: array<byte>
    var headerSize: nat
    var headerPosition: nat
    var headerRead: nat
    const header: array<byte>
    var videoTrack: nat
    var trackNumber: nat
    var trackIsVideo: bool

    // What has happened so far.
    ghost var pos: nat
    ghost var input: seq<byte>
    ghost var elements: seq<Element>
    ghost var clusters: seq<Cluster>
    ghost var chunks: seq<Chunk>
    ghost var refused: seq<nat>

    ghost predicate Bounds(cursor: nat)
      reads this
    {
      && buffer != inputBuffer && header != inputBuffer && header != buffer
      && buffer.Length == SLICE && inputBuffer.Length == SLICE && header.Length == HEADER_MAX
      && position <= SLICE && cursor <= inputPosition <= SLICE && headerPosition <= HEADER_MAX
    }

    function Fields(): Control
      reads this
    {
      Control(phase, copyLen, verdict, videoTrack, trackNumber, trackIsVideo)
    }

    /** The state as a value, while bytes before `cursor` in the input buffer are already consumed. */
    ghost function At(cursor: nat): View
      requires Bounds(cursor)
      reads this, buffer, inputBuffer, header
    {
      View(Machine(Fields(), pos, elements, clusters), input, inputBuffer[cursor..inputPosition],
           header[..headerPosition], headerSize, headerRead, reading,
           chunks, buffer[..position], clusterStart, flush, refused)
    }

    ghost function Header(): seq<byte>
      reads this, header
    {
      header[..Min(headerPosition, header.Length)]
    }

    ghost predicate Valid()
      reads this, buffer, inputBuffer, header
    {
      Bounds(0) && Inv(At(0))
    }

    constructor ()
      ensures Valid() && At(0) == Fresh
      ensures fresh(buffer) && fresh(inputBuffer) && fresh(header)
    {
      reading, phase, copyLen := false, ParsingHeader, 0;
      clusterStart, verdict, flush := -1, NotKeyframe, false;
      position, inputPosition := 0, 0;
      headerSize, headerPosition, headerRead := 0, 0, 0;
      videoTrack, trackNumber, trackIsVideo := UNKNOWN, UNKNOWN, false;
      buffer := new byte[SLICE](_ => 0);
      inputBuffer := new byte[SLICE](_ => 0);
      header := new byte[HEADER_MAX](_ => 0);
      pos, input, elements, clusters, chunks, refused := 0, [], [], [], [], [];
      new;
      InvFresh();
      assert At(0) == Fresh;
    }

    /** ebml_parse_tag over the unconsumed input. */
    method ParseTag(cursor: nat) returns (size: int, payload: nat)
      requires Bounds(cursor)
      ensures size == Code(Tag(inputBuffer[cursor..inputPosition]))
      ensures size > 0 ==> payload == Tag(inputBuffer[cursor..inputPosition]).value
    {
      payload := 0;
      ghost var w := inputBuffer[cursor..inputPosition];
      var typeLen, tagId := ParseVarInt(inputBuffer, cursor, inputPosition);
      if typeLen <= 0 {
        return typeLen, 0;
      }
      assert w[typeLen..] == inputBuffer[cursor + typeLen..inputPosition];
      var sizeLen;
      sizeLen, payload := ParseVarInt(inputBuffer, cursor + typeLen, inputPosition);
      if sizeLen <= 0 {
        return sizeLen, payload;
      }
      size := typeLen + sizeLen;
    }

    /** memcmp with one of the four-byte identifiers. */
    method Matches(cursor: nat, magic: seq<byte>) returns (b: bool)
      requires Bounds(cursor) && |magic| == 4 && cursor + 4 <= inputPosition
      ensures b == (inputBuffer[cursor..inputPosition][..4] == magic)
    {
      assert inputBuffer[cursor..inputPosition][..4] == inputBuffer[cursor..cursor + 4];
      b := inputBuffer[cursor..cursor + 4] == magic;
    }

    /** ebml_check_track */
    method CheckTrack()
      modifies this`videoTrack
      ensures Fields() == old(Fields()).CheckTrack()
    {
      if videoTrack == UNKNOWN && trackIsVideo && trackNumber != UNKNOWN {
        videoTrack := trackNumber;
      }
    }

    /** Look inside SimpleBlock, TrackEntry, TrackNumber and TrackType: 1 to go on, 0 to wait for more data,
        -1 for an error; then nothing has changed. */
    method ProbeElement(cursor: nat, tagLen: nat, payload: nat) returns (status: int)
      requires Bounds(cursor) && cursor + tagLen <= inputPosition && 2 <= tagLen <= 16
      modifies this`verdict, this`trackNumber, this`trackIsVideo, this`videoTrack
      ensures match Probe(old(Fields()), inputBuffer[cursor..inputPosition], tagLen, payload)
              case Wait => status == 0 && Fields() == old(Fields())
              case Fail => status == -1 && Fields() == old(Fields())
              case Next(c) => status == 1 && Fields() == c
    {
      hide VarInt, SizedInt;
      ghost var w: seq<byte> := inputBuffer[cursor..inputPosition];
      assert w[tagLen..] == inputBuffer[cursor + tagLen..inputPosition];
      var id := inputBuffer[cursor];
      assert w[0] == id;
      status := 1;
      if id == SIMPLE_BLOCK {
        status := ProbeBlock(cursor, tagLen, payload);
      } else if id == TRACK_ENTRY {
        trackNumber, trackIsVideo := UNKNOWN, false;
      } else if id == TRACK_NUMBER {
        var size, value := ParseSizedInt(inputBuffer, cursor + tagLen, inputPosition, payload, false);
        if size <= 0 {
          status := size;
        } else {
          trackNumber := value;
          CheckTrack();
        }
      } else if id == TRACK_TYPE {
        var size, value := ParseSizedInt(inputBuffer, cursor + tagLen, inputPosition, payload, false);
        if size <= 0 {
          status := size;
        } else if value % 2 == 1 {
          trackIsVideo := true;
          CheckTrack();
        }
      }
    }

    /** The flags of a SimpleBlock of the video track, if the Cluster has no verdict yet. */
    method ProbeBlock(cursor: nat, tagLen: nat, ghost payload: nat) returns (status: int)
      requires Bounds(cursor) && cursor + tagLen <= inputPosition && 2 <= tagLen <= 16
      requires inputBuffer[cursor] == SIMPLE_BLOCK
      modifies this`verdict
      ensures match Probe(old(Fields()), inputBuffer[cursor..inputPosition], tagLen, payload)
              case Wait => status == 0 && Fields() == old(Fields())
              case Fail => status == -1 && Fields() == old(Fields())
              case Next(c) => status == 1 && Fields() == c
    {
      hide SizedInt;
      ghost var w: seq<byte> := inputBuffer[cursor..inputPosition];
      ghost var body := w[tagLen..];
      assert body == inputBuffer[cursor + tagLen..inputPosition] && w[0] == SIMPLE_BLOCK;
      status := 1;
      if verdict == Undecided {
        var size, track := ParseVarInt(inputBuffer, cursor + tagLen, inputPosition);
        if size == 0 {
          status := 0;
        } else if size < 0 {
          status := -1;
        } else if track == videoTrack {
          if cursor + tagLen + size + 2 >= inputPosition {
            status := 0;
          } else {
            var flags := inputBuffer[cursor + tagLen + size + 2];
            assert flags == w[tagLen + size + 2];
            verdict := if flags >= 0x80 then Keyframe else NotKeyframe;
          }
        }
      }
    }

    /** The four-byte identifiers: is it a Cluster, and how much payload is to be copied. */
    method Recognise(cursor: nat, tagLen: nat, size: nat) returns (isCluster: bool, payload: nat)
      requires Bounds(cursor) && cursor + tagLen <= inputPosition
      ensures isCluster == Magic(inputBuffer[cursor..inputPosition], tagLen, CLUSTER)
      ensures !isCluster ==> payload == Payload(inputBuffer[cursor..inputPosition], tagLen, size)
    {
      isCluster, payload := false, if size == UNKNOWN then 0 else size;
      if tagLen > 4 {
        isCluster := Matches(cursor, CLUSTER);
        var isSegment := Matches(cursor, SEGMENT);
        var isTracks := Matches(cursor, TRACKS);
        if isSegment || isTracks {
          payload := 0;
        }
      }
    }

    /** The PARSING states of ebml_wrote: 1 to go on, 0 to wait for more data, -1 for an error. */
    method ExamineElement(cursor: nat) returns (status: int)
      requires Bounds(cursor) && phase in {ParsingHeader, ParsingClusters}
      modifies this`verdict, this`trackNumber, this`trackIsVideo, this`videoTrack, this`copyLen, this`phase
      ensures match Examine(old(Fields()), inputBuffer[cursor..inputPosition])
              case Wait => status == 0 && Fields() == old(Fields())
              case Fail => status == -1 && Fields() == old(Fields())
              case Next(c) => status == 1 && Fields() == c
    {
      var copyPhase := if phase.ParsingHeader? then CopyingToHeader else CopyingToData;
      var tagLen, size := ParseTag(cursor);
      if tagLen <= 0 {
        return tagLen;
      }
      var isCluster, payload := Recognise(cursor, tagLen, size);
      if isCluster {
        phase := StartCluster;
        return 1;
      }
      status := ProbeElement(cursor, tagLen, payload);
      if status == 1 {
        if inputBuffer[cursor] == TRACK_ENTRY {
          payload := 0;
        }
        copyLen := tagLen + payload;
        phase := copyPhase;
      }
    }

    /** The PARSING states, as a turn of the loop. */
    method ParseTurn(cursor: nat) returns (status: int)
      requires Bounds(cursor) && phase in {ParsingHeader, ParsingClusters}
      modifies this`verdict, this`trackNumber, this`trackIsVideo, this`videoTrack, this`copyLen, this`phase,
        this`elements, this`clusters
      ensures Bounds(cursor) && inputPosition == old(inputPosition)
      ensures match ParseElement(old(At(cursor)))
              case Rest(v) => status == 0 && At(cursor) == v
              case Broken => status == -1 && At(cursor) == old(At(cursor))
              case More(v) => status == 1 && At(cursor) == v
    {
      hide Examine, Tag, Magic, WithVerdict;
      ghost var pending, h, data := inputBuffer[cursor..inputPosition], header[..headerPosition], buffer[..position];
      status := ExamineElement(cursor);
      if status == 1 && !phase.StartCluster? {
        Recorded(Element(pos, copyLen), WithVerdict(clusters, verdict));
      }
      assert inputBuffer[cursor..inputPosition] == pending;
      assert header[..headerPosition] == h && buffer[..position] == data;
    }

    /** The START_CLUSTER state. */
    method StartTurn(cursor: nat) returns (goOn: bool)
      requires Bounds(cursor) && phase.StartCluster? && Tag(inputBuffer[cursor..inputPosition]).Parsed?
      modifies this
      ensures Bounds(cursor) && inputPosition == old(inputPosition)
      ensures match MarkCluster(old(At(cursor)))
              case Rest(v) => !goOn && At(cursor) == v
              case Broken => false
              case More(v) => goOn && At(cursor) == v
    {
      if clusterStart >= 0 {
        flush := true;
        return false;
      }
      var tagLen, payload := ParseTag(cursor);
      PublishHeader(cursor, tagLen);
      goOn := true;
    }

    /** The header is complete; the Cluster about to be copied becomes the marked one. */
    method PublishHeader(cursor: nat, tagLen: nat)
      requires Bounds(cursor)
      modifies this`headerSize, this`clusterStart, this`verdict, this`flush, this`copyLen, this`phase,
        this`elements, this`clusters
      ensures Bounds(cursor) && inputPosition == old(inputPosition)
      ensures var v := old(At(cursor));
        At(cursor) ==
          v.(m := BeginCluster(v.m, tagLen), headerSize := |v.header|, clusterStart := |v.data|, flush := false)
    {
      ghost var pending, h, data := inputBuffer[cursor..inputPosition], header[..headerPosition], buffer[..position];
      MarkHere();
      copyLen := tagLen;
      phase := CopyingToData;
      Recorded(Element(pos, tagLen), clusters + [Cluster(pos, Undecided)]);
      assert inputBuffer[cursor..inputPosition] == pending;
      assert header[..headerPosition] == h && buffer[..position] == data;
    }

    /** What is in the header is all of it, and the Cluster starts at the end of the read buffer. */
    method MarkHere()
      modifies this`headerSize, this`clusterStart, this`verdict, this`flush
      ensures headerSize == headerPosition && clusterStart == position && verdict == Undecided && !flush
    {
      headerSize := headerPosition;
      clusterStart := position;
      verdict := Undecided;
      flush := false;
    }

    /** History: an element starts here. */
    ghost method Recorded(e: Element, cs: seq<Cluster>)
      requires Bounds(inputPosition)
      modifies this`elements, this`clusters
      ensures elements == old(elements) + [e] && clusters == cs
    {
      elements := elements + [e];
      clusters := cs;
    }

    /** COPYING_TO_HEADER: the number of bytes moved, or -1 when the header would get too large. */
    method CopyHeaderTurn(cursor: nat) returns (n: int)
      requires Bounds(cursor) && phase.CopyingToHeader? && copyLen > 0
      modifies this`headerPosition, this`copyLen, this`pos, this`phase, header
      ensures Bounds(cursor + if n < 0 then 0 else n) && inputPosition == old(inputPosition)
      ensures match CopyHeader(old(At(cursor)))
              case Rest(v) => n >= 0 && phase.CopyingToHeader? && At(cursor + n) == v
              case Broken => n == -1 && At(cursor) == old(At(cursor))
              case More(v) => n >= 0 && !phase.CopyingToHeader? && At(cursor + n) == v
    {
      n := inputPosition - cursor;
      if n > copyLen {
        n := copyLen;
      }
      if headerPosition + n > HEADER_MAX {
        return -1;
      }
      Copy(header, headerPosition, inputBuffer, cursor, n);
      assert header[..headerPosition + n] == header[..headerPosition] + header[headerPosition..headerPosition + n];
      headerPosition := headerPosition + n;
      Consumed(cursor, n);
    }

    /** COPYING_TO_DATA: the number of bytes moved. */
    method CopyDataTurn(cursor: nat) returns (n: nat)
      requires Bounds(cursor) && phase.CopyingToData? && copyLen > 0
      modifies this`position, this`copyLen, this`pos, this`phase, buffer
      ensures Bounds(cursor + n) && inputPosition == old(inputPosition)
      ensures match CopyData(old(At(cursor)))
              case Rest(v) => phase.CopyingToData? && At(cursor + n) == v
              case Broken => false
              case More(v) => !phase.CopyingToData? && At(cursor + n) == v
    {
      n := inputPosition - cursor;
      if n > copyLen {
        n := copyLen;
      }
      if position + n > SLICE {
        n := SLICE - position;
      }
      FillData(cursor, n);
    }

    /** `n` bytes move from the input buffer to the end of the read buffer. */
    method FillData(cursor: nat, n: nat)
      requires Bounds(cursor) && phase.CopyingToData? && 0 < copyLen
      requires n <= copyLen && cursor + n <= inputPosition && position + n <= SLICE
      modifies this`position, this`copyLen, this`pos, this`phase, buffer
      ensures Bounds(cursor + n) && inputPosition == old(inputPosition)
      ensures var v := old(At(cursor));
        Moved(v.(data := v.data + v.pending[..n]), n) ==
          (if n == old(copyLen) then More(At(cursor + n)) else Rest(At(cursor + n)))
      ensures phase == old(phase) <==> n < old(copyLen)
    {
      Copy(buffer, position, inputBuffer, cursor, n);
      assert buffer[..position + n] == buffer[..position] + buffer[position..position + n];
      position := position + n;
      Consumed(cursor, n);
    }

    /** The end of both: `n` bytes are done with, and so, maybe, is the element. */
    method Consumed(cursor: nat, n: nat)
      requires Bounds(cursor) && cursor + n <= inputPosition && Fields().Copying() && n <= copyLen
      requires copyLen > 0
      modifies this`copyLen, this`pos, this`phase
      ensures Bounds(cursor + n)
      ensures Moved(old(At(cursor)), n) ==
        if n == old(copyLen) then More(At(cursor + n)) else Rest(At(cursor + n))
      ensures phase == old(phase) <==> n < old(copyLen)
      ensures inputBuffer[cursor..inputPosition][..n] == inputBuffer[cursor..cursor + n]
    {
      assert inputBuffer[cursor..inputPosition][n..] == inputBuffer[cursor + n..inputPosition];
      copyLen := copyLen - n;
      pos := pos + n;
      if copyLen == 0 {
        phase := if phase.CopyingToHeader? then ParsingHeader else ParsingClusters;
      }
    }

    /** One turn of the loop: 1 to go on, 0 to stop, -1 for an error, which changes nothing. */
    method Turn(cursor: nat) returns (status: int, cursor': nat)
      requires Bounds(cursor) && Ready(At(cursor))
      modifies this, buffer, header
      ensures Bounds(cursor') && inputPosition == old(inputPosition)
      ensures match PumpStep(old(At(cursor)))
              case Rest(v) => status == 0 && At(cursor') == v
              case Broken => status == -1 && At(cursor') == old(At(cursor))
              case More(v) => status == 1 && At(cursor') == v
    {
      cursor' := cursor;
      match phase {
        case ParsingHeader =>
          status := ParseTurn(cursor);
        case ParsingClusters =>
          status := ParseTurn(cursor);
        case StartCluster =>
          var goOn := StartTurn(cursor);
          status := if goOn then 1 else 0;
        case CopyingToHeader =>
          var n := CopyHeaderTurn(cursor);
          if n < 0 {
            return -1, cursor;
          }
          cursor' := cursor + n;
          status := if phase.CopyingToHeader? then 0 else 1;
        case CopyingToData =>
          var n := CopyDataTurn(cursor);
          cursor' := cursor + n;
          status := if phase.CopyingToData? then 0 else 1;
      }
    }

    /** The loop of ebml_wrote, and the shift of what it leaves unless it gives up. */
    method Process() returns (ok: bool)
      requires Valid()
      modifies this, buffer, header, inputBuffer
      ensures Bounds(0) && old(Ready(At(0)))
      ensures match Pump(old(At(0)))
              case Done(v) => ok && At(0) == v
              case Refused(v) => !ok && v.m.pos <= |v.input| && |v.pending| <= |old(At(0)).pending|
                                 && At(0) == Unshifted(v, old(At(0)).pending)
    {
      hide Inv, Pump, PumpStep, Stopped;
      ghost var v0 := At(0);
      InvReady(v0);
      PumpKeeps(v0);
      var ok', cursor := Loop();
      ok := ok';
      if ok {
        ghost var v1 := At(cursor);
        ShiftDown(inputBuffer, 0, cursor, inputPosition - cursor);
        inputPosition := inputPosition - cursor;
        assert At(0) == v1;
      } else {
        ghost var f := At(cursor);
        PosWithin(f);
        input := input[..pos] + inputBuffer[..inputPosition];
        refused := refused + [cursor];
        assert inputBuffer[0..inputPosition] == v0.pending;
        assert At(0) == Unshifted(f, v0.pending);
      }
    }

    /** Turn after turn, up to the place in the input buffer where it stops. */
    method Loop() returns (ok: bool, cursor: nat)
      requires Bounds(0) && Ready(At(0))
      modifies this, buffer, header
      ensures Bounds(cursor) && inputPosition == old(inputPosition)
      ensures Pump(old(At(0))) == if ok then Done(At(cursor)) else Refused(At(cursor))
    {
      hide ParseElement, MarkCluster, CopyHeader, CopyData, PumpStep;
      ghost var v0 := At(0);
      cursor := 0;
      var status := 1;
      while status == 1
        invariant status == 0 || status == 1
        invariant Bounds(cursor) && inputPosition == old(inputPosition)
        invariant status == 1 ==> Ready(At(cursor)) && Pump(At(cursor)) == Pump(v0)
        invariant status == 0 ==> Pump(v0) == Done(At(cursor))
        decreases status, |At(cursor).pending|, Rank(At(cursor).m)
      {
        status, cursor := Turn(cursor);
        if status < 0 {
          return false, cursor;
        }
      }
      ok := true;
    }

    /** `len` bytes that have been put into the write buffer become input. */
    method Receive(len: nat)
      requires Bounds(0) && inputPosition + len <= SLICE
      modifies this`input, this`inputPosition
      ensures Bounds(0) && At(0) == Received(old(At(0)), old(inputBuffer[inputPosition..inputPosition + len]))
    {
      input := input + inputBuffer[inputPosition..inputPosition + len];
      inputPosition := inputPosition + len;
    }

    /** ebml_wrote: `len` bytes have been put into the write buffer. Whatever it answers, the parser can be used on. */
    method Wrote(len: nat) returns (ret: int)
      requires Valid() && inputPosition + len <= SLICE
      modifies this, buffer, inputBuffer, header
      ensures Valid() && At(0) == EbmlInvariants.Wrote(old(At(0)), old(inputBuffer[inputPosition..inputPosition + len]))
      ensures ret == if refused == old(refused) then len else -1
    {
      hide Inv, Pump, Ready, Stopped;
      ghost var v := At(0);
      ghost var bytes := inputBuffer[inputPosition..inputPosition + len];
      ghost var v0 := Received(v, bytes);
      ReceivedKeeps(v, bytes);
      PumpKeeps(v0);
      Receive(len);
      var ok := Process();
      ret := if ok then len else -1;
      assert At(0) == EbmlInvariants.Wrote(v, bytes);
    }

    /** ebml_get_write_buffer: where input may be put, and how much. */
    method GetWriteBuffer() returns (at: nat, bytes: nat)
      requires Valid()
      ensures at == |At(0).pending| && at + bytes == inputBuffer.Length == SLICE
    {
      at, bytes := inputPosition, SLICE - inputPosition;
    }

    /** ebml_read_space */
    method ReadSpace() returns (n: nat)
      requires Valid()
      modifies this`flush
      ensures Valid() && At(0) == Asked(old(At(0))) && n == Space(old(At(0)))
    {
      ghost var v := At(0);
      AskedKeeps(v);
      if !reading {
        n := headerSize;
      } else if clusterStart > 0 {
        n := clusterStart;
      } else {
        if position == SLICE {
          flush := true;
        }
        n := if flush then position else 0;
      }
      assert At(0) == Asked(v);
    }

    /** ebml_read while the header has not been extracted: as in the source it copies from the start. */
    method ReadHeader(out: array<byte>, len: nat) returns (n: nat)
      requires Bounds(0) && !reading && 0 < len <= out.Length && headerRead <= headerSize <= headerPosition
      requires out != buffer && out != inputBuffer && out != header
      requires headerSize != 0 && clusterStart <= position
      modifies this`headerRead, this`reading, out
      ensures var r := Read(old(At(0)), len);
        Bounds(0) && At(0) == r.v && n == |r.bytes| && n <= len && out[..n] == r.bytes && r.kind == HeaderChunk
    {
      ghost var h := header[..headerPosition];
      n := Min(headerSize - headerRead, len);
      Copy(out, 0, header, 0, n);
      assert out[..n] == out[0..0 + n] == h[..n];
      headerRead := headerRead + n;
      if headerRead == headerSize {
        reading := true;
      }
    }

    /** Take `n` bytes off the front of the read buffer. */
    method TakeData(out: array<byte>, n: nat, ghost kind: ChunkKind)
      requires Bounds(0) && n <= position && n <= out.Length && out != buffer && out != inputBuffer && out != header
      modifies this`position, this`chunks, buffer, out
      ensures Bounds(0) && At(0) == HandedOut(old(At(0)), n, kind) && out[..n] == old(buffer[..n])
    {
      ghost var data := buffer[..position];
      ghost var v := At(0);
      Copy(out, 0, buffer, 0, n);
      assert out[..n] == out[0..0 + n] == data[..n];
      chunks := chunks + [Chunk(|v.header| + |Flat(chunks)|, data[..n], kind, verdict)];
      assert data[n..] == buffer[n..n + (position - n)];
      ShiftDown(buffer, 0, n, position - n);
      position := position - n;
    }

    /** ebml_read once the header has been extracted. */
    method ReadCluster(out: array<byte>, len: nat) returns (n: nat, kind: ChunkKind)
      requires Bounds(0) && reading && 0 < len <= out.Length && clusterStart <= position
      requires out != buffer && out != inputBuffer && out != header
      modifies this, buffer, out
      ensures var r := ReadData(old(At(0)), len);
        Bounds(0) && At(0) == r.v && kind == r.kind && n == |r.bytes| && n <= len && out[..n] == r.bytes
    {
      kind := ClusterContinue;
      var space := position;
      if clusterStart == 0 {
        if verdict != NotKeyframe {
          kind := ClusterStart;
        }
        clusterStart := -1;
      } else if clusterStart > 0 {
        space := clusterStart;
      }
      if space < 1 {
        return 0, kind;
      }
      n := Min(space, len);
      TakeData(out, n, kind);
      if clusterStart > 0 {
        clusterStart := clusterStart - n;
      }
    }

    /** ebml_read of at most `len` bytes. */
    method ReadChunk(out: array<byte>, len: nat) returns (n: nat, kind: ChunkKind)
      requires Valid() && len <= out.Length && out != buffer && out != inputBuffer && out != header
      modifies this, buffer, out
      ensures var v := old(At(0));
        Bounds(0) && v.headerRead <= v.headerSize <= |v.header| && v.clusterStart <= |v.data|
        && var r := Read(v, len);
        At(0) == r.v && kind == r.kind && n == |r.bytes| && n <= len && out[..n] == r.bytes
        && (len == Space(v) > 0 ==> Valid() && n == len)
    {
      ghost var v := At(0);
      n, kind := 0, HeaderChunk;
      if len == Space(v) > 0 {
        ReadKeeps(v);
      }
      if len < 1 {
        return;
      }
      if reading {
        n, kind := ReadCluster(out, len);
      } else if headerSize != 0 {
        n := ReadHeader(out, len);
      }
    }
  }
}
