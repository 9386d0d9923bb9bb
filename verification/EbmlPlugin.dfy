/** The loop that feeds the EBML splitter from the source's connection and packs what it yields into blocks
    for the queue. */
module EbmlPlugin {
  import opened Bytes
  import opened EbmlOnePass
  import opened EbmlStream
  import opened EbmlInvariants
  import R = EbmlRuns
  import P = EbmlParser

  /** A block for the queue, as far as the splitter fills it in. */
  datatype Block = Block(data: seq<byte>, syncPoint: bool)

  /** The source's connection: bytes arrive in order, as many at a time as the network likes. */
  class Connection {
    var incoming: seq<byte>

    constructor (bytes: seq<byte>)
      ensures incoming == bytes
    {
      incoming := bytes;
    }

    /** client_read_bytes into buffer[at..at + max]; no bytes stands for "none now" and for an error. */
    method ReadBytes(buffer: array<byte>, at: nat, max: nat) returns (n: nat)
      requires at + max <= buffer.Length
      modifies this, buffer
      ensures n <= max && n <= |old(incoming)| && incoming == old(incoming)[n..]
      ensures buffer[..at] == old(buffer[..at]) && buffer[at..at + n] == old(incoming)[..n]
    {
      n :| 0 <= n <= max && n <= |incoming|;
      forall i | 0 <= i < n {
        buffer[at + i] := incoming[i];
      }
      incoming := incoming[n..];
    }
  }

  class Plugin {
    const ebml: P.Parser
    const connection: Connection
    var header: Option<seq<byte>>
    var running: bool

    ghost predicate Valid()
      reads this, ebml, ebml.buffer, ebml.inputBuffer, ebml.header
    {
      && ebml.Valid()
      && (header.Some? <==> ebml.reading)
      && (header.Some? ==> header.value == ebml.Header())
    }

    constructor (connection: Connection)
      ensures Valid() && header == None && ebml.At(0) == Fresh && this.connection == connection && running
      ensures fresh(ebml) && fresh(ebml.buffer) && fresh(ebml.inputBuffer) && fresh(ebml.header)
    {
      ebml := new P.Parser();
      this.connection := connection;
      header := None;
      running := true;
    }

    /** Read the chunk the splitter announces; `chunk` is what cluster data adds to its history. */
    method TakeChunk(space: nat) returns (data: seq<byte>, kind: ChunkKind, ghost chunk: Chunk)
      requires ebml.Valid() && space == Space(ebml.At(0)) > 0
      modifies ebml, ebml.buffer
      ensures ebml.Valid() && ebml.reading && ebml.input == old(ebml.input) && ebml.refused == old(ebml.refused)
      ensures ebml.Header() == old(ebml.Header())
      ensures if old(ebml.reading) then ebml.chunks == old(ebml.chunks) + [chunk]
              else ebml.chunks == old(ebml.chunks) && data == ebml.Header()
      ensures chunk.bytes == data != [] && chunk.kind == kind
      ensures Drains(old(ebml.At(0)), ebml.At(0), space)
    {
      hide Inv, Space, Read;
      ghost var v := ebml.At(0);
      ReadKeeps(v);
      ReadLeaves(v);
      var out := new byte[space](_ => 0);
      var n;
      n, kind := ebml.ReadChunk(out, space);
      data := out[..n];
      chunk := Chunk(|v.header| + |Flat(v.chunks)|, data, kind, v.m.c.verdict);
      ghost var v' := ebml.At(0);
      assert v' == Read(v, space).v && SameSource(v, v') && v'.header == v.header;
    }

    ghost predicate Drains(v: View, v': View, space: nat) {
      v.headerRead <= v.headerSize <= |v.header| && v.clusterStart <= |v.data| && v' == Read(v, space).v
    }

    /** If a chunk can be read, keep it as the header or pack it into a block. */
    method TryTake() returns (taken: bool, block: Option<Block>)
      requires Valid()
      modifies this`header, ebml, ebml.buffer
      ensures Valid() && ebml.input == old(ebml.input) && ebml.refused == old(ebml.refused)
      ensures ebml.At(0) == R.Apply(old(ebml.At(0)), R.Drain)
      ensures !taken ==> block.None? && header == old(header)
      ensures taken && block.None? ==> old(header).None? && header.Some?
      ensures block.None? ==> ebml.chunks == old(ebml.chunks)
      ensures block.Some? ==> taken && Packed(old(ebml.chunks), ebml.chunks, block.value)
    {
      hide Inv, Read, Asked, Space;
      ghost var v := ebml.At(0);
      AskedKeeps(v);
      R.DrainKeeps(v);
      var space := ebml.ReadSpace();
      if space == 0 {
        return false, None;
      }
      assert ebml.Header() == old(ebml.Header());
      taken := true;
      var data, kind, chunk := TakeChunk(space);
      if header.None? {
        header := Some(data);
        block := None;
      } else {
        block := Some(Block(data, kind == ClusterStart));
        assert ebml.chunks[|ebml.chunks| - 1] == chunk;
      }
    }

    /** The block is the one chunk by which the history has grown. */
    ghost predicate Packed(before: seq<Chunk>, after: seq<Chunk>, block: Block) {
      |after| > 0 && var last := after[|after| - 1];
      after == before + [last] && last.bytes == block.data != [] && (block.syncPoint <==> last.kind == ClusterStart)
    }

    /** Read from the connection and let the splitter work on it; `ok` if it does not refuse what it has. */
    method Feed() returns (n: nat, ok: bool)
      requires Valid()
      modifies connection, ebml, ebml.buffer, ebml.inputBuffer, ebml.header
      ensures n <= |old(connection.incoming)| && connection.incoming == old(connection.incoming)[n..]
      ensures Valid() && ebml.chunks == old(ebml.chunks) && |old(ebml.At(0)).pending| + n <= SLICE
      ensures ebml.At(0) == Wrote(old(ebml.At(0)), old(connection.incoming)[..n])
      ensures ok <==> ebml.refused == old(ebml.refused)
    {
      hide Inv, Wrote;
      ghost var v := ebml.At(0);
      ghost var stream := connection.incoming;
      var at, max := ebml.GetWriteBuffer();
      n := connection.ReadBytes(ebml.inputBuffer, at, max);
      assert ebml.At(0) == v;
      var ret := ebml.Wrote(n);
      WroteOutput(v, stream[..n]);
      ok := ret >= 0;
      ghost var v2 := ebml.At(0);
      assert SameOutput(v, v2);
    }

    /** ebml_get_buffer. A block returned is the next chunk of cluster data; the header is kept back. What the call does
        is a run, `acts`, of the splitter over the bytes it takes from the connection. If the splitter refuses them, the
        source stops, unless that happened with nothing new read: then it is called again, with the splitter as the
        refusal left it. */
    method GetBuffer() returns (block: Option<Block>, ghost acts: seq<R.Action>)
      requires Valid() && running
      modifies this`header, this`running, connection, ebml, ebml.buffer, ebml.inputBuffer, ebml.header
      ensures Valid() && R.Exec(old(ebml.At(0)), acts) == Some(ebml.At(0))
      ensures R.Written(acts) + connection.incoming == old(connection.incoming)
      ensures running <==> ebml.refused == old(ebml.refused) || acts[|acts| - 1] == R.Write([])
      ensures block.None? ==> ebml.chunks == old(ebml.chunks)
      ensures block.Some? ==> ebml.refused == old(ebml.refused) && Packed(old(ebml.chunks), ebml.chunks, block.value)
    {
      hide Inv, Wrote, Packed, R.Exec, R.Apply, R.Written;
      ghost var v, stream := ebml.At(0), connection.incoming;
      acts := [];
      Begins(v, stream);
      while true
        invariant Valid() && running && ebml.chunks == v.chunks && ebml.refused == v.refused
        invariant R.Exec(v, acts) == Some(ebml.At(0)) && R.Written(acts) + connection.incoming == stream
        decreases |connection.incoming|, header.None?
      {
        var taken;
        ghost var left := connection.incoming;
        taken, block := TryTake();
        DrainMore(v, acts, left);
        acts := acts + [R.Drain];
        if block.Some? {
          return;
        }
        if taken {
          continue;
        }
        var n, ok := Feed();
        WriteMore(v, acts, left, n);
        acts := acts + [R.Write(left[..n])];
        if !ok {
          running := n == 0;
          return;
        }
        if n == 0 {
          return;
        }
      }
    }

    lemma Begins(v: View, stream: seq<byte>)
      requires Inv(v)
      ensures R.Exec(v, []) == Some(v) && R.Written([]) + stream == stream
    {
    }

    lemma DrainMore(v: View, acts: seq<R.Action>, left: seq<byte>)
      requires Inv(v) && R.Exec(v, acts).Some?
      ensures R.Exec(v, acts + [R.Drain]) == Some(R.Apply(R.Exec(v, acts).value, R.Drain))
      ensures R.Written(acts + [R.Drain]) + left == R.Written(acts) + left
    {
      hide Inv, R.Apply, R.Written;
      PendingFits(R.Exec(v, acts).value);
      R.ExecAppend(v, acts, R.Drain);
      assert R.Written(acts) + [] == R.Written(acts);
    }

    lemma PendingFits(v: View)
      requires Inv(v)
      ensures |v.pending| <= SLICE
    {
    }

    lemma WriteMore(v: View, acts: seq<R.Action>, left: seq<byte>, n: nat)
      requires Inv(v) && R.Exec(v, acts).Some? && n <= |left| && |R.Exec(v, acts).value.pending| + n <= SLICE
      ensures var a := R.Write(left[..n]);
        && R.Exec(v, acts + [a]) == Some(Wrote(R.Exec(v, acts).value, left[..n]))
        && R.Written(acts + [a]) + left[n..] == R.Written(acts) + left
    {
      hide Inv, Wrote, R.Written;
      R.ExecAppend(v, acts, R.Write(left[..n]));
      Regroup(R.Written(acts), left[..n], left[n..]);
      assert left == left[..n] + left[n..];
    }
  }
}
