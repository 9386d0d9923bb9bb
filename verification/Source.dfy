/** A mount at work: the loop of source_main and what it calls, updating the mount's fields. All mounts share one
    memory; every access to it is through an address that must be live. The state of a mount as a value, with the
    part of memory that is its own, is View(). */
module Source {
  import opened Bytes
  import opened Heap
  import opened QueueState
  import opened QueueSteps
  import opened Turns
  import opened QueueListeners

  /** Skip blocks from `i` on until `size` bytes are behind; `size` is a 64-bit unsigned number, so a block longer
      than what is left makes it wrap round. */
  function SkipTo(blocks: seq<Block>, i: nat, size: nat): (j: nat)
    ensures i <= j && (i < |blocks| ==> j < |blocks|)
    decreases |blocks| - i
  {
    if size == 0 || i + 1 >= |blocks| then i
    else SkipTo(blocks, i + 1, (size - |blocks[i].data|) % TWO_64)
  }

  /** The first block at or after `i` that a listener may start at. */
  function FirstSync(blocks: seq<Block>, i: nat): (r: Option<nat>)
    ensures r.Some? ==> i <= r.value < |blocks| && blocks[r.value].sync
    ensures forall k :: i <= k < (if r.Some? then r.value else |blocks|) ==> !blocks[k].sync
    decreases |blocks| - i
  {
    if i >= |blocks| then None else if blocks[i].sync then Some(i) else FirstSync(blocks, i + 1)
  }

  /** Where find_client_start begins to look for a sync point. */
  function LookFrom(v: Src, c: Client): (i: nat)
    ensures v.blocks != [] && v.burst < |v.blocks| ==> v.burst <= i < |v.blocks|
  {
    if c.introOffset == -1 && v.blocks != [] && v.blocks[|v.blocks| - 1].sync then |v.blocks| - 1
    else SkipTo(v.blocks, v.burst, c.introOffset % TWO_64)
  }

  function StartFor(v: Src, c: Client): Option<nat> {
    if v.blocks == [] then None else FirstSync(v.blocks, LookFrom(v, c))
  }

  lemma {:induction false} SkipToMeans(blocks: seq<Block>, i: nat, size: nat)
    requires i < |blocks| && size < TWO_64
    ensures var j := SkipTo(blocks, i, size);
      && ((BytesBetween(blocks, i, j) - size) % TWO_64 == 0 || j == |blocks| - 1)
      && forall k :: i <= k < j ==> (BytesBetween(blocks, i, k) - size) % TWO_64 != 0
    decreases |blocks| - i
  {
    if size != 0 && i + 1 < |blocks| {
      var len := |blocks[i].data|;
      var size' := (size - len) % TWO_64;
      SkipToMeans(blocks, i + 1, size');
      forall k | i < k <= |blocks|
        ensures (BytesBetween(blocks, i, k) - size) % TWO_64 == (BytesBetween(blocks, i + 1, k) - size') % TWO_64
      {
        SameRest(BytesBetween(blocks, i + 1, k), len, size);
      }
      assert BytesBetween(blocks, i, i) == 0;
      SmallRest(size);
    }
  }

  lemma SameRest(b: int, len: int, size: int)
    ensures (b + len - size) % TWO_64 == (b - (size - len) % TWO_64) % TWO_64
  {
  }

  lemma SmallRest(size: nat)
    requires 0 < size < TWO_64
    ensures (0 - size) % TWO_64 != 0
  {
  }

  /** The search finds that block. */
  lemma StartMeans(v: Src, c: Client, c': Client)
    requires v.blocks != [] ==> v.burst < |v.blocks|
    requires match StartFor(v, c) case None => c' == c case Some(k) => JoinedAt(v.blocks, c, c', k)
    ensures Joins(v.blocks, v.burst, c, c')
  {
    if v.blocks != [] {
      var j := LookFrom(v, c);
      if !(c.introOffset == -1 && v.blocks[|v.blocks| - 1].sync) {
        var size := c.introOffset % TWO_64;
        SkipToMeans(v.blocks, v.burst, size);
        forall k | v.burst <= k <= |v.blocks|
          ensures (BytesBetween(v.blocks, v.burst, k) - size) % TWO_64
               == (BytesBetween(v.blocks, v.burst, k) - c.introOffset) % TWO_64
        {
          SameRest(BytesBetween(v.blocks, v.burst, k), 0, c.introOffset);
        }
      }
      assert Begins(v.blocks, v.burst, c.introOffset, j) && JoinsFrom(v.blocks, c, c', j);
    }
  }

  /** The memory of the server. */
  class Store {
    var cells: Memory

    constructor ()
      ensures cells == map[]
    {
      cells := map[];
    }
  }

  class Source {
    const store: Store
    var streamData: Ptr
    var streamDataTail: Ptr
    var burstPoint: Ptr
    var burstOffset: nat
    var queueSize: nat
    var clients: map<nat, Client>
    var clientTree: set<nat>
    var pendingTree: set<nat>
    var listeners: nat
    var burstSize: nat
    var queueSizeLimit: nat
    var maxListeners: int
    var running: bool
    var shortDelay: bool
    var live: bool          // source->client is set

    // History: every block so far, and where in them the queue and the burst window begin.
    var blocks: seq<Block>
    var head: nat
    var burst: nat

    // Ownership: the part of the memory that is this mount's, its queue and its listeners' own buffers.
    ghost var mem: Memory

    constructor (store: Store)
      ensures Valid() && this.store == store && mem == map[] && clients == map[] && blocks == []
    {
      this.store := store;
      streamData, streamDataTail, burstPoint := NULL, NULL, NULL;
      burstOffset, queueSize, burstSize, queueSizeLimit := 0, 0, 0, 0;
      clients, clientTree, pendingTree, listeners, maxListeners := map[], {}, {}, 0, -1;
      running, shortDelay, live := false, false, false;
      blocks, head, burst, mem := [], 0, 0, map[];
      new;
      Empty(View());
    }

    ghost function View(): Src
      reads this
    {
      Src(mem, streamData, streamDataTail, burstPoint, burstOffset, queueSize, clients, clientTree, pendingTree,
          listeners, live, blocks, head, burst)
    }

    ghost predicate Valid()
      reads this, store
    {
      Inv(View()) && Owns()
    }

    lemma Empty(v: Src)
      requires v == Src(map[], NULL, NULL, NULL, 0, 0, map[], {}, {}, 0, v.live, [], 0, 0)
      ensures Inv(v)
    {
    }

    // ----- memory

    /** What the mount has for its own is in memory as it should be. */
    ghost predicate Owns()
      reads this`mem, store
    {
      forall p :: p in mem ==> p in store.cells && store.cells[p] == mem[p]
    }

    /** The memory of everybody else. */
    ghost function Rest(): Memory
      reads this`mem, store
    {
      store.cells - mem.Keys
    }

    /** A cell of the mount, or free memory, is written. */
    method Put(p: Ptr, b: Buf)
      requires Owns() && (p in mem || p !in store.cells)
      modifies this`mem, store
      ensures Owns() && Rest() == old(Rest()) && mem == old(mem)[p := b]
    {
      mem := mem[p := b];
      store.cells := store.cells[p := b];
    }

    /** free */
    method Free(p: Ptr)
      requires Owns() && p in mem
      modifies this`mem, store
      ensures Owns() && Rest() == old(Rest()) && mem == old(mem) - {p}
    {
      mem := mem - {p};
      store.cells := store.cells - {p};
    }

    /** refbuf_addref */
    method Hold(p: Ptr)
      requires Owns() && p in mem
      modifies this`mem, store
      ensures Owns() && Rest() == old(Rest()) && mem == AddRef(old(mem), p)
    {
      var b := store.cells[p];
      Put(p, b.(count := b.count + 1));
    }

    /** refbuf_release */
    method LetGo(p: Ptr)
      requires Owns() && p in mem && mem[p].count > 0
      modifies this`mem, store
      ensures Owns() && Rest() == old(Rest()) && mem == Release(old(mem), p)
    {
      var b := store.cells[p];
      if b.count == 1 {
        Free(p);
      } else {
        Put(p, b.(count := b.count - 1));
      }
    }

    /** Some address that is not in use, by any mount. */
    method Alloc() returns (p: Ptr)
      requires Owns()
      ensures p != NULL && p !in store.cells && p !in mem
    {
      p := Malloc(store.cells);
    }

    /** client_set_queue */
    method ClientSetQueue(id: nat, b: Ptr)
      requires Owns() && id in clients && (b == NULL || b in mem)
      requires clients[id].refbuf == NULL || (clients[id].refbuf in mem && mem[clients[id].refbuf].count > 0)
      modifies this`mem, store, this`clients
      ensures View() == SetQueue(old(View()), id, b) && Owns() && Rest() == old(Rest())
    {
      hide Owns, Rest;
      var toRelease := clients[id].refbuf;
      clients := clients[id := clients[id].(refbuf := b)];
      if b != NULL {
        Hold(b);
      }
      clients := clients[id := clients[id].(pos := 0)];
      if toRelease != NULL {
        LetGo(toRelease);
      }
    }

    // ----- new data

    /** A block read from the source is appended to the in-flight queue. */
    method AppendBlock(data: seq<byte>, sync: bool)
      requires Valid()
      modifies this`mem, store, this`streamData, this`streamDataTail, this`burstPoint, this`queueSize,
        this`burstOffset, this`blocks
      ensures Valid() && Rest() == old(Rest()) && |blocks| == |old(blocks)| + 1
      ensures blocks[..|old(blocks)|] == old(blocks)
      ensures blocks[|old(blocks)|].data == data && blocks[|old(blocks)|].sync == sync
    {
      var p := Alloc();
      AppendKeeps(View(), p, data, sync);
      LinkBlock(p, data, sync);
    }

    method LinkBlock(p: Ptr, data: seq<byte>, sync: bool)
      requires Owns() && p !in store.cells && (streamDataTail != NULL ==> streamDataTail in mem)
      modifies this`mem, store, this`streamData, this`streamDataTail, this`burstPoint, this`queueSize,
        this`burstOffset, this`blocks
      ensures View() == Append(old(View()), p, data, sync) && Owns() && Rest() == old(Rest())
    {
      hide Owns, Rest, AddRef;
      LinkBehind(p, Buf(data, sync, |data|, 1, NULL, |blocks|));
      ghost var linked :=
        if old(streamDataTail) != NULL then old(mem[streamDataTail := mem[streamDataTail].(next := p)]) else old(mem);
      Twice(linked, p, Buf(data, sync, |data|, 1, NULL, |blocks|));
      CountIn(p);
      blocks := blocks + [Block(p, data, sync)];
    }

    lemma Twice(m: Memory, p: Ptr, b: Buf)
      ensures AddRef(m[p := b], p) == m[p := b.(count := b.count + 1)]
    {
    }

    /** The new block is the last one, belongs to the burst window and counts for both totals. */
    method CountIn(p: Ptr)
      requires Owns() && p in mem
      modifies this`mem, store, this`streamDataTail, this`queueSize, this`burstOffset
      ensures streamDataTail == p && mem == AddRef(old(mem), p) && Owns() && Rest() == old(Rest())
      ensures queueSize == old(queueSize) + old(mem)[p].len && burstOffset == old(burstOffset) + old(mem)[p].len
    {
      streamDataTail := p;
      queueSize := queueSize + store.cells[p].len;
      Hold(p);
      burstOffset := burstOffset + store.cells[p].len;
    }

    /** The buffer comes into being and the last block, if any, is linked to it. */
    method LinkBehind(p: Ptr, b: Buf)
      requires Owns() && p !in store.cells && (streamDataTail != NULL ==> streamDataTail in mem)
      modifies this`mem, store, this`streamData, this`burstPoint
      ensures mem == (if old(streamDataTail) != NULL then old(mem[streamDataTail := mem[streamDataTail].(next := p)])
                      else old(mem))[p := b]
      ensures Owns() && Rest() == old(Rest())
      ensures streamData == (if old(streamData) == NULL then p else old(streamData))
      ensures burstPoint == (if old(streamData) == NULL then p else old(burstPoint))
    {
      LinkedMemory(mem, streamDataTail, p, b);
      Put(p, b);
      if streamData == NULL {
        streamData := p;
        burstPoint := p;
      }
      if streamDataTail != NULL {
        Put(streamDataTail, store.cells[streamDataTail].(next := p));
      }
    }

    lemma LinkedMemory(m: Memory, tail: Ptr, p: Ptr, b: Buf)
      requires p !in m
      ensures tail in m ==> m[p := b][tail := m[tail].(next := p)] == m[tail := m[tail].(next := p)][p := b]
    {
    }

    // ----- the burst window

    /** New data on the queue, so check the burst point: it moves up until the window holds no more than
        `burstSize` bytes, but never past the newest block, and no further than it has to. */
    method CheckBurstPoint()
      requires Valid() && blocks != []
      modifies this`mem, store, this`burstPoint, this`burstOffset, this`burst
      ensures Valid() && Rest() == old(Rest())
      ensures old(burst) <= burst && (burstOffset <= burstSize || burst == |blocks| - 1)
      ensures burst > old(burst) ==> Total(blocks, burst - 1) > burstSize
    {
      hide Inv;
      BurstInside();
      while burstOffset > burstSize
        invariant Valid() && Rest() == old(Rest()) && old(burst) <= burst < |blocks|
        invariant burst > old(burst) ==> Total(blocks, burst - 1) > burstSize
        decreases |blocks| - burst
      {
        var moved := TryAdvance();
        if !moved {
          break;
        }
      }
    }

    lemma BurstInside()
      requires Valid()
      ensures blocks != [] ==> burst < |blocks|
    {
    }

    method TryAdvance() returns (moved: bool)
      requires Valid() && blocks != []
      modifies this`mem, store, this`burstPoint, this`burstOffset, this`burst
      ensures Valid() && Rest() == old(Rest())
      ensures moved == (old(burst) + 1 < |blocks|) && burst == old(burst) + if moved then 1 else 0
      ensures old(burstOffset) == Total(blocks, old(burst)) && burst < |blocks|
    {
      AdvanceBurstReady(View());
      moved := store.cells[burstPoint].next != NULL;
      if moved {
        AdvanceBurstKeeps(View());
        ReleaseBurstPoint();
      }
    }

    method ReleaseBurstPoint()
      requires Owns() && burstPoint in mem && mem[burstPoint].count > 0 && mem[burstPoint].len <= burstOffset
      modifies this`mem, store, this`burstPoint, this`burstOffset, this`burst
      ensures View() == AdvanceBurst(old(View())) && Owns() && Rest() == old(Rest())
    {
      var toRelease := burstPoint;
      burstPoint := store.cells[toRelease].next;
      burstOffset := burstOffset - store.cells[toRelease].len;
      LetGo(toRelease);
      burst := burst + 1;
    }

    // ----- format.c: where a listener is in its life

    /** `b` is the address of block `j`, or NULL at the end of the list. */
    ghost predicate AtPtr(b: Ptr, j: nat)
      reads this
    {
      if j < |blocks| then b != NULL && b in mem && IsBlock(View(), b, j) else j == |blocks| && b == NULL
    }

    lemma AtBlock(j: nat)
      requires Valid() && head <= j < |blocks|
      ensures AtPtr(blocks[j].ptr, j) && mem[blocks[j].ptr].len == |blocks[j].data|
      ensures mem[blocks[j].ptr].sync == blocks[j].sync && mem[blocks[j].ptr].place == j
      ensures AtPtr(mem[blocks[j].ptr].next, j + 1)
    {
      assert Linked(View(), j);
      if j + 1 < |blocks| {
        assert Linked(View(), j + 1);
      }
    }

    /** find_client_start: the blocks passed over for a listener that has already had an intro. */
    method SkipBlocks(start: Ptr, introOffset: int, ghost i: nat) returns (b: Ptr, ghost j: nat)
      requires Valid() && AtPtr(start, i) && i < |blocks|
      ensures j == SkipTo(blocks, i, introOffset % TWO_64) && j < |blocks| && AtPtr(b, j)
    {
      b, j := start, i;
      var size: nat := introOffset % TWO_64;
      AtBlock(j);
      while size > 0 && b != NULL && store.cells[b].next != NULL
        invariant head <= j < |blocks| && AtPtr(b, j) && AtPtr(mem[b].next, j + 1)
        invariant SkipTo(blocks, j, size) == SkipTo(blocks, i, introOffset % TWO_64)
        decreases |blocks| - j
      {
        AtBlock(j);
        size := (size - store.cells[b].len) % TWO_64;
        b, j := store.cells[b].next, j + 1;
        AtBlock(j);
      }
    }

    /** find_client_start: the search for a sync point. */
    method SeekSync(start: Ptr, ghost i: nat) returns (b: Ptr, ghost j: nat)
      requires Valid() && AtPtr(start, i)
      ensures match FirstSync(blocks, i)
              case None => b == NULL
              case Some(k) => b != NULL && j == k && AtPtr(b, k)
    {
      b, j := start, i;
      while b != NULL && !store.cells[b].sync
        invariant AtPtr(b, j) && FirstSync(blocks, j) == FirstSync(blocks, i)
        decreases |blocks| - j
      {
        AtBlock(j);
        b, j := store.cells[b].next, j + 1;
      }
      if b != NULL {
        AtBlock(j);
      }
    }

    lemma QueueEnds()
      requires Valid()
      ensures streamDataTail == NULL ==> blocks == [] && burstPoint == NULL
      ensures streamDataTail != NULL ==>
        burst < |blocks| && AtPtr(burstPoint, burst)
        && AtPtr(streamDataTail, |blocks| - 1) && mem[streamDataTail].sync == blocks[|blocks| - 1].sync
    {
      if streamDataTail != NULL {
        AtBlock(|blocks| - 1);
        AtBlock(burst);
      }
    }

    /** The search of find_client_start, over the linked list itself. */
    method FindStart(id: nat) returns (b: Ptr, ghost j: nat)
      requires Valid() && id in clients
      ensures match StartFor(View(), clients[id])
              case None => b == NULL
              case Some(k) => b != NULL && j == k && AtPtr(b, k)
      ensures b != NULL ==>
        head <= j < |blocks| && burst <= j && AtPtr(b, j) && blocks[j].sync && b == blocks[j].ptr
    {
      hide Inv;
      var introOffset := clients[id].introOffset;
      b, j := burstPoint, burst;
      QueueEnds();
      if streamDataTail != NULL {
        if introOffset == -1 && store.cells[streamDataTail].sync {
          b, j := streamDataTail, |blocks| - 1;
        } else {
          b, j := SkipBlocks(burstPoint, introOffset, burst);
        }
        b, j := SeekSync(b, j);
      }
    }

    /** find_client_start for a listener that points nowhere: it joins the queue at the sync point found, if any. */
    method FindClientStart(id: nat)
      requires Valid() && id in clientTree && clients[id].refbuf == NULL
      modifies this`mem, store, this`clients
      ensures Valid() && Rest() == old(Rest()) && Went(old(View()), View(), id)
      ensures id in old(clients) && id in clients && Lands(Offer(), old(clients[id]), Stands(id))
    {
      hide Inv, Joins, StartFor, IsBlock, Went;
      ghost var v := View();
      ActiveKnown(id);
      StandStill(id);
      BurstInside();
      var b, j := FindStart(id);
      if b != NULL {
        JoinKeeps(v, id, b, j);
        JoinAt(id, b, j);
        assert clients[id] == v.clients[id].(check := AdvanceQueue, introOffset := -1, start := j, sent := [],
                                             refbuf := b, pos := 0);
        AtBlock(j);
      } else {
        NullIsFree();
        NotQueued(id);
      }
      StartMeans(v, v.clients[id], clients[id]);
    }

    /** The listener is put at the start of block `j`. */
    method JoinAt(id: nat, b: Ptr, ghost j: nat)
      requires Owns() && id in clientTree && id in clients
      requires clients[id].refbuf == NULL && b in mem && mem[b].place >= 0
      modifies this`mem, store, this`clients
      ensures View() == Join(old(View()), id, b) && Owns() && Rest() == old(Rest())
    {
      var place := store.cells[b].place;
      ClientSetQueue(id, b);
      clients := clients[id := clients[id].(check := AdvanceQueue, introOffset := -1, start := place, sent := [])];
    }

    /** format_advance_queue: -1 if there is nothing to send until more data arrives; on to the next block if the
        one at hand has been sent. */
    method FormatAdvanceQueue(id: nat) returns (r: int)
      requires Valid() && id in clientTree && clients[id].check == AdvanceQueue
      modifies this`mem, store, this`clients
      ensures Valid() && Rest() == old(Rest()) && Went(old(View()), View(), id)
      ensures id in old(clients) && id in clients && QueueChecked(Offer(), old(Stands(id)), Stands(id), r)
      ensures r >= 0 ==> Sendable(id)
    {
      hide Inv, Went;
      ActiveKnown(id);
      StandStill(id);
      var c := clients[id];
      OnQueue(id);
      ghost var i := mem[c.refbuf].place;
      AtBlock(i);
      var b := store.cells[c.refbuf];
      if b.next == NULL && c.pos == b.len {
        return -1;
      }
      if b.next != NULL && c.pos == b.len {
        NextKeeps(View(), id, b.next, i + 1);
        ClientSetQueue(id, b.next);
        OnQueue(id);
      }
      r := 0;
    }

    lemma OnQueue(id: nat)
      requires Valid() && id in clients && clients[id].check == AdvanceQueue
      ensures Sendable(id) && var i := mem[clients[id].refbuf].place;
        head <= i < |blocks| && clients[id].refbuf == blocks[i].ptr && clients[id].pos <= |blocks[i].data|
    {
      assert InOrder(View(), clients[id], id in clientTree);
      assert Linked(View(), mem[clients[id].refbuf].place);
    }

    ghost function Stands(id: nat): Standing
      requires id in clients
      reads this`mem, this`clients
    {
      StandingOf(mem, clients[id])
    }

    ghost function Offer(): Stream
      reads this`blocks, this`burst, this`live
    {
      Stream(blocks, burst, live)
    }

    /** format_check_http_buffer: response headers are built once and sent from the listener's own buffer; then comes
        the intro file. Building them may fail. */
    method FormatCheckHttpBuffer(id: nat, luck: Luck) returns (r: int)
      requires Valid() && id in clientTree && clients[id].check == HttpBuffer && !clients[id].error
      modifies this`mem, store, this`clients
      ensures Valid() && Rest() == old(Rest()) && Went(old(View()), View(), id) && (r >= 0 ==> Sendable(id))
      ensures id in old(clients) && id in clients && HttpChecked(old(Stands(id)), Stands(id), r, luck)
    {
      hide Inv, Went;
      OwnBuffer(View(), id);
      ghost var v := View();
      StandStill(id);
      if clients[id].respcode == 0 {
        var built := BuildHeaders(id, luck);
        if !built {
          return -1;
        }
      }
      ghost var v1 := View();
      r := FinishHeaders(id);
      WentOn(v, v1, View(), id);
    }

    /** The response headers are put into the listener's own buffer, or that fails. */
    method BuildHeaders(id: nat, luck: Luck) returns (built: bool)
      requires Valid() && id in clientTree && clients[id].check == HttpBuffer && clients[id].respcode == 0
      modifies this`mem, store, this`clients
      ensures Valid() && Rest() == old(Rest()) && Went(old(View()), View(), id)
      ensures built <==> luck.trouble != Unbuildable
      ensures id in old(clients) && id in clients && var x := old(Stands(id));
        Stands(id) == if built then x.(c := x.c.(respcode := 200), len := luck.headers)
                      else x.(c := x.c.(error := true, respcode := 500))
    {
      hide Inv, Went, InOrder;
      OwnBuffer(View(), id);
      var c := clients[id];
      built := luck.trouble != Unbuildable;
      if built {
        ResizeKeeps(View(), id, luck.headers, c.(respcode := 200));
        SetOwnBuffer(id, luck.headers, c.(respcode := 200));
      } else {
        HeadersFail(View(), id);
        clients := clients[id := c.(error := true, respcode := 500)];
      }
    }

    /** All of the headers sent: on to the intro file, with a buffer that counts as used up. */
    method FinishHeaders(id: nat) returns (r: int)
      requires Valid() && id in clientTree && clients[id].check == HttpBuffer && clients[id].respcode == 200
      modifies this`mem, store, this`clients
      ensures Valid() && Rest() == old(Rest()) && Went(old(View()), View(), id)
      ensures (r == 0 || r == -1) && (r == 0 ==> Sendable(id))
      ensures id in old(clients) && id in clients && var x := old(Stands(id));
        && (r < 0 <==> x.c.pos == x.len)
        && Stands(id) == if r == 0 then x else x.(c := HeadersSent(x.c), len := 4096)
    {
      hide Inv, Went, InOrder;
      OwnBuffer(View(), id);
      StandStill(id);
      var c := clients[id];
      r := 0;
      if c.pos == store.cells[c.refbuf].len {
        c := HeadersSent(c);
        ResizeKeeps(View(), id, 4096, c);
        SetOwnBuffer(id, 4096, c);
        r := -1;
      }
    }

    /** Length of the listener's own buffer and fields of the listener are set together. */
    method SetOwnBuffer(id: nat, len: nat, c: Client)
      requires Owns() && id in clients && clients[id].refbuf in mem
      modifies this`mem, store, this`clients
      ensures View() == Resize(old(View()), id, len, c) && Owns() && Rest() == old(Rest())
    {
      Put(clients[id].refbuf, store.cells[clients[id].refbuf].(len := len));
      clients := clients[id := c];
    }

    /** The listener has something to be sent, or at least a buffer to send from. */
    ghost predicate Sendable(id: nat)
      reads this
    {
      && id in clients && clients[id].refbuf in mem && clients[id].pos <= mem[clients[id].refbuf].len
      && clients[id].respcode == 200
      && (clients[id].check == AdvanceQueue ==> mem[clients[id].refbuf].len == |mem[clients[id].refbuf].data|)
    }

    /** format_check_file_buffer: the intro file, if there is more of it, else the queue. */
    method FormatCheckFileBuffer(id: nat, luck: Luck) returns (r: int)
      requires Valid() && id in clientTree && clients[id].check == FileBuffer
      modifies this`mem, store, this`clients
      ensures Valid() && Rest() == old(Rest()) && Went(old(View()), View(), id) && (r >= 0 ==> Sendable(id))
      ensures id in old(clients) && id in clients && FileChecked(Offer(), old(Stands(id)), Stands(id), r, luck)
    {
      hide Inv, Went, Joins;
      ghost var v := View();
      OwnBuffer(v, id);
      StandStill(id);
      if clients[id].refbuf == NULL {
        // The listener points nowhere: it must be from a move.
        NullIsFree();
        if live {
          FindClientStart(id);
          return -1;
        }
        Supply(id);
        ghost var v1 := View();
        r := ReadIntro(id, luck);
        WentOn(v, v1, View(), id);
        return;
      }
      if clients[id].pos == store.cells[clients[id].refbuf].len {
        r := ReadIntro(id, luck);
        return;
      }
      r := 0;
    }

    lemma NotQueued(id: nat)
      requires Valid() && id in clients && clients[id].refbuf == NULL
      ensures clients[id].check != AdvanceQueue
    {
      assert InOrder(View(), clients[id], id in clientTree);
    }

    lemma NullIsFree()
      requires Valid()
      ensures NULL !in mem
    {
    }

    /** refbuf_new for a listener without a buffer; it counts as used up. */
    method Supply(id: nat)
      requires Valid() && id in clientTree && clients[id].check == FileBuffer && clients[id].refbuf == NULL
      modifies this`mem, store, this`clients
      ensures Valid() && Rest() == old(Rest()) && Went(old(View()), View(), id)
      ensures clients[id].refbuf != NULL && id in old(clients)
      ensures Stands(id) ==
        Standing(old(clients[id]).(refbuf := clients[id].refbuf, pos := 4096, introOffset := 0), 4096, -1)
    {
      hide Inv, Went, InOrder;
      ActiveKnown(id);
      ghost var v := View();
      var p := Alloc();
      ProvideKeeps(v, id, p, 4096);
      Put(p, PrivateBuf(4096));
      clients := clients[id := clients[id].(refbuf := p)];
      clients := clients[id := clients[id].(pos := 4096, introOffset := 0)];
      assert View() == Provide(v, id, p, 4096);
    }

    /** The buffer has been sent: read more of the intro file into it, or go to the queue, or play it again. */
    method ReadIntro(id: nat, luck: Luck) returns (r: int)
      requires Valid() && id in clientTree && clients[id].check == FileBuffer && clients[id].refbuf != NULL
      modifies this`mem, store, this`clients
      ensures Valid() && Rest() == old(Rest()) && Went(old(View()), View(), id)
      ensures r >= 0 ==> Sendable(id)
      ensures id in old(clients) && id in clients && IntroOver(Offer(), old(Stands(id)), Stands(id), r, luck)
    {
      hide Inv, Went, Joins;
      ActiveKnown(id);
      QueueEnds();
      var bytes := Min(luck.intro, 4096);
      if bytes > 0 {
        FillIntro(id, bytes);
        return 0;
      }
      r := -1;
      if streamDataTail != NULL {
        LeaveIntro(id);
      } else {
        RepeatIntro(id);
      }
    }

    method FillIntro(id: nat, bytes: nat)
      requires Valid() && id in clientTree && clients[id].check == FileBuffer && clients[id].refbuf != NULL
      modifies this`mem, store, this`clients
      ensures Valid() && Rest() == old(Rest()) && Went(old(View()), View(), id)
      ensures Sendable(id) && id in old(clients) && id in clients && var x := old(Stands(id));
        Stands(id) == x.(c := x.c.(pos := 0, introOffset := x.c.introOffset + bytes), len := bytes)
    {
      hide Inv, Went, InOrder;
      OwnBuffer(View(), id);
      var c := clients[id];
      c := c.(pos := 0, introOffset := c.introOffset + bytes);
      ResizeKeeps(View(), id, bytes, c);
      SetOwnBuffer(id, bytes, c);
    }

    /** On to the queue. */
    method LeaveIntro(id: nat)
      requires Valid() && id in clientTree && clients[id].check == FileBuffer
      modifies this`mem, store, this`clients
      ensures Valid() && Rest() == old(Rest()) && Went(old(View()), View(), id)
      ensures id in old(clients) && id in clients
      ensures Lands(Offer(), old(clients[id]).(refbuf := NULL, pos := 0), Stands(id))
    {
      hide Inv;
      ActiveKnown(id);
      LetGoKeeps(View(), id);
      ClientSetQueue(id, NULL);
      FindClientStart(id);
    }

    /** There is no queue yet: the intro starts over. */
    method RepeatIntro(id: nat)
      requires Valid() && id in clientTree && clients[id].check == FileBuffer
      modifies this`clients
      ensures Valid() && Went(old(View()), View(), id) && clients[id] == old(clients[id]).(introOffset := 0)
      ensures id in old(clients) && id in clients
    {
      hide Inv, Went, InOrder;
      IntroAgain(View(), id);
      clients := clients[id := clients[id].(introOffset := 0)];
    }

    /** format_generic_write_to_client: the connection takes as many of the bytes left in the buffer as it likes, or
        none (-1 for an error), and may turn out to be dead. */
    method WriteToClient(id: nat, luck: Luck) returns (bytes: int)
      requires Valid() && id in clientTree && Sendable(id) && !clients[id].error
      modifies this`clients
      ensures Valid() && Went(old(View()), View(), id)
      ensures id in old(clients) && id in clients && Wrote(Offer(), old(Stands(id)), Stands(id), bytes, luck)
    {
      hide Inv, Went;
      ghost var v := View();
      var c := clients[id];
      if c.check == AdvanceQueue {
        OnQueue(id);
        BufferIs(id);
      }
      var b := store.cells[c.refbuf];
      var len := b.len - c.pos;
      bytes := if luck.takes < 0 then -1 else Min(luck.takes, len);
      var n: nat := if bytes > 0 then bytes else 0;
      AcceptedKeeps(v, id, n, luck.trouble == Broken);
      clients := clients[id := Accepted(store.cells, c, n).(error := luck.trouble == Broken)];
    }

    /** The buffer of a listener on the queue is the block at its place. */
    lemma BufferIs(id: nat)
      requires Valid() && id in clients && clients[id].check == AdvanceQueue
      ensures var x := Stands(id);
        && clients[id].refbuf in mem && 0 <= x.at < |blocks| && mem[x.c.refbuf].data == blocks[x.at].data
        && x.len == |blocks[x.at].data| && x.c.refbuf == blocks[x.at].ptr
    {
      assert InOrder(View(), clients[id], id in clientTree);
      assert Linked(View(), mem[clients[id].refbuf].place);
    }

    /** client->check_buffer: what the phase the listener is in says about its buffer. */
    method CheckBuffer(id: nat, luck: Luck) returns (r: int)
      requires Valid() && id in clientTree && id in clients && !clients[id].error
      modifies this`mem, store, this`clients
      ensures Valid() && Rest() == old(Rest()) && Went(old(View()), View(), id) && (r >= 0 ==> Sendable(id))
      ensures id in clients && Checked(Offer(), old(Stands(id)), Stands(id), r, luck)
    {
      hide Inv, Went, HttpChecked, FileChecked, QueueChecked;
      match clients[id].check {
        case HttpBuffer => r := FormatCheckHttpBuffer(id, luck);
        case FileBuffer => r := FormatCheckFileBuffer(id, luck);
        case AdvanceQueue => r := FormatAdvanceQueue(id);
      }
    }

    /** One turn of the loop in send_to_listener. */
    method CheckAndWrite(id: nat, luck: Luck) returns (bytes: int, ghost turn: Turn)
      requires Valid() && id in clientTree && id in clients && !clients[id].error
      modifies this`mem, store, this`clients
      ensures Valid() && Rest() == old(Rest()) && Went(old(View()), View(), id)
      ensures id in clients && turn.Tried? && turn.bytes == bytes
      ensures turn.before == old(Stands(id)) && turn.after == Stands(id)
      ensures Turned(Offer(), turn, luck)
    {
      hide Inv, Went, Checked, Wrote;
      ghost var v, x := View(), Stands(id);
      var r := CheckBuffer(id, luck);
      ghost var y := Stands(id);
      if r < 0 {
        return -1, Tried(x, y, r, -1, y);
      }
      ghost var v1 := View();
      Unhurt(Offer(), x, y, r, luck);
      bytes := WriteToClient(id, luck);
      WentOn(v, v1, View(), id);
      turn := Tried(x, y, r, bytes, Stands(id));
    }

    lemma Unhurt(q: Stream, x: Standing, y: Standing, r: int, luck: Luck)
      requires Checked(q, x, y, r, luck) && r >= 0 && !x.c.error
      ensures !y.c.error
    {
    }

    /** send_to_listener: a bounded number of writes, which leave the listener as `s` says; one still at the head of the
        queue when that is about to be removed is marked for removal itself. */
    method SendToListener(id: nat, deletionExpected: bool, world: World) returns (ghost s: Service)
      requires Valid() && id in clientTree && id in clients
      modifies this`mem, store, this`clients, this`shortDelay
      ensures Valid() && Rest() == old(Rest()) && Went(old(View()), View(), id)
      ensures Delivers(old(View()), old(clients[id]), s.client) && s.from == old(Stands(id))
      ensures Fated(Offer(), world, id, old(clients[id]), s)
      ensures clients[id] == s.client.(error := !Stays(streamData, s.client, deletionExpected))
    {
      hide Inv, Delivers, Driven;
      ghost var v := View();
      s := SendSome(id, world);
      ghost var v1 := View();
      if deletionExpected && clients[id].refbuf != NULL && clients[id].refbuf == streamData {
        MarkForRemoval(id);
        WentOn(v, v1, View(), id);
      }
    }

    /** con->error = 1 */
    method MarkForRemoval(id: nat)
      requires Valid() && id in clients
      modifies this`clients
      ensures Valid() && Went(old(View()), View(), id) && id in old(clients) && id in clients
      ensures clients[id] == old(clients[id]).(error := true)
    {
      hide Inv, Delivers;
      ErrorKeeps(View(), id);
      clients := clients[id := clients[id].(error := true)];
    }

    lemma ActiveKnown(id: nat)
      requires Valid() && id in clientTree
      ensures id in clients
    {
    }

    lemma StandStill(id: nat)
      requires id in clients
      ensures Went(View(), View(), id)
    {
    }

    /** The loop of send_to_listener. */
    method SendSome(id: nat, world: World) returns (ghost s: Service)
      requires Valid() && id in clientTree && id in clients
      modifies this`mem, store, this`clients, this`shortDelay
      ensures Valid() && Rest() == old(Rest()) && Went(old(View()), View(), id)
      ensures s.from == old(Stands(id)) && s.client == clients[id] && Driven(Offer(), world, id, s)
    {
      hide Inv, Went, Turned, Going, TurnAt, Driven;
      ghost var v, x := View(), Stands(id);
      ghost var turns: seq<Turn> := [];
      NoTurnYet(Offer(), world, id, x);
      StandStill(id);
      var loop := 10;
      var turn: nat := 0;
      var totalWritten := 0;
      while true
        invariant 0 <= loop && turn + loop == 10 && |turns| == turn && id in clients
        invariant Valid() && Rest() == old(Rest()) && Went(v, View(), id)
        invariant Going(Offer(), world, id, x, turns, turn) && totalWritten == WrittenIn(turns, turn)
        invariant (turn > 0 ==> turns[turn - 1].Tried?) && Stands(id) == StandsAt(x, turns, turn)
        decreases loop
      {
        ghost var v1 := View();
        if world(id, turn).trouble == TimeOver {
          MarkForRemoval(id);
          WentOn(v, v1, View(), id);
        }
        if clients[id].error {
          s := Service(x, clients[id], turns + [Idle]);
          LoopOver(Offer(), world, id, x, turns, Idle, clients[id]);
          break;
        }
        if totalWritten > 20000 || loop == 0 {
          s := Service(x, clients[id], turns + [Idle]);
          LoopOver(Offer(), world, id, x, turns, Idle, clients[id]);
          if clients[id].check != FileBuffer {
            shortDelay := true;
          }
          break;
        }
        loop := loop - 1;
        var bytes;
        ghost var done;
        bytes, done := CheckAndWrite(id, world(id, turn));
        WentOn(v, v1, View(), id);
        TurnDone(Offer(), world, id, x, turns, done);
        if bytes <= 0 {
          s := Service(x, clients[id], turns + [done]);
          LoopOver(Offer(), world, id, x, turns, done, clients[id]);
          break;
        }
        turn := turn + 1;
        turns := turns + [done];
        totalWritten := totalWritten + bytes;
      }
    }

    // ----- the listeners of a mount

    /** avl_delete with _free_client: the listener goes, and so does its claim on what it points at. One that has not
        been answered yet goes to the file server with its own buffer, to be told. */
    method RemoveListener(id: nat)
      requires Valid() && id in clients
      modifies this`mem, store, this`clients, this`clientTree, this`pendingTree, this`listeners
      ensures Valid() && Rest() == old(Rest()) && Left(old(View()), View(), id)
    {
      RemoveKeeps(View(), id);
      Unlist(id);
    }

    method Unlist(id: nat)
      requires id in clients && (id in clientTree ==> listeners > 0)
      requires Owns()
      requires (clients[id].refbuf == NULL || (clients[id].refbuf in mem && mem[clients[id].refbuf].count > 0))
      modifies this`mem, store, this`clients, this`clientTree, this`pendingTree, this`listeners
      ensures View() == Remove(old(View()), id) && Owns() && Rest() == old(Rest())
    {
      var active := id in clientTree;
      ClientSetQueue(id, NULL);
      clients := clients - {id};
      clientTree := clientTree - {id};
      pendingTree := pendingTree - {id};
      if active {
        listeners := listeners - 1;
      }
    }

    /** One listener's turn in the pass over the active listeners. */
    method ServeListener(id: nat, removeFromQ: bool, world: World) returns (ghost last: Service)
      requires Valid() && id in clientTree && id in clients
      modifies this`mem, store, this`clients, this`clientTree, this`pendingTree, this`listeners, this`shortDelay
      ensures Valid() && Rest() == old(Rest()) && Served(old(View()), View(), id, last, removeFromQ, world)
    {
      hide Inv, Delivers, Fated;
      ghost var v := View();
      ActiveInOrder(id);
      last := SendToListener(id, removeFromQ, world);
      ghost var v1 := View();
      if clients[id].error {
        RemoveListener(id);
        RemoveStep(v, v1, View(), id, last, removeFromQ, world);
      } else {
        StayStep(v, v1, id, last, removeFromQ, world);
      }
    }

    lemma ActiveInOrder(id: nat)
      requires Valid() && id in clientTree
      ensures id in clients && id !in pendingTree
    {
    }

    /** The pass over the active listeners: each is sent what it takes, and those whose connection is done for, or who
        have fallen behind by the whole queue, are removed. */
    method ServeListeners(removeFromQ: bool, world: World) returns (ghost lasts: map<nat, Service>)
      requires Valid()
      modifies this`mem, store, this`clients, this`clientTree, this`pendingTree, this`listeners, this`shortDelay
      ensures Valid() && Rest() == old(Rest())
      ensures Passing(old(View()), View(), {}, lasts, removeFromQ, world)
    {
      hide Inv, Passing, Served;
      ghost var v0 := View();
      PassBegins(v0, removeFromQ, world);
      var todo := clientTree;
      lasts := map[];
      while todo != {}
        invariant Valid() && Rest() == old(Rest()) && Passing(v0, View(), todo, lasts, removeFromQ, world)
        decreases |todo|
      {
        ghost var v := View();
        var id :| id in todo;
        PassNext(v0, v, todo, lasts, id, removeFromQ, world);
        ghost var last := ServeListener(id, removeFromQ, world);
        PassStep(v0, v, View(), todo, lasts, id, last, removeFromQ, world);
        todo := todo - {id};
        lasts := lasts[id := last];
      }
    }

    /** The first of the listeners still to be considered, by the number of its connection. */
    method FirstOf(todo: set<nat>) returns (id: nat)
      requires todo != {}
      ensures id in todo && forall e :: e in todo ==> id <= e
    {
      ghost var first := First(todo);
      id :| id in todo && forall e :: e in todo ==> id <= e;
    }

    /** Pending listeners become active ones, in the order of their connection, as long as there is room; the others
        are sent away. */
    method AdmitPending()
      requires Valid()
      modifies this`mem, store, this`clients, this`clientTree, this`pendingTree, this`listeners
      ensures Valid() && Rest() == old(Rest()) && Admitting(old(View()), View(), {}, maxListeners)
    {
      hide Inv, Admitting, Considered;
      ghost var v0 := View();
      AdmissionBegins(v0, maxListeners);
      var todo := pendingTree;
      while todo != {}
        invariant Valid() && Rest() == old(Rest()) && Admitting(v0, View(), todo, maxListeners)
        decreases |todo|
      {
        ghost var v := View();
        var id := FirstOf(todo);
        AdmissionNext(v0, v, todo, id, maxListeners);
        ConsiderPending(id);
        ghost var v' := View();
        ConsiderStep(v0, v, v', todo, id, maxListeners);
        todo := todo - {id};
      }
    }

    method ConsiderPending(id: nat)
      requires Valid() && id in pendingTree
      modifies this`mem, store, this`clients, this`clientTree, this`pendingTree, this`listeners
      ensures Valid() && Rest() == old(Rest()) && Considered(old(View()), View(), id, maxListeners)
    {
      hide Inv;
      PendingKnown(View(), id);
      if Full(listeners, maxListeners) {
        RemoveListener(id);
      } else {
        AdmitKeeps(View(), id);
        AdmitListener(id);
      }
    }

    method AdmitListener(id: nat)
      modifies this`clientTree, this`pendingTree, this`listeners
      ensures View() == Admit(old(View()), id)
    {
      clientTree := clientTree + {id};
      listeners := listeners + 1;
      pendingTree := pendingTree - {id};
    }

    // ----- reducing the queue

    /** Blocks at the head to which only the queue refers go. The source checks each time whether the queue is in an
        unexpected state; it never is. */
    method ReduceQueue()
      requires Valid()
      modifies this`mem, store, this`streamData, this`queueSize, this`head
      ensures Valid() && Rest() == old(Rest()) && old(head) <= head
      ensures (head == old(head) ==> streamData == old(streamData))
      ensures streamData != NULL ==> streamData in mem && mem[streamData].count > 1
    {
      if streamData != NULL {
        AtBlock(head);
        while store.cells[streamData].count == 1
          invariant Valid() && streamData != NULL && streamData in mem && old(head) <= head < |blocks|
          invariant Rest() == old(Rest()) && (head == old(head) ==> streamData == old(streamData))
          decreases |blocks| - head
        {
          var toGo := streamData;
          UnreferencedHead(View());
          var unexpected := store.cells[toGo].next == NULL || burstPoint == toGo;
          assert !unexpected;
          TrimKeeps(View());
          Unlink(toGo);
          AtBlock(head);
        }
        CountsPositive();
      }
    }

    lemma CountsPositive()
      requires Valid() && streamData != NULL && streamData in mem && mem[streamData].count != 1
      ensures mem[streamData].count > 1
    {
      assert Linked(View(), head);
      assert mem[streamData].count == Due(View(), streamData);
    }

    method Unlink(toGo: Ptr)
      requires Owns() && toGo == streamData && toGo in mem && mem[toGo].count > 0 && mem[toGo].len <= queueSize
      modifies this`mem, store, this`streamData, this`queueSize, this`head
      ensures View() == Trim(old(View())) && Owns() && Rest() == old(Rest())
    {
      var b := store.cells[toGo];
      streamData := b.next;
      queueSize := queueSize - b.len;
      Put(toGo, b.(next := NULL));
      LetGo(toGo);
      head := head + 1;
    }

    // ----- the loop of source_main

    /** What get_next_buffer gave, if anything, is appended, and the burst window moves. */
    method TakeBlock(data: seq<byte>, sync: bool, received: bool)
      requires Valid()
      modifies this`mem, store, this`streamData, this`streamDataTail, this`burstPoint, this`queueSize, this`burstOffset,
        this`blocks, this`burst, this`shortDelay
      ensures Valid() && Rest() == old(Rest()) && old(burst) <= burst && queueSize == Total(blocks, head)
      ensures if received then |blocks| == |old(blocks)| + 1 && blocks[..|old(blocks)|] == old(blocks)
                               && blocks[|old(blocks)|].data == data && blocks[|old(blocks)|].sync == sync
                               && (burstOffset <= burstSize || burst == |blocks| - 1)
              else blocks == old(blocks)
    {
      hide Inv;
      shortDelay := false;
      Sized();
      if received {
        AppendBlock(data, sync);
        CheckBurstPoint();
        Sized();
      }
    }

    lemma Sized()
      requires Valid()
      ensures queueSize == Total(blocks, head)
    {
    }

    /** The active listeners are served, then the pending ones admitted. */
    method ServeAndAdmit(removeFromQ: bool, world: World) returns (ghost lasts: map<nat, Service>)
      requires Valid()
      modifies this`mem, store, this`clients, this`clientTree, this`pendingTree, this`listeners, this`shortDelay
      ensures Valid() && Rest() == old(Rest())
      ensures Turnover(old(View()), View(), streamData, removeFromQ, maxListeners, world, lasts)
      ensures clientTree - old(clientTree) != {} && maxListeners != -1 ==> listeners <= maxListeners % TWO_64
      ensures old(pendingTree) - clientTree != {} ==> maxListeners != -1 && listeners >= maxListeners % TWO_64
      ensures removeFromQ && streamData != NULL ==> forall d :: d in clients ==> clients[d].refbuf != streamData
    {
      hide Inv, Passing, Admitting, Turnover;
      ghost var v0 := View();
      lasts := ServeListeners(removeFromQ, world);
      ghost var v1 := View();
      AdmitPending();
      ghost var v2 := View();
      Conserved(v0, v1, v2, lasts, removeFromQ, maxListeners, world);
      LimitKept(v0, v1, v2, lasts, removeFromQ, maxListeners, world);
      PendingStay(v0, v1, lasts, removeFromQ, world);
      if v1.pendingTree - v2.clientTree != {} {
        RoomUsed(v1, v2, maxListeners);
      }
      HeadStays(v0, v1, lasts, removeFromQ, world);
      if removeFromQ && streamData != NULL {
        HeadUnheld(v0, v1, v2, lasts, maxListeners, world);
      }
    }

    lemma PendingStay(v0: Src, v1: Src, lasts: map<nat, Service>, over: bool, world: World)
      requires Passing(v0, v1, {}, lasts, over, world)
      ensures v1.pendingTree == v0.pendingTree
    {
    }

    lemma HeadStays(v0: Src, v1: Src, lasts: map<nat, Service>, over: bool, world: World)
      requires Passing(v0, v1, {}, lasts, over, world)
      ensures v1.streamData == v0.streamData
    {
    }

    /** The queue is reduced after the pass; `removeFromQ` says that listeners at its head have been removed. */
    method FinishIteration(ghost removeFromQ: bool)
      requires Valid()
      requires removeFromQ && streamData != NULL ==> forall d :: d in clients ==> clients[d].refbuf != streamData
      modifies this`mem, store, this`streamData, this`queueSize, this`head
      ensures Valid() && Rest() == old(Rest()) && old(head) <= head
      ensures removeFromQ ==> head > old(head) || head == burst
    {
      hide Inv;
      ReduceQueue();
      if removeFromQ && head == old(head) {
        EvictionDue();
      }
    }

    /** Nothing could be removed from an overfull queue: then only the burst window keeps the head. */
    lemma EvictionDue()
      requires Valid() && (streamData != NULL ==> streamData in mem && mem[streamData].count > 1)
      requires streamData != NULL ==> forall d :: d in clients ==> clients[d].refbuf != streamData
      ensures head == burst
    {
      if streamData != NULL {
        OnlyBurstHolds(View());
      }
    }

    /** One iteration, with the block read from the source, if any. Slow-listener eviction: with too much queued the
        head block goes, unless the burst window starts there. Who leaves and who comes is what Turnover says, the head
        being the block that was the oldest on the queue when the listeners were served. */
    method Iterate(data: seq<byte>, sync: bool, received: bool, world: World)
      returns (ghost lasts: map<nat, Service>)
      requires Valid()
      modifies this`mem, store, this`streamData, this`streamDataTail, this`burstPoint, this`queueSize, this`burstOffset,
        this`blocks, this`burst, this`shortDelay, this`clients, this`clientTree, this`pendingTree, this`listeners,
        this`head
      ensures Valid() && Rest() == old(Rest()) && Continues(old(View()), View())
      ensures Turnover(old(View()), View(), PtrAt(View(), old(head)), Total(blocks, old(head)) > queueSizeLimit,
                       maxListeners, world, lasts)
      ensures old(head) <= head && old(burst) <= burst
      ensures if received then |blocks| == |old(blocks)| + 1 && blocks[..|old(blocks)|] == old(blocks)
                               && blocks[|old(blocks)|].data == data && blocks[|old(blocks)|].sync == sync
              else blocks == old(blocks)
      ensures Total(blocks, old(head)) > queueSizeLimit ==> head > old(head) || head == burst
      ensures Total(blocks, old(head)) > queueSizeLimit && head < burst ==> |blocks| - head <= old(|blocks| - head)
      ensures clientTree - old(clientTree) != {} && maxListeners != -1 ==> listeners <= maxListeners % TWO_64
      ensures old(pendingTree) - clientTree != {} ==> maxListeners != -1 && listeners >= maxListeners % TWO_64
    {
      hide Inv, Turnover, Continues;
      ghost var v0 := View();
      TakeBlock(data, sync, received);
      ghost var v1 := View();
      HeadAt(v1);
      var removeFromQ := queueSize > queueSizeLimit;
      lasts := ServeAndAdmit(removeFromQ, world);
      ghost var v2, h := View(), streamData;
      FinishIteration(removeFromQ);
      SameTurnover(v0, v1, v2, View(), h, removeFromQ, maxListeners, world, lasts);
    }

    lemma HeadAt(v: Src)
      requires Inv(v)
      ensures v.streamData == PtrAt(v, v.head)
    {
    }

    /** What happens to the queue before and after is no concern of the listeners. */
    lemma SameTurnover(v0: Src, v1: Src, v2: Src, v3: Src, h: Ptr, over: bool, maxListeners: int,
                       world: World, lasts: map<nat, Service>)
      requires Turnover(v1, v2, h, over, maxListeners, world, lasts) && Inv(v1)
      requires v0.clients == v1.clients && v0.clientTree == v1.clientTree && v0.pendingTree == v1.pendingTree
      requires v3.clients == v2.clients && v3.clientTree == v2.clientTree && v3.pendingTree == v2.pendingTree
      requires StreamOf(v3) == StreamOf(v2)
      ensures Turnover(v0, v3, h, over, maxListeners, world, lasts) && Continues(v0, v3)
    {
      hide Inv, Fated, Welcome, Staying;
      SameTrees(v1);
      forall d | d in lasts
        ensures Delivers(v3, v0.clients[d], lasts[d].client)
      {
        SameWindow(v2, v3, v0.clients[d], lasts[d].client);
      }
      TurnoverContinues(v0, v3, h, over, maxListeners, world, lasts);
    }
  }
}
