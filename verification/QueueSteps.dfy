/** The calls that change the queue and its listeners, one at a time, and what each of them keeps. */
module QueueSteps {
  import opened Bytes
  import opened Heap
  import opened QueueState

  // ----- new data

  /** A block got from the format plugin is linked behind the last one, with a reference for the queue and one for
      the burst window. */
  function Append(v: Src, p: Ptr, data: seq<byte>, sync: bool): Src
    requires v.streamDataTail != NULL ==> v.streamDataTail in v.mem
  {
    var linked :=
      if v.streamDataTail != NULL then v.mem[v.streamDataTail := v.mem[v.streamDataTail].(next := p)] else v.mem;
    var mem := linked[p := Buf(data, sync, |data|, 2, NULL, |v.blocks|)];
    v.(mem := mem,
       streamData := if v.streamData == NULL then p else v.streamData,
       burstPoint := if v.streamData == NULL then p else v.burstPoint,
       streamDataTail := p,
       queueSize := v.queueSize + |data|, burstOffset := v.burstOffset + |data|,
       blocks := v.blocks + [Block(p, data, sync)])
  }

  lemma AppendListed(v: Src, p: Ptr, data: seq<byte>, sync: bool)
    requires Listed(v) && p !in v.mem && p != NULL
    ensures Listed(Append(v, p, data, sync))
  {
    var v' := Append(v, p, data, sync);
    var n := |v.blocks|;
    forall i | v'.head <= i < |v'.blocks|
      ensures Linked(v', i)
    {
      if i < n {
        assert Linked(v, i) && Linked(v, n - 1);
      }
    }
  }

  lemma AppendCounted(v: Src, p: Ptr, data: seq<byte>, sync: bool)
    requires Listed(v) && Counted(v) && Manned(v) && p !in v.mem && p != NULL
    ensures Counted(Append(v, p, data, sync))
  {
    var v' := Append(v, p, data, sync);
    forall id | id in v.clients
      ensures v.clients[id].refbuf != p
    {
      assert InOrder(v, v.clients[id], id in v.clientTree);
    }
    HoldersNone(v.clients, p);
    forall q | q in v'.mem
      ensures v'.mem[q].count == Due(v', q) && (v'.mem[q].place < 0 ==> Holders(v'.clients, q) == 1)
    {
      if q != p {
        assert v.mem[q].count == Due(v, q);
      }
    }
  }

  lemma AppendManned(v: Src, p: Ptr, data: seq<byte>, sync: bool)
    requires Listed(v) && Manned(v) && p !in v.mem && p != NULL
    requires v.streamDataTail != NULL ==> v.streamDataTail in v.mem
    ensures Manned(Append(v, p, data, sync))
  {
    hide InOrder, Listed;
    var v' := Append(v, p, data, sync);
    forall id | id in v'.clients
      ensures InOrder(v', v'.clients[id], id in v'.clientTree)
    {
      AppendInOrder(v, p, data, sync, v.clients[id], id in v.clientTree);
    }
  }

  lemma AppendInOrder(v: Src, p: Ptr, data: seq<byte>, sync: bool, c: Client, active: bool)
    requires Listed(v) && p !in v.mem && p != NULL && InOrder(v, c, active)
    ensures InOrder(Append(v, p, data, sync), c, active)
  {
    if c.check == AdvanceQueue {
      ContentsAppend(v.blocks, Block(p, data, sync), c.start, v.mem[c.refbuf].place);
    }
  }

  lemma AppendKeeps(v: Src, p: Ptr, data: seq<byte>, sync: bool)
    requires Inv(v) && p !in v.mem && p != NULL
    ensures Inv(Append(v, p, data, sync))
  {
    AppendListed(v, p, data, sync);
    AppendCounted(v, p, data, sync);
    AppendManned(v, p, data, sync);
    TotalAppend(v.blocks, v.head, Block(p, data, sync));
    TotalAppend(v.blocks, v.burst, Block(p, data, sync));
  }

  // ----- the burst window

  /** The oldest block of the burst window leaves it. */
  function AdvanceBurst(v: Src): Src
    requires v.burstPoint in v.mem && v.mem[v.burstPoint].count > 0 && v.mem[v.burstPoint].len <= v.burstOffset
  {
    v.(burstPoint := v.mem[v.burstPoint].next, burstOffset := v.burstOffset - v.mem[v.burstPoint].len,
       mem := Release(v.mem, v.burstPoint), burst := v.burst + 1)
  }

  lemma AdvanceBurstReady(v: Src)
    requires Inv(v) && v.blocks != []
    ensures v.burstPoint in v.mem && v.mem[v.burstPoint].count >= 2 && v.mem[v.burstPoint].len <= v.burstOffset
    ensures v.mem[v.burstPoint].next == PtrAt(v, v.burst + 1)
    ensures v.mem[v.burstPoint].next != NULL <==> v.burst + 1 < |v.blocks|
  {
    assert Linked(v, v.burst);
    assert v.mem[v.burstPoint].count == Due(v, v.burstPoint);
    if v.burst + 1 < |v.blocks| {
      assert Linked(v, v.burst + 1);
    }
  }

  /** Counts have changed, and buffers that are not on the queue may be gone. */
  predicate Recounted(mem: Memory, mem': Memory) {
    && (forall p :: p in mem' ==> p in mem && mem'[p] == mem[p].(count := mem'[p].count))
    && (forall p :: p in mem && mem[p].place >= 0 ==> p in mem')
  }

  lemma SameListed(v: Src, v': Src)
    requires Listed(v) && Recounted(v.mem, v'.mem) && v'.blocks == v.blocks && v'.head == v.head
    requires v'.streamData == v.streamData && v'.streamDataTail == v.streamDataTail
    requires v.blocks == [] ==> v'.burst == v.burst && v'.burstPoint == v.burstPoint
    requires v.blocks != [] ==> v.head <= v'.burst < |v.blocks| && v'.burstPoint == v.blocks[v'.burst].ptr
    ensures Listed(v')
  {
    if v.blocks != [] {
      assert Linked(v, v'.burst) && Linked(v, v.head) && Linked(v, |v.blocks| - 1);
    }
    forall i | v'.head <= i < |v'.blocks|
      ensures Linked(v', i)
    {
      assert Linked(v, i);
    }
  }

  lemma SameManned(v: Src, v': Src)
    requires Manned(v) && Recounted(v.mem, v'.mem) && v.mem.Keys == v'.mem.Keys
    requires v'.blocks == v.blocks && v'.head == v.head
    requires v'.clients == v.clients && v'.clientTree == v.clientTree && v'.pendingTree == v.pendingTree
    requires v'.listeners == v.listeners
    ensures Manned(v')
  {
    forall id | id in v'.clients
      ensures InOrder(v', v'.clients[id], id in v'.clientTree)
    {
      assert InOrder(v, v.clients[id], id in v.clientTree);
    }
  }

  lemma AdvanceBurstKeeps(v: Src)
    requires Inv(v) && v.burst + 1 < |v.blocks|
    ensures v.burstPoint in v.mem && v.mem[v.burstPoint].count > 0 && v.mem[v.burstPoint].len <= v.burstOffset
    ensures Inv(AdvanceBurst(v))
  {
    AdvanceBurstReady(v);
    assert Linked(v, v.burst);
    hide Manned, Counted, Recounted, Linked, PtrAt;
    var v' := AdvanceBurst(v);
    OneLess(v.mem, v.burstPoint);
    SameListed(v, v');
    SameManned(v, v');
    AdvanceBurstCounted(v, v');
  }

  lemma OneLess(mem: Memory, p: Ptr)
    requires p in mem && mem[p].count >= 2
    ensures Recounted(mem, Release(mem, p)) && Release(mem, p).Keys == mem.Keys
    ensures forall q :: q in mem ==> Release(mem, p)[q].count == mem[q].count - if q == p then 1 else 0
  {
  }

  lemma AdvanceBurstCounted(v: Src, v': Src)
    requires Listed(v) && Counted(v) && v.burst < |v.blocks| && Recounted(v.mem, v'.mem) && v.mem.Keys == v'.mem.Keys
    requires v.burstPoint in v.mem && v.mem[v.burstPoint].place == v.burst
    requires v'.clients == v.clients && v'.burst == v.burst + 1
    requires forall p :: p in v.mem ==> v'.mem[p].count == v.mem[p].count - if p == v.burstPoint then 1 else 0
    ensures Counted(v')
  {
    forall p | p in v'.mem
      ensures v'.mem[p].count == Due(v', p) && (v'.mem[p].place < 0 ==> Holders(v'.clients, p) == 1)
    {
      assert v.mem[p].count == Due(v, p);
    }
  }

  // ----- client_set_queue

  /** A reference to `p` is given up for one to `b`. */
  function Swap(mem: Memory, p: Ptr, b: Ptr): Memory
    requires b == NULL || b in mem
    requires p == NULL || (p in mem && mem[p].count > 0)
  {
    var held := if b == NULL then mem else AddRef(mem, b);
    if p == NULL then held else Release(held, p)
  }

  /** The pointer of a listener is swapped for `b` and its position reset. */
  function SetQueue(v: Src, id: nat, b: Ptr): Src
    requires id in v.clients && (b == NULL || b in v.mem)
    requires v.clients[id].refbuf == NULL || (v.clients[id].refbuf in v.mem && v.mem[v.clients[id].refbuf].count > 0)
  {
    var c := v.clients[id];
    v.(mem := Swap(v.mem, c.refbuf, b), clients := v.clients[id := c.(refbuf := b, pos := 0)])
  }

  /** Counts follow the pointer; a buffer with no other reference is freed. */
  lemma SwapMemory(mem: Memory, p: Ptr, b: Ptr)
    requires NULL !in mem && (b == NULL || b in mem) && (p == NULL || (p in mem && mem[p].count > 0))
    ensures var mem' := Swap(mem, p, b);
      && (forall q :: q in mem' ==>
            q in mem && mem'[q] == mem[q].(count := mem'[q].count)
            && mem'[q].count == mem[q].count + (if q == b then 1 else 0) - if q == p then 1 else 0)
      && (forall q :: q in mem ==> q in mem' || (q == p && p != b && mem[p].count == 1))
      && (p != NULL && p != b && mem[p].count == 1 ==> p !in mem')
  {
  }

  /** What a listener points at is alive. */
  lemma Alive(v: Src, id: nat)
    requires Inv(v) && id in v.clients && v.clients[id].refbuf != NULL
    ensures var p := v.clients[id].refbuf;
      p in v.mem && v.mem[p].count == Due(v, p) > 0
      && (v.mem[p].count == 1 <==> v.mem[p].place < 0)
  {
    var p := v.clients[id].refbuf;
    assert InOrder(v, v.clients[id], id in v.clientTree);
    assert id in HolderSet(v.clients, p);
    assert v.mem[p].count == Due(v, p);
  }

  /** `b` is NULL or a queued block. */
  predicate Target(v: Src, b: Ptr) {
    b == NULL || (b in v.mem && v.mem[b].place >= 0)
  }

  lemma SetQueueCounted(v: Src, id: nat, b: Ptr)
    requires Inv(v) && id in v.clients && Target(v, b)
    requires v.clients[id].refbuf != NULL ==> v.clients[id].refbuf in v.mem && v.mem[v.clients[id].refbuf].count > 0
    ensures Counted(SetQueue(v, id, b))
  {
    var v' := SetQueue(v, id, b);
    var p := v.clients[id].refbuf;
    SwapMemory(v.mem, p, b);
    forall q | q in v'.mem
      ensures v'.mem[q].count == Due(v', q) && (v'.mem[q].place < 0 ==> Holders(v'.clients, q) == 1)
    {
      HoldersMove(v.clients, id, v'.clients[id], q);
      assert v.mem[q].count == Due(v, q);
    }
  }

  /** Only a listener's own buffer can be freed by it. */
  lemma SwapRecounts(v: Src, id: nat, b: Ptr)
    requires Inv(v) && id in v.clients && Target(v, b)
    requires v.clients[id].refbuf != NULL ==> v.clients[id].refbuf in v.mem && v.mem[v.clients[id].refbuf].count > 0
    ensures var p := v.clients[id].refbuf; var mem := Swap(v.mem, p, b);
      Recounted(v.mem, mem) && forall q :: q in v.mem && q != p ==> q in mem
  {
    var p := v.clients[id].refbuf;
    SwapMemory(v.mem, p, b);
    if p != NULL {
      Alive(v, id);
    }
  }

  /** All listeners but one are in order. */
  ghost predicate MannedBut(v: Src, id: nat) {
    && v.clientTree !! v.pendingTree
    && v.clients.Keys == v.clientTree + v.pendingTree
    && v.listeners == |v.clientTree|
    && (forall d :: d in v.clients && d != id ==> InOrder(v, v.clients[d], d in v.clientTree))
  }

  lemma SetQueueOthers(v: Src, v': Src, id: nat)
    requires Counted(v) && Manned(v) && id in v.clients && Recounted(v.mem, v'.mem)
    requires v'.clients.Keys == v.clients.Keys && v'.clientTree == v.clientTree && v'.pendingTree == v.pendingTree
    requires v'.listeners == v.listeners && v'.blocks == v.blocks && v'.head == v.head
    requires forall d :: d in v.clients && d != id ==> v'.clients[d] == v.clients[d]
    requires forall q :: q in v.mem && q != v.clients[id].refbuf ==> q in v'.mem
    ensures MannedBut(v', id)
  {
    var p := v.clients[id].refbuf;
    forall d | d in v'.clients && d != id
      ensures InOrder(v', v'.clients[d], d in v'.clientTree)
    {
      assert InOrder(v, v.clients[d], d in v.clientTree);
      if v.clients[d].refbuf == p && p != NULL && v.mem[p].place < 0 {
        assert v.mem[p].count == Due(v, p);
        HoldersOnly(v.clients, p, id);
      }
    }
  }

  /** client_set_queue keeps the queue and everybody else in order. */
  lemma SetQueueKeeps(v: Src, id: nat, b: Ptr)
    requires Inv(v) && id in v.clients && Target(v, b)
    ensures v.clients[id].refbuf != NULL ==> v.clients[id].refbuf in v.mem && v.mem[v.clients[id].refbuf].count > 0
    ensures var v' := SetQueue(v, id, b);
      Listed(v') && Counted(v') && Measured(v') && MannedBut(v', id) && Recounted(v.mem, v'.mem)
  {
    if v.clients[id].refbuf != NULL {
      Alive(v, id);
    }
    SetQueueKeepsList(v, id, b);
    SetQueueCounted(v, id, b);
    SetQueueKeepsOthers(v, id, b);
  }

  lemma SetQueueKeepsList(v: Src, id: nat, b: Ptr)
    requires Inv(v) && id in v.clients && Target(v, b)
    requires v.clients[id].refbuf != NULL ==> v.clients[id].refbuf in v.mem && v.mem[v.clients[id].refbuf].count > 0
    ensures Listed(SetQueue(v, id, b)) && Recounted(v.mem, SetQueue(v, id, b).mem)
  {
    SwapRecounts(v, id, b);
    SameListed(v, SetQueue(v, id, b));
  }

  lemma SetQueueKeepsOthers(v: Src, id: nat, b: Ptr)
    requires Inv(v) && id in v.clients && Target(v, b)
    requires v.clients[id].refbuf != NULL ==> v.clients[id].refbuf in v.mem && v.mem[v.clients[id].refbuf].count > 0
    ensures MannedBut(SetQueue(v, id, b), id)
  {
    hide InOrder, Listed, Measured;
    SwapRecounts(v, id, b);
    SetQueueOthers(v, SetQueue(v, id, b), id);
  }

  // ----- what changes around one listener

  /** The queue itself is the same, up to counts. */
  ghost predicate SameQueue(v: Src, v': Src) {
    && v'.blocks == v.blocks && v'.head == v.head && v'.burst == v.burst
    && v'.streamData == v.streamData && v'.streamDataTail == v.streamDataTail && v'.burstPoint == v.burstPoint
    && v'.queueSize == v.queueSize && v'.burstOffset == v.burstOffset
    && NULL !in v'.mem
    && (forall q :: q in v.mem && v.mem[q].place >= 0 ==>
          q in v'.mem && v'.mem[q] == v.mem[q].(count := v'.mem[q].count))
    && (forall q :: q in v'.mem && v'.mem[q].place >= 0 ==> q in v.mem && v.mem[q].place == v'.mem[q].place)
  }

  lemma SameQueueListed(v: Src, v': Src)
    requires Listed(v) && Measured(v) && SameQueue(v, v')
    ensures Listed(v') && Measured(v')
  {
    if v.blocks != [] {
      assert Linked(v, v.head) && Linked(v, v.burst) && Linked(v, |v.blocks| - 1);
    }
    forall i | v'.head <= i < |v'.blocks|
      ensures Linked(v', i)
    {
      assert Linked(v, i);
    }
  }

  /** A listener whose buffer has not changed, but for its count, stays in order. */
  lemma OrderKept(v: Src, v': Src, c: Client, active: bool, active': bool)
    requires InOrder(v, c, active) && (active ==> active') && v'.blocks == v.blocks && v.head <= v'.head
    requires c.refbuf in v.mem ==>
      c.refbuf in v'.mem && v'.mem[c.refbuf] == v.mem[c.refbuf].(count := v'.mem[c.refbuf].count)
      && (v.head < v'.head && v.mem[c.refbuf].place >= 0 ==> v'.head <= v.mem[c.refbuf].place)
    ensures InOrder(v', c, active')
  {
  }

  // ----- a listener's other fields, and its own buffer

  function Change(v: Src, id: nat, c: Client): Src {
    v.(clients := v.clients[id := c])
  }

  /** A listener that points where it did may change otherwise, if it ends up in order. */
  lemma ChangeKeeps(v: Src, id: nat, c: Client)
    requires Listed(v) && Counted(v) && Measured(v) && MannedBut(v, id) && id in v.clients
    requires c.refbuf == v.clients[id].refbuf && InOrder(v, c, id in v.clientTree)
    ensures Inv(Change(v, id, c))
  {
    SameQueueListed(v, Change(v, id, c));
    ChangeCounted(v, id, c);
    ChangeManned(v, id, c);
  }

  lemma ChangeCounted(v: Src, id: nat, c: Client)
    requires Counted(v) && id in v.clients && c.refbuf == v.clients[id].refbuf
    ensures Counted(Change(v, id, c))
  {
    var v' := Change(v, id, c);
    forall q | q in v'.mem
      ensures v'.mem[q].count == Due(v', q) && (v'.mem[q].place < 0 ==> Holders(v'.clients, q) == 1)
    {
      HoldersMove(v.clients, id, c, q);
      assert v.mem[q].count == Due(v, q);
    }
  }

  lemma ChangeManned(v: Src, id: nat, c: Client)
    requires MannedBut(v, id) && id in v.clients && InOrder(v, c, id in v.clientTree)
    ensures Manned(Change(v, id, c))
  {
    hide InOrder;
    var v' := Change(v, id, c);
    OrderKept(v, v', c, id in v.clientTree, id in v.clientTree);
    forall d | d in v'.clients && d != id
      ensures InOrder(v', v'.clients[d], d in v'.clientTree)
    {
      OrderKept(v, v', v.clients[d], d in v.clientTree, d in v.clientTree);
    }
  }

  /** The length of a listener's own buffer is set. */
  function SetLen(v: Src, p: Ptr, n: nat): Src
    requires p in v.mem
  {
    v.(mem := v.mem[p := v.mem[p].(len := n)])
  }

  lemma SetLenKeeps(v: Src, id: nat, n: nat)
    requires Inv(v) && id in v.clients && v.clients[id].refbuf in v.mem && v.mem[v.clients[id].refbuf].place < 0
    ensures var v' := SetLen(v, v.clients[id].refbuf, n);
      Listed(v') && Counted(v') && Measured(v') && MannedBut(v', id)
  {
    var p := v.clients[id].refbuf;
    SameQueueListed(v, SetLen(v, p, n));
    SetLenCounted(v, p, n);
    assert v.mem[p].count == Due(v, p);
    HoldersOnly(v.clients, p, id);
    SetLenManned(v, id, n);
  }

  lemma SetLenCounted(v: Src, p: Ptr, n: nat)
    requires Counted(v) && p in v.mem
    ensures Counted(SetLen(v, p, n))
  {
    var v' := SetLen(v, p, n);
    forall q | q in v'.mem
      ensures v'.mem[q].count == Due(v', q) && (v'.mem[q].place < 0 ==> Holders(v'.clients, q) == 1)
    {
      assert v.mem[q].count == Due(v, q);
    }
  }

  lemma SetLenManned(v: Src, id: nat, n: nat)
    requires Manned(v) && id in v.clients && v.clients[id].refbuf in v.mem
    requires forall d :: d in v.clients && d != id ==> v.clients[d].refbuf != v.clients[id].refbuf
    ensures MannedBut(SetLen(v, v.clients[id].refbuf, n), id)
  {
    hide InOrder;
    var v' := SetLen(v, v.clients[id].refbuf, n);
    forall d | d in v'.clients && d != id
      ensures InOrder(v', v'.clients[d], d in v'.clientTree)
    {
      OrderKept(v, v', v.clients[d], d in v.clientTree, d in v.clientTree);
    }
  }

  function PrivateBuf(n: nat): Buf {
    Buf([], false, n, 1, NULL, -1)
  }

  /** A listener that has no buffer is given one of its own, at a fresh address. */
  function NewBuffer(v: Src, id: nat, p: Ptr, n: nat): Src
    requires id in v.clients
  {
    v.(mem := v.mem[p := PrivateBuf(n)], clients := v.clients[id := v.clients[id].(refbuf := p)])
  }

  /** Nobody points at free memory. */
  lemma NoHolder(v: Src, p: Ptr)
    requires Manned(v) && p !in v.mem && p != NULL
    ensures Holders(v.clients, p) == 0
  {
    forall d | d in v.clients
      ensures v.clients[d].refbuf != p
    {
      assert InOrder(v, v.clients[d], d in v.clientTree);
    }
    HoldersNone(v.clients, p);
  }

  lemma NewBufferKeeps(v: Src, id: nat, p: Ptr, n: nat)
    requires Inv(v) && id in v.clients && v.clients[id].refbuf == NULL && p !in v.mem && p != NULL
    ensures var v' := NewBuffer(v, id, p, n); Listed(v') && Counted(v') && Measured(v') && MannedBut(v', id)
  {
    NoHolder(v, p);
    SameQueueListed(v, NewBuffer(v, id, p, n));
    NewBufferCounted(v, id, p, n);
    NewBufferManned(v, id, p, n);
  }

  lemma NewBufferCounted(v: Src, id: nat, p: Ptr, n: nat)
    requires Counted(v) && id in v.clients && v.clients[id].refbuf == NULL && p !in v.mem && NULL !in v.mem
    requires Holders(v.clients, p) == 0 && p != NULL
    ensures Counted(NewBuffer(v, id, p, n))
  {
    var v' := NewBuffer(v, id, p, n);
    forall q | q in v'.mem
      ensures v'.mem[q].count == Due(v', q) && (v'.mem[q].place < 0 ==> Holders(v'.clients, q) == 1)
    {
      HoldersMove(v.clients, id, v'.clients[id], q);
      if q != p {
        assert v.mem[q].count == Due(v, q);
      }
    }
  }

  lemma NewBufferManned(v: Src, id: nat, p: Ptr, n: nat)
    requires Manned(v) && id in v.clients && p !in v.mem
    ensures MannedBut(NewBuffer(v, id, p, n), id)
  {
    hide InOrder;
    var v' := NewBuffer(v, id, p, n);
    forall d | d in v'.clients && d != id
      ensures InOrder(v', v'.clients[d], d in v'.clientTree)
    {
      OrderKept(v, v', v.clients[d], d in v.clientTree, d in v.clientTree);
    }
  }

  // ----- coming and going

  /** A listener that points nowhere leaves. */
  function Drop(v: Src, id: nat): Src
    requires id in v.clientTree ==> v.listeners > 0
  {
    v.(clients := v.clients - {id}, clientTree := v.clientTree - {id}, pendingTree := v.pendingTree - {id},
       listeners := if id in v.clientTree then v.listeners - 1 else v.listeners)
  }

  lemma DropKeeps(v: Src, id: nat)
    requires Listed(v) && Counted(v) && Measured(v) && MannedBut(v, id)
    requires id in v.clients && v.clients[id].refbuf == NULL
    ensures id in v.clientTree ==> v.listeners > 0
    ensures Inv(Drop(v, id))
  {
    assert id in v.clientTree ==> |v.clientTree - {id}| == |v.clientTree| - 1;
    SameQueueListed(v, Drop(v, id));
    DropCounted(v, id);
    DropManned(v, id);
  }

  lemma DropCounted(v: Src, id: nat)
    requires Counted(v) && id in v.clients && v.clients[id].refbuf == NULL && NULL !in v.mem
    requires id in v.clientTree ==> v.listeners > 0
    ensures Counted(Drop(v, id))
  {
    var v' := Drop(v, id);
    forall q | q in v'.mem
      ensures v'.mem[q].count == Due(v', q) && (v'.mem[q].place < 0 ==> Holders(v'.clients, q) == 1)
    {
      HoldersLeave(v.clients, id, q);
      assert v.mem[q].count == Due(v, q);
    }
  }

  lemma DropManned(v: Src, id: nat)
    requires MannedBut(v, id) && id in v.clients && (id in v.clientTree ==> v.listeners > 0)
    ensures Manned(Drop(v, id))
  {
    hide InOrder;
    var v' := Drop(v, id);
    DropTrees(v.clients, v.clientTree, v.pendingTree, id);
    forall d | d in v'.clients
      ensures InOrder(v', v'.clients[d], d in v'.clientTree)
    {
      OrderKept(v, v', v.clients[d], d in v.clientTree, d in v.clientTree);
    }
  }

  lemma DropTrees(clients: map<nat, Client>, active: set<nat>, pending: set<nat>, id: nat)
    requires active !! pending && clients.Keys == active + pending && id in clients
    ensures active - {id} !! pending - {id} && (clients - {id}).Keys == (active - {id}) + (pending - {id})
    ensures |active - {id}| == |active| - (if id in active then 1 else 0)
  {
    if id !in active {
      assert active - {id} == active;
    }
  }

  /** A pending listener becomes an active one. */
  function Admit(v: Src, id: nat): Src {
    v.(clientTree := v.clientTree + {id}, pendingTree := v.pendingTree - {id}, listeners := v.listeners + 1)
  }

  lemma AdmitKeeps(v: Src, id: nat)
    requires Inv(v) && id in v.pendingTree
    ensures Inv(Admit(v, id))
  {
    SameQueueListed(v, Admit(v, id));
    AdmitCounted(v, id);
    AdmitManned(v, id);
  }

  lemma AdmitCounted(v: Src, id: nat)
    requires Counted(v)
    ensures Counted(Admit(v, id))
  {
    var v' := Admit(v, id);
    forall q | q in v'.mem
      ensures v'.mem[q].count == Due(v', q) && (v'.mem[q].place < 0 ==> Holders(v'.clients, q) == 1)
    {
      assert v.mem[q].count == Due(v, q);
    }
  }

  lemma AdmitManned(v: Src, id: nat)
    requires Manned(v) && id in v.pendingTree
    ensures Manned(Admit(v, id))
  {
    hide InOrder;
    var v' := Admit(v, id);
    forall d | d in v'.clients
      ensures InOrder(v', v'.clients[d], d in v'.clientTree)
    {
      OrderKept(v, v', v.clients[d], d in v.clientTree, d in v'.clientTree);
    }
  }

  /** A listener comes to the pending list, with its own buffer `b` or without any (its pointer is NULL). */
  function Arrive(v: Src, id: nat, c: Client, b: Buf): Src {
    v.(mem := if c.refbuf == NULL then v.mem else v.mem[c.refbuf := b],
       clients := v.clients[id := c], pendingTree := v.pendingTree + {id})
  }

  /** Nobody else refers to a buffer that a listener brings along. */
  predicate OwnBuf(b: Buf) {
    b.place == -1 && b.count == 1
  }

  lemma ArriveKeeps(v: Src, id: nat, c: Client, b: Buf)
    requires Inv(v) && id !in v.clients && c.refbuf !in v.mem && (c.refbuf != NULL ==> OwnBuf(b))
    requires InOrder(Arrive(v, id, c, b), c, false)
    ensures Inv(Arrive(v, id, c, b))
  {
    if c.refbuf != NULL {
      NoHolder(v, c.refbuf);
    }
    SameQueueListed(v, Arrive(v, id, c, b));
    ArriveCounted(v, id, c, b);
    ArriveManned(v, id, c, b);
  }

  lemma ArriveCounted(v: Src, id: nat, c: Client, b: Buf)
    requires Counted(v) && id !in v.clients && c.refbuf !in v.mem && NULL !in v.mem
    requires c.refbuf != NULL ==> OwnBuf(b) && Holders(v.clients, c.refbuf) == 0
    ensures Counted(Arrive(v, id, c, b))
  {
    var v' := Arrive(v, id, c, b);
    forall q | q in v'.mem
      ensures v'.mem[q].count == Due(v', q) && (v'.mem[q].place < 0 ==> Holders(v'.clients, q) == 1)
    {
      HoldersJoin(v.clients, id, c, q);
      if q != c.refbuf {
        assert v.mem[q].count == Due(v, q);
      }
    }
  }

  lemma ArriveManned(v: Src, id: nat, c: Client, b: Buf)
    requires Manned(v) && id !in v.clients && c.refbuf !in v.mem
    requires InOrder(Arrive(v, id, c, b), c, false)
    ensures Manned(Arrive(v, id, c, b))
  {
    hide InOrder;
    var v' := Arrive(v, id, c, b);
    forall d | d in v'.clients
      ensures InOrder(v', v'.clients[d], d in v'.clientTree)
    {
      if d != id {
        OrderKept(v, v', v.clients[d], d in v.clientTree, d in v.clientTree);
      }
    }
  }

  // ----- reducing the queue

  /** The head block, to which only the queue refers, is unlinked and released. */
  function Trim(v: Src): Src
    requires v.streamData in v.mem && v.mem[v.streamData].count > 0 && v.mem[v.streamData].len <= v.queueSize
  {
    var b := v.mem[v.streamData];
    v.(streamData := b.next, queueSize := v.queueSize - b.len, head := v.head + 1,
       mem := Release(v.mem[v.streamData := b.(next := NULL)], v.streamData))
  }

  /** A count of 1 at the head means that there is a next block and that the burst window starts later: the
      "queue state is unexpected" branch is never taken. And nobody points at the block. */
  lemma UnreferencedHead(v: Src)
    requires Inv(v) && v.streamData != NULL && v.mem[v.streamData].count == 1
    ensures v.head < v.burst && v.mem[v.streamData].next != NULL && v.burstPoint != v.streamData
    ensures v.mem[v.streamData].len <= v.queueSize
    ensures forall id :: id in v.clients ==> v.clients[id].refbuf != v.streamData
  {
    assert Linked(v, v.head) && Linked(v, v.burst);
    assert v.mem[v.streamData].count == Due(v, v.streamData);
    assert Linked(v, v.head + 1);
    HoldersNone(v.clients, v.streamData);
  }

  lemma TrimKeeps(v: Src)
    requires Inv(v) && v.streamData != NULL && v.mem[v.streamData].count == 1
    ensures v.mem[v.streamData].len <= v.queueSize
    ensures Inv(Trim(v)) && Trim(v).mem == v.mem - {v.streamData}
  {
    UnreferencedHead(v);
    var v' := Trim(v);
    TrimShape(v);
    TrimListed(v, v');
    TrimCounted(v, v');
    TrimManned(v, v');
  }

  lemma TrimShape(v: Src)
    requires Listed(v) && Measured(v) && v.head < v.burst && v.streamData in v.mem && v.mem[v.streamData].count == 1
    requires v.mem[v.streamData].len <= v.queueSize
    ensures Trim(v).mem == v.mem - {v.streamData} && Measured(Trim(v))
  {
    assert Linked(v, v.head);
  }

  lemma TrimListed(v: Src, v': Src)
    requires Listed(v) && v.streamData != NULL && v.streamData in v.mem
    requires v.head < v.burst && v.burstPoint != v.streamData
    requires v'.mem == v.mem - {v.streamData} && v'.blocks == v.blocks && v'.head == v.head + 1 && v'.burst == v.burst
    requires v'.burstPoint == v.burstPoint && v'.streamDataTail == v.streamDataTail
    requires v'.streamData == v.mem[v.streamData].next
    ensures Listed(v')
  {
    assert Linked(v, v.head) && Linked(v, v.head + 1) && Linked(v, v.burst) && Linked(v, |v.blocks| - 1);
    forall i | v'.head <= i < |v'.blocks|
      ensures Linked(v', i)
    {
      assert Linked(v, i);
    }
  }

  lemma TrimCounted(v: Src, v': Src)
    requires Counted(v) && v'.mem == v.mem - {v.streamData} && v'.clients == v.clients && v'.burst == v.burst
    ensures Counted(v')
  {
    forall q | q in v'.mem
      ensures v'.mem[q].count == Due(v', q) && (v'.mem[q].place < 0 ==> Holders(v'.clients, q) == 1)
    {
      assert v.mem[q].count == Due(v, q);
    }
  }

  lemma TrimManned(v: Src, v': Src)
    requires Manned(v) && Listed(v) && v.head < |v.blocks|
    requires v'.mem == v.mem - {v.streamData} && v'.clients == v.clients && v'.clientTree == v.clientTree
    requires v'.pendingTree == v.pendingTree && v'.listeners == v.listeners
    requires v'.blocks == v.blocks && v'.head == v.head + 1
    requires forall id :: id in v.clients ==> v.clients[id].refbuf != v.streamData
    ensures Manned(v')
  {
    forall d | d in v'.clients
      ensures InOrder(v', v'.clients[d], d in v'.clientTree)
    {
      BehindHead(v, v.clients[d], d in v.clientTree);
      hide InOrder, Listed;
      OrderKept(v, v', v.clients[d], d in v.clientTree, d in v.clientTree);
    }
  }

  lemma BehindHead(v: Src, c: Client, active: bool)
    requires Listed(v) && InOrder(v, c, active) && c.refbuf != v.streamData
    ensures c.refbuf in v.mem && v.mem[c.refbuf].place >= 0 ==> v.head < v.mem[c.refbuf].place
  {
  }
}
