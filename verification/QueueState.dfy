/** The in-flight queue of a mount and its listeners. Memory is explicit: an address leads to a buffer with a
    reference count and a link, and freeing takes the address away, so every use of a pointer is checked to be a
    use of live memory. What each call does to this state is a function here; class Source does it in place. */
module QueueState {
  import opened Bytes
  import opened Heap

  /** refbuf_t. `place` is history: the position of a queued block in the stream, -1 for a listener's own
      buffer (HTTP header or intro file), of which only the length is modelled. */
  datatype Buf = Buf(data: seq<byte>, sync: bool, len: nat, count: nat, next: Ptr, place: int)

  type Memory = map<Ptr, Buf>

  /** The phases of a listener: which function checks its buffer. */
  datatype Check = HttpBuffer | FileBuffer | AdvanceQueue

  /** client_t. `start` and `sent` are history: the block it joined the queue at and what it was sent since. */
  datatype Client = Client(check: Check, refbuf: Ptr, pos: nat, introOffset: int, respcode: nat, error: bool,
                           start: nat, sent: seq<byte>)

  /** A block that is or was on the queue. */
  datatype Block = Block(ptr: Ptr, data: seq<byte>, sync: bool)

  /** source_t. `blocks`, `head` and `burst` are history: all blocks so far, and where in them the queue and the
      burst window begin. */
  datatype Src = Src(mem: Memory, streamData: Ptr, streamDataTail: Ptr, burstPoint: Ptr,
                     burstOffset: nat, queueSize: nat,
                     clients: map<nat, Client>, clientTree: set<nat>, pendingTree: set<nat>, listeners: nat,
                     live: bool, blocks: seq<Block>, head: nat, burst: nat)

  // ----- refbuf.c

  function AddRef(mem: Memory, p: Ptr): Memory
    requires p in mem
  {
    mem[p := mem[p].(count := mem[p].count + 1)]
  }

  /** The last release frees the buffer. */
  function Release(mem: Memory, p: Ptr): Memory
    requires p in mem && mem[p].count > 0
  {
    if mem[p].count == 1 then mem - {p} else mem[p := mem[p].(count := mem[p].count - 1)]
  }

  // ----- who points where

  ghost function HolderSet(clients: map<nat, Client>, p: Ptr): set<nat> {
    set id | id in clients && clients[id].refbuf == p
  }

  /** How many listeners point at `p`. */
  ghost function Holders(clients: map<nat, Client>, p: Ptr): nat {
    |HolderSet(clients, p)|
  }

  lemma HoldersLeave(clients: map<nat, Client>, id: nat, p: Ptr)
    requires id in clients
    ensures Holders(clients - {id}, p) == Holders(clients, p) - (if clients[id].refbuf == p then 1 else 0)
  {
    var before, after := HolderSet(clients, p), HolderSet(clients - {id}, p);
    if clients[id].refbuf == p {
      assert before == after + {id};
    } else {
      assert before == after;
    }
  }

  lemma HoldersJoin(clients: map<nat, Client>, id: nat, c: Client, p: Ptr)
    requires id !in clients
    ensures Holders(clients[id := c], p) == Holders(clients, p) + (if c.refbuf == p then 1 else 0)
  {
    var before, after := HolderSet(clients, p), HolderSet(clients[id := c], p);
    if c.refbuf == p {
      assert after == before + {id};
    } else {
      assert after == before;
    }
  }

  lemma HoldersMove(clients: map<nat, Client>, id: nat, c: Client, p: Ptr)
    requires id in clients
    ensures Holders(clients[id := c], p) ==
      Holders(clients, p) - (if clients[id].refbuf == p then 1 else 0) + (if c.refbuf == p then 1 else 0)
  {
    HoldersLeave(clients, id, p);
    HoldersJoin(clients - {id}, id, c, p);
    assert clients[id := c] == (clients - {id})[id := c];
  }

  lemma HoldersNone(clients: map<nat, Client>, p: Ptr)
    ensures Holders(clients, p) == 0 <==> forall id :: id in clients ==> clients[id].refbuf != p
  {
    if Holders(clients, p) == 0 {
      forall id | id in clients
        ensures clients[id].refbuf != p
      {
        assert id !in HolderSet(clients, p);
      }
    } else {
      var id :| id in HolderSet(clients, p);
    }
  }

  lemma HoldersOnly(clients: map<nat, Client>, p: Ptr, id: nat)
    requires Holders(clients, p) == 1 && id in clients && clients[id].refbuf == p
    ensures forall other :: other in clients && other != id ==> clients[other].refbuf != p
  {
    HoldersLeave(clients, id, p);
    HoldersNone(clients - {id}, p);
    forall other | other in clients && other != id
      ensures clients[other].refbuf != p
    {
      assert other in clients - {id};
    }
  }

  // ----- lengths and contents of stretches of the stream

  function Total(blocks: seq<Block>, from: nat): nat
    decreases |blocks| - from
  {
    if from >= |blocks| then 0 else |blocks[from].data| + Total(blocks, from + 1)
  }

  lemma {:induction false} TotalAppend(blocks: seq<Block>, from: nat, b: Block)
    requires from <= |blocks|
    ensures Total(blocks + [b], from) == Total(blocks, from) + |b.data|
    decreases |blocks| - from
  {
    if from < |blocks| {
      TotalAppend(blocks, from + 1, b);
    } else {
      assert Total(blocks + [b], from + 1) == 0;
    }
  }

  /** The bytes from the start of block `from` to the end of block `to - 1`. */
  function Contents(blocks: seq<Block>, from: nat, to: nat): seq<byte>
    requires to <= |blocks|
  {
    if to <= from then [] else Contents(blocks, from, to - 1) + blocks[to - 1].data
  }

  lemma {:induction false} ContentsAppend(blocks: seq<Block>, b: Block, from: nat, to: nat)
    requires to <= |blocks|
    ensures Contents(blocks + [b], from, to) == Contents(blocks, from, to)
  {
    if from < to {
      ContentsAppend(blocks, b, from, to - 1);
    }
  }

  /** What lies between the start of block `from` and byte `pos` of block `k`. */
  function Slice(blocks: seq<Block>, from: nat, k: nat, pos: nat): seq<byte>
    requires from <= k < |blocks| && pos <= |blocks[k].data|
  {
    Contents(blocks, from, k) + blocks[k].data[..pos]
  }

  lemma SliceNext(blocks: seq<Block>, from: nat, k: nat)
    requires from <= k && k + 1 < |blocks|
    ensures Slice(blocks, from, k + 1, 0) == Slice(blocks, from, k, |blocks[k].data|)
  {
    assert blocks[k].data[..|blocks[k].data|] == blocks[k].data;
  }

  lemma SliceGrow(blocks: seq<Block>, from: nat, k: nat, pos: nat, n: nat)
    requires from <= k < |blocks| && pos + n <= |blocks[k].data|
    ensures Slice(blocks, from, k, pos + n) == Slice(blocks, from, k, pos) + blocks[k].data[pos..pos + n]
  {
    assert blocks[k].data[..pos + n] == blocks[k].data[..pos] + blocks[k].data[pos..pos + n];
  }

  // ----- the invariant

  /** Buffer `p` is the queue's block `i`. */
  predicate Queued(v: Src, p: Ptr, i: nat) {
    v.head <= i < |v.blocks| && v.blocks[i].ptr == p
  }

  function PtrAt(v: Src, i: nat): Ptr {
    if i < |v.blocks| then v.blocks[i].ptr else NULL
  }

  /** The queue is the linked list of the live blocks, in order. */
  ghost predicate Listed(v: Src) {
    && NULL !in v.mem
    && (forall i {:trigger Linked(v, i)} :: v.head <= i < |v.blocks| ==> Linked(v, i))
    && (forall p :: p in v.mem && v.mem[p].place >= 0 ==> Queued(v, p, v.mem[p].place))
    && (if v.head == |v.blocks| then
          v.blocks == [] && v.burst == 0 && v.streamData == v.streamDataTail == v.burstPoint == NULL
        else
          v.streamData in v.mem && v.streamDataTail in v.mem && v.burstPoint in v.mem
          && v.head <= v.burst < |v.blocks| && v.streamData == v.blocks[v.head].ptr
          && v.streamDataTail == v.blocks[|v.blocks| - 1].ptr && v.burstPoint == v.blocks[v.burst].ptr)
  }

  predicate Linked(v: Src, i: nat)
    requires i < |v.blocks|
  {
    v.blocks[i].ptr in v.mem && var b := v.mem[v.blocks[i].ptr];
    b.place == i && b.data == v.blocks[i].data && b.sync == v.blocks[i].sync && b.len == |b.data|
    && b.next == PtrAt(v, i + 1)
  }

  /** What the reference count of a buffer must be: the queue, the burst window, and each listener pointing at it. */
  ghost function Due(v: Src, p: Ptr): nat
    requires p in v.mem
  {
    (if v.mem[p].place < 0 then 0 else if v.mem[p].place < v.burst then 1 else 2) + Holders(v.clients, p)
  }

  /** Every buffer has exactly the references its count says; a listener's own buffer has just that one. */
  ghost predicate Counted(v: Src) {
    forall p :: p in v.mem ==>
      v.mem[p].count == Due(v, p) && (v.mem[p].place < 0 ==> Holders(v.clients, p) == 1)
  }

  predicate Measured(v: Src) {
    v.queueSize == Total(v.blocks, v.head) && v.burstOffset == Total(v.blocks, v.burst)
  }

  /** A listener on the queue points at a queued block and has been sent one stretch of the stream, from a sync
      point up to its position; any other has its own buffer, or none. */
  predicate InOrder(v: Src, c: Client, active: bool) {
    if c.check == AdvanceQueue then
      && active && c.respcode == 200
      && c.refbuf in v.mem && v.mem[c.refbuf].place >= 0
      && var i := v.mem[c.refbuf].place;
      && Queued(v, c.refbuf, i) && c.pos <= |v.blocks[i].data|
      && c.start <= i && v.blocks[c.start].sync
      && c.sent == Slice(v.blocks, c.start, i, c.pos)
    else
      && (c.refbuf == NULL || (c.refbuf in v.mem && v.mem[c.refbuf].place == -1 && c.pos <= v.mem[c.refbuf].len))
      && (c.check == HttpBuffer ==> c.refbuf != NULL)
      && (c.respcode != 200 ==> c.check == HttpBuffer && c.pos == 0 && (c.respcode == 0 || c.error))
  }

  ghost predicate Manned(v: Src) {
    && v.clientTree !! v.pendingTree
    && v.clients.Keys == v.clientTree + v.pendingTree
    && v.listeners == |v.clientTree|
    && (forall id :: id in v.clients ==> InOrder(v, v.clients[id], id in v.clientTree))
  }

  ghost predicate Inv(v: Src) {
    Listed(v) && Counted(v) && Measured(v) && Manned(v)
  }
}
