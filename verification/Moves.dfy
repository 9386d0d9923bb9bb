/** Listeners on the move: to another mount, and off a mount that is cleared. */
module Moves {
  import opened Bytes
  import opened Heap
  import opened QueueState
  import opened QueueSteps
  import opened Turns
  import opened QueueListeners
  import S = Source

  // ----- source_move_clients, one listener at a time

  /** A listener still being sent its headers keeps its buffer; any other lets go of what it points at and waits for
      the queue of its new mount, after an intro unless it was moved off a mount without a source. */
  function Moved(c: Client, connected: bool): Client {
    if c.check == HttpBuffer then c
    else c.(refbuf := NULL, pos := 0, check := FileBuffer, introOffset := if connected then c.introOffset else -1)
  }

  /** What becomes of a listener that has been moved: one still being sent its headers goes on with them. Any other
      joins the queue of its new mount in its first turn there if the newest block is a sync point, and at that block if
      it had been in midstream or comes off a mount whose source was gone; one that had not begun to hear the intro
      begins at the first sync point in the burst window. */
  lemma MovedResumes(q: Stream, c: Client, connected: bool, y: Standing, r: int, luck: Luck)
    requires q.live && q.blocks != []
    ensures c.check == HttpBuffer ==> Moved(c, connected) == c
    ensures c.check != HttpBuffer && Checked(q, Standing(Moved(c, connected), 0, -1), y, r, luck) ==>
      && r == -1 && y.c.sent == (if y.c.check == AdvanceQueue then [] else c.sent)
      && (q.blocks[|q.blocks| - 1].sync ==> y.c.check == AdvanceQueue)
      && (q.blocks[|q.blocks| - 1].sync && (c.introOffset == -1 || !connected) ==> y.at == |q.blocks| - 1)
      && (c.introOffset == 0 && connected && SyncFrom(q.blocks, q.burst) ==>
            y.c.check == AdvanceQueue && IsFirstSync(q.blocks, q.burst, y.c.start))
  {
    if c.check != HttpBuffer && Checked(q, Standing(Moved(c, connected), 0, -1), y, r, luck) {
      WhereItJoins(q.blocks, q.burst, Moved(c, connected), y.c);
    }
  }

  /** In order, but for the number of listeners, which is set when the move is over. */
  ghost predicate InvBut(v: Src) {
    Inv(v.(listeners := |v.clientTree|))
  }

  /** The listener taken off its mount, whose count stays as it is. */
  function TakenOff(v: Src, id: nat): Src
    requires id in v.clients
    requires v.clients[id].refbuf == NULL || (v.clients[id].refbuf in v.mem && v.mem[v.clients[id].refbuf].count > 0)
  {
    v.(mem := Swap(v.mem, v.clients[id].refbuf, NULL), clients := v.clients - {id},
       clientTree := v.clientTree - {id}, pendingTree := v.pendingTree - {id})
  }

  lemma TakenOffKeeps(v: Src, id: nat)
    requires InvBut(v) && id in v.clients
    ensures v.clients[id].refbuf != NULL ==> v.clients[id].refbuf in v.mem && v.mem[v.clients[id].refbuf].count > 0
    ensures InvBut(TakenOff(v, id)) && Recounted(v.mem, TakenOff(v, id).mem)
  {
    var w := v.(listeners := |v.clientTree|);
    RemoveKeeps(w, id);
    SetQueueKeeps(w, id, NULL);
    TakenOffRemoved(v, w, id);
  }

  lemma TakenOffRemoved(v: Src, w: Src, id: nat)
    requires w == v.(listeners := |v.clientTree|) && id in v.clients && (id in v.clientTree ==> w.listeners > 0)
    requires v.clients[id].refbuf == NULL || (v.clients[id].refbuf in v.mem && v.mem[v.clients[id].refbuf].count > 0)
    ensures var t := TakenOff(v, id); t.(listeners := |t.clientTree|) == Remove(w, id)
  {
    ElsewhereSame(v.clients, id, v.clients[id].(refbuf := NULL, pos := 0));
    if id !in v.clientTree {
      assert v.clientTree - {id} == v.clientTree;
    }
  }

  /** What the listener has in memory. */
  function BufOf(v: Src, c: Client): Buf {
    if c.refbuf in v.mem then v.mem[c.refbuf] else PrivateBuf(0)
  }

  /** A listener still being sent its headers has a buffer of its own, which goes along with it; what any other points
      at is given up. */
  lemma Leaves(v: Src, id: nat)
    requires InvBut(v) && id in v.clients
    ensures var c := v.clients[id];
      c.check == HttpBuffer ==>
        c.refbuf != NULL && c.refbuf in v.mem && OwnBuf(v.mem[c.refbuf])
        && Swap(v.mem, c.refbuf, NULL) == v.mem - {c.refbuf}
  {
    var w := v.(listeners := |v.clientTree|);
    assert InOrder(w, w.clients[id], id in w.clientTree);
    if w.clients[id].refbuf != NULL {
      Alive(w, id);
    }
  }

  lemma Arrives(f: Src, d: Src, id: nat, connected: bool)
    requires InvBut(f) && Inv(d) && id in f.clients && id !in d.clients && f.mem.Keys !! d.mem.Keys
    ensures var c := f.clients[id]; Inv(Arrive(d, id, Moved(c, connected), BufOf(f, c)))
  {
    var c, w := f.clients[id], f.(listeners := |f.clientTree|);
    var c' := Moved(c, connected);
    assert InOrder(w, w.clients[id], id in w.clientTree);
    assert NULL !in d.mem;
    Leaves(f, id);
    ArrivesInOrder(w, d, c, id in w.clientTree, connected);
    ArriveKeeps(d, id, c', BufOf(f, c));
  }

  lemma ArrivesInOrder(v: Src, d: Src, c: Client, active: bool, connected: bool)
    requires InOrder(v, c, active)
    ensures forall id: nat :: var c' := Moved(c, connected); InOrder(Arrive(d, id, c', BufOf(v, c)), c', false)
  {
  }

  /** Part of the way from mount `f0` to mount `d0`: the listeners that are no longer on the one are pending on the
      other; nothing else has changed. */
  ghost predicate Moving(f0: Src, d0: Src, f: Src, d: Src, connected: bool) {
    && f == f0.(mem := f.mem, clients := f.clients, clientTree := f.clientTree, pendingTree := f.pendingTree)
    && f.clients.Keys <= f0.clients.Keys && f.clientTree <= f0.clientTree && f.pendingTree <= f0.pendingTree
    && (forall id :: id in f.clients ==> f.clients[id] == f0.clients[id])
    && Recounted(f0.mem, f.mem)
    && var gone := f0.clients.Keys - f.clients.Keys;
    && d == d0.(mem := d.mem, clients := d.clients, pendingTree := d0.pendingTree + gone)
    && d.clients.Keys == d0.clients.Keys + gone
    && (forall id :: id in d0.clients ==> d.clients[id] == d0.clients[id])
    && (forall id :: id in gone ==> Rehomed(f0, d, id, connected))
  }

  /** The listener has arrived, and so has, at the same address, the buffer with what it had not been sent yet of its
      headers. */
  ghost predicate Rehomed(f0: Src, d: Src, id: nat, connected: bool) {
    && id in f0.clients && id in d.clients
    && var c := f0.clients[id];
    && d.clients[id] == Moved(c, connected)
    && (c.check == HttpBuffer ==>
          c.refbuf in f0.mem && c.refbuf in d.mem
          && d.mem[c.refbuf] == f0.mem[c.refbuf].(count := d.mem[c.refbuf].count))
  }

  lemma RehomedStays(f0: Src, d: Src, d': Src, id: nat, connected: bool)
    requires Rehomed(f0, d, id, connected)
    requires forall p :: p in d.mem ==> p in d'.mem && d'.mem[p] == d.mem[p]
    requires id in d'.clients && d'.clients[id] == d.clients[id]
    ensures Rehomed(f0, d', id, connected)
  {
  }

  lemma RecountedOn(m: Memory, m1: Memory, m2: Memory)
    requires Recounted(m, m1) && Recounted(m1, m2)
    ensures Recounted(m, m2)
  {
  }

  lemma RehomedNow(f0: Src, f: Src, d: Src, id: nat, connected: bool)
    requires Recounted(f0.mem, f.mem) && id in f0.clients && id in f.clients && f.clients[id] == f0.clients[id]
    requires f.clients[id].check == HttpBuffer ==> f.clients[id].refbuf != NULL && f.clients[id].refbuf in f.mem
    ensures Rehomed(f0, Arrive(d, id, Moved(f.clients[id], connected), BufOf(f, f.clients[id])), id, connected)
  {
  }

  lemma MovingStep(f0: Src, d0: Src, f: Src, d: Src, f': Src, d': Src, id: nat, connected: bool)
    requires Moving(f0, d0, f, d, connected) && id in f.clients && id !in d0.clients
    requires Hopped(f, d, f', d', id, connected)
    ensures Moving(f0, d0, f', d', connected)
  {
    hide Recounted, Rehomed;
    RecountedOn(f0.mem, f.mem, f'.mem);
    RehomedNow(f0, f, d, id, connected);
    var gone, gone' := f0.clients.Keys - f.clients.Keys, f0.clients.Keys - f'.clients.Keys;
    assert gone' == gone + {id};
    forall k | k in gone'
      ensures Rehomed(f0, d', k, connected)
    {
      if k != id {
        RehomedStays(f0, d, d', k, connected);
      }
    }
  }

  ghost predicate Hopped(f: Src, d: Src, f': Src, d': Src, id: nat, connected: bool) {
    && id in f.clients && var c := f.clients[id];
    && (c.refbuf == NULL || (c.refbuf in f.mem && f.mem[c.refbuf].count > 0))
    && (c.check == HttpBuffer ==> c.refbuf != NULL && c.refbuf !in d.mem)
    && f' == TakenOff(f, id) && d' == Arrive(d, id, Moved(c, connected), BufOf(f, c)) && Recounted(f.mem, f'.mem)
  }

  // ----- the calls

  /** A mount as source_move_clients sees it. */
  class Mount {
    const name: string
    const source: S.Source
    var onDemand: bool
    var onDemandReq: bool
    var connected: bool            // source->con is set
    var format: Option<nat>        // the type of source->format, if that is set

    constructor (name: string, source: S.Source)
      ensures this.name == name && this.source == source
    {
      this.name := name;
      this.source := source;
      onDemand, onDemandReq, connected, format := false, false, false, None;
    }

    ghost function View(): Src
      reads this, source
    {
      source.View()
    }
  }

  /** The move does not take place. */
  predicate Refused(from: Mount, dest: Mount)
    reads from, dest, dest.source`running
  {
    || from.name == dest.name
    || (!dest.source.running && !dest.onDemand)
    || (!from.onDemand && from.format == None)
    || (from.format.Some? && dest.format.Some? && from.format != dest.format)
  }

  /** Two mounts in one memory, each with its own part of it. */
  ghost predicate Side(f: S.Source, d: S.Source)
    reads f, d, f.store
  {
    f.store == d.store && f.Owns() && d.Owns() && f.mem.Keys !! d.mem.Keys
  }

  /** The memory of all the other mounts. */
  ghost function Others(f: S.Source, d: S.Source): Memory
    reads f`mem, d`mem, f.store
  {
    f.store.cells - f.mem.Keys - d.mem.Keys
  }

  /** A listener goes from one mount to the other. */
  method MoveListener(from: Mount, dest: Mount, id: nat)
    requires from.source != dest.source && Side(from.source, dest.source)
    requires InvBut(from.View()) && Inv(dest.View())
    requires id in from.source.clients && id !in dest.source.clients
    modifies from.source`mem, from.source`clients, from.source`clientTree, from.source`pendingTree, from.source.store
    modifies dest.source`mem, dest.source`clients, dest.source`pendingTree
    ensures InvBut(from.View()) && Inv(dest.View())
    ensures Side(from.source, dest.source) && Others(from.source, dest.source) == old(Others(from.source, dest.source))
    ensures Hopped(old(from.View()), old(dest.View()), from.View(), dest.View(), id, from.connected)
  {
    hide Inv, InOrder, InvBut;
    ghost var f, d := from.View(), dest.View();
    var c := from.source.clients[id];
    ghost var b := BufOf(f, c);
    TakenOffKeeps(f, id);
    Leaves(f, id);
    Arrives(f, d, id, from.connected);
    if c.check == HttpBuffer {
      HandOver(from.source, dest.source, id);
    } else {
      TakeOff(from.source, dest.source, id);
    }
    PutOn(dest.source, id, Moved(c, from.connected), b);
  }

  /** A listener leaves a mount, giving up what it points at. */
  method TakeOff(s: S.Source, t: S.Source, id: nat)
    requires s != t && Side(s, t) && id in s.clients
    requires s.clients[id].refbuf == NULL || (s.clients[id].refbuf in s.mem && s.mem[s.clients[id].refbuf].count > 0)
    modifies s`mem, s`clients, s`clientTree, s`pendingTree, s.store
    ensures s.View() == TakenOff(old(s.View()), id)
    ensures Side(s, t) && Others(s, t) == old(Others(s, t))
  {
    ElsewhereSame(s.clients, id, s.clients[id].(refbuf := NULL, pos := 0));
    s.ClientSetQueue(id, NULL);
    forall p | p in t.mem
      ensures p in s.store.cells && s.store.cells[p] == t.mem[p] && p !in s.mem
    {
      assert p in old(s.Rest());
      assert p in s.Rest() && s.Rest()[p] == t.mem[p];
    }
    assert Others(s, t) == s.Rest() - t.mem.Keys;
    Strike(s, id);
  }

  method Strike(s: S.Source, id: nat)
    modifies s`clients, s`clientTree, s`pendingTree
    ensures s.clients == old(s.clients) - {id}
    ensures s.clientTree == old(s.clientTree) - {id} && s.pendingTree == old(s.pendingTree) - {id}
  {
    s.clients := s.clients - {id};
    s.clientTree := s.clientTree - {id};
    s.pendingTree := s.pendingTree - {id};
  }

  /** A listener leaves a mount with its own buffer, which stays where it is in memory. */
  method HandOver(s: S.Source, t: S.Source, id: nat)
    requires s != t && Side(s, t) && id in s.clients && s.clients[id].refbuf in s.mem
    requires s.mem[s.clients[id].refbuf].count == 1
    requires Swap(s.mem, s.clients[id].refbuf, NULL) == s.mem - {s.clients[id].refbuf}
    modifies s`mem, s`clients, s`clientTree, s`pendingTree, t`mem
    ensures s.View() == TakenOff(old(s.View()), id)
    ensures t.mem == old(t.mem)[old(s.clients)[id].refbuf := old(s.mem)[old(s.clients)[id].refbuf]]
    ensures Side(s, t) && Others(s, t) == old(Others(s, t))
  {
    ghost var p := s.clients[id].refbuf;
    t.mem := t.mem[p := s.mem[p]];
    s.mem := s.mem - {p};
    Strike(s, id);
  }

  /** A listener is put on the pending list of a mount; what it brings along is the mount's already. */
  method PutOn(s: S.Source, id: nat, c: Client, ghost b: Buf)
    requires c.refbuf != NULL ==> c.refbuf in s.mem && s.mem[c.refbuf] == b
    modifies s`clients, s`pendingTree
    ensures s.View() == Arrive(old(s.View()), id, c, b)
  {
    assert c.refbuf != NULL ==> s.mem[c.refbuf := b] == s.mem;
    s.clients := s.clients[id := c];
    s.pendingTree := s.pendingTree + {id};
  }

  /** A listener goes, as one step of a move under way. */
  method MoveOne(from: Mount, dest: Mount, id: nat, ghost f0: Src, ghost d0: Src)
    requires from.source != dest.source && Side(from.source, dest.source)
    requires InvBut(from.View()) && Inv(dest.View())
    requires f0.clients.Keys !! d0.clients.Keys && Moving(f0, d0, from.View(), dest.View(), from.connected)
    requires id in from.source.pendingTree || id in from.source.clientTree
    modifies from.source`mem, from.source`clients, from.source`clientTree, from.source`pendingTree, from.source.store
    modifies dest.source`mem, dest.source`clients, dest.source`pendingTree
    ensures InvBut(from.View()) && Inv(dest.View())
    ensures Side(from.source, dest.source) && Others(from.source, dest.source) == old(Others(from.source, dest.source))
    ensures Moving(f0, d0, from.View(), dest.View(), from.connected)
    ensures from.source.pendingTree == old(from.source.pendingTree) - {id}
    ensures from.source.clientTree == old(from.source.clientTree) - {id}
  {
    hide Inv, Moving, Recounted, Side, Others;
    ghost var f, d := from.View(), dest.View();
    NextToMove(f0, d0, f, d, id, from.connected);
    MoveListener(from, dest, id);
    MovingStep(f0, d0, f, d, from.View(), dest.View(), id, from.connected);
  }

  lemma NextToMove(f0: Src, d0: Src, f: Src, d: Src, id: nat, connected: bool)
    requires Moving(f0, d0, f, d, connected) && InvBut(f) && (id in f.pendingTree || id in f.clientTree)
    requires f0.clients.Keys !! d0.clients.Keys
    ensures id in f.clients && id !in d0.clients && id !in d.clients
  {
  }

  lemma MoveBegins(f: Src, d: Src, connected: bool)
    requires Inv(f)
    ensures InvBut(f) && Moving(f, d, f, d, connected)
    ensures |f.pendingTree| + |f.clientTree| > 0 <==> f.clients != map[]
  {
    assert f.(listeners := |f.clientTree|) == f;
    NothingMoved(f, d, connected);
    Crowd(f.clients, f.clientTree, f.pendingTree);
  }

  lemma NothingMoved(f: Src, d: Src, connected: bool)
    ensures Moving(f, d, f, d, connected)
  {
    assert d.pendingTree + {} == d.pendingTree && d.clients.Keys + {} == d.clients.Keys;
    assert f.clients.Keys - f.clients.Keys == {};
  }

  lemma Crowd(clients: map<nat, Client>, active: set<nat>, pending: set<nat>)
    requires clients.Keys == active + pending
    ensures |pending| + |active| > 0 <==> clients != map[]
  {
    if clients != map[] {
      var id :| id in clients;
      assert id in active || id in pending;
    } else {
      assert clients.Keys == {};
    }
  }

  /** With both lists empty nobody is left, and the mount is in order with no listeners. */
  lemma MoveEnds(f0: Src, d0: Src, f: Src, d: Src, connected: bool)
    requires Moving(f0, d0, f, d, connected) && InvBut(f) && f.pendingTree == {} && f.clientTree == {}
    ensures Inv(f.(listeners := 0)) && Emptied(f0, d0, f.(listeners := 0), d, connected)
  {
    assert f.clients.Keys == {};
    assert f.(listeners := 0).(listeners := f0.listeners) == f;
  }

  /** The first loop of source_move_clients: the pending listeners go. */
  method MovePending(from: Mount, dest: Mount, ghost f0: Src, ghost d0: Src)
    requires from.source != dest.source && Side(from.source, dest.source)
    requires InvBut(from.View()) && Inv(dest.View())
    requires f0.clients.Keys !! d0.clients.Keys && Moving(f0, d0, from.View(), dest.View(), from.connected)
    modifies from.source`mem, from.source`clients, from.source`clientTree, from.source`pendingTree, from.source.store
    modifies dest.source`mem, dest.source`clients, dest.source`pendingTree
    ensures Side(from.source, dest.source) && Others(from.source, dest.source) == old(Others(from.source, dest.source))
    ensures InvBut(from.View()) && Inv(dest.View()) && from.source.pendingTree == {}
    ensures Moving(f0, d0, from.View(), dest.View(), from.connected)
  {
    hide Inv, Moving, Side, Others;
    while from.source.pendingTree != {}
      invariant Side(from.source, dest.source)
      invariant Others(from.source, dest.source) == old(Others(from.source, dest.source))
      invariant InvBut(from.View()) && Inv(dest.View())
      invariant Moving(f0, d0, from.View(), dest.View(), from.connected)
      decreases |from.source.pendingTree|
    {
      var id :| id in from.source.pendingTree;
      MoveOne(from, dest, id, f0, d0);
    }
  }

  /** The second loop: the active ones go. */
  method MoveActive(from: Mount, dest: Mount, ghost f0: Src, ghost d0: Src)
    requires from.source != dest.source && Side(from.source, dest.source)
    requires InvBut(from.View()) && Inv(dest.View()) && from.source.pendingTree == {}
    requires f0.clients.Keys !! d0.clients.Keys && Moving(f0, d0, from.View(), dest.View(), from.connected)
    modifies from.source`mem, from.source`clients, from.source`clientTree, from.source`pendingTree, from.source.store
    modifies dest.source`mem, dest.source`clients, dest.source`pendingTree
    ensures Side(from.source, dest.source) && Others(from.source, dest.source) == old(Others(from.source, dest.source))
    ensures InvBut(from.View()) && Inv(dest.View()) && from.source.pendingTree == from.source.clientTree == {}
    ensures Moving(f0, d0, from.View(), dest.View(), from.connected)
  {
    hide Inv, Moving, Side, Others;
    while from.source.clientTree != {}
      invariant Side(from.source, dest.source)
      invariant Others(from.source, dest.source) == old(Others(from.source, dest.source))
      invariant InvBut(from.View()) && Inv(dest.View()) && from.source.pendingTree == {}
      invariant Moving(f0, d0, from.View(), dest.View(), from.connected)
      decreases |from.source.clientTree|
    {
      var id :| id in from.source.clientTree;
      MoveOne(from, dest, id, f0, d0);
    }
  }

  /** The two loops of source_move_clients: first the pending listeners, then the active ones. */
  method MoveAll(from: Mount, dest: Mount) returns (count: nat)
    requires from.source != dest.source && from.source.Valid() && dest.source.Valid() && Side(from.source, dest.source)
    requires from.source.clients.Keys !! dest.source.clients.Keys
    modifies from.source`mem, from.source`clients, from.source`clientTree, from.source`pendingTree,
      from.source`listeners,
      from.source.store
    modifies dest.source`mem, dest.source`clients, dest.source`pendingTree
    ensures from.source.Valid() && dest.source.Valid() && Side(from.source, dest.source)
    ensures Others(from.source, dest.source) == old(Others(from.source, dest.source))
    ensures Emptied(old(from.View()), old(dest.View()), from.View(), dest.View(), from.connected)
    ensures count > 0 <==> old(from.source.clients) != map[]
  {
    hide Inv, Moving, Emptied, Others;
    ghost var f0, d0 := from.View(), dest.View();
    MoveBegins(f0, d0, from.connected);
    count := |from.source.pendingTree| + |from.source.clientTree|;
    MovePending(from, dest, f0, d0);
    MoveActive(from, dest, f0, d0);
    MoveEnds(f0, d0, from.View(), dest.View(), from.connected);
    from.source.listeners := 0;
  }

  /** All the listeners of mount `f0` are pending on mount `d0`, and nothing else has changed. */
  ghost predicate Emptied(f0: Src, d0: Src, f: Src, d: Src, connected: bool) {
    && f.clients == map[] && f.clientTree == f.pendingTree == {} && f.listeners == 0
    && Moving(f0, d0, f.(listeners := f0.listeners), d, connected)
  }

  /** source_move_clients */
  method MoveClients(from: Mount, dest: Mount)
    requires from.source.Valid() && dest.source.Valid()
    requires from.name != dest.name ==>
      from.source != dest.source && Side(from.source, dest.source)
      && from.source.clients.Keys !! dest.source.clients.Keys
    modifies from.source`mem, from.source`clients, from.source`clientTree, from.source`pendingTree,
      from.source`listeners,
      from.source.store
    modifies dest.source`mem, dest.source`clients, dest.source`pendingTree, dest`onDemandReq
    ensures from.source.Valid() && dest.source.Valid()
    ensures Refused(from, dest) ==>
      from.View() == old(from.View()) && dest.View() == old(dest.View())
      && from.source.store.cells == old(from.source.store.cells)
    ensures !Refused(from, dest) ==>
      && Side(from.source, dest.source) && Others(from.source, dest.source) == old(Others(from.source, dest.source))
      && Emptied(old(from.View()), old(dest.View()), from.View(), dest.View(), from.connected)
    ensures !Refused(from, dest) <==>
      from.name != dest.name && (dest.source.running || dest.onDemand) && (from.onDemand || from.format.Some?)
      && (from.format == None || dest.format == None || from.format == dest.format)
    ensures dest.onDemandReq ==
      (old(dest.onDemandReq) || (!Refused(from, dest) && !dest.source.running && old(from.source.clients) != map[]))
  {
    hide Inv, Emptied, Others;
    if from.name == dest.name || (!dest.source.running && !dest.onDemand) {
      return;
    }
    var count: nat := 0;
    if (from.onDemand || from.format.Some?)
       && !(from.format.Some? && dest.format.Some? && from.format != dest.format) {
      count := MoveAll(from, dest);
    }
    if !dest.source.running && dest.onDemand && count > 0 {
      dest.onDemandReq := true;
    }
  }

  // ----- source_clear_source

  /** Nobody is left, and the blocks from `k` on are all there is in memory. */
  ghost predicate Chain(v: Src, k: nat) {
    && k <= |v.blocks| && v.streamData == PtrAt(v, k)
    && (forall i {:trigger Linked(v, i)} :: k <= i < |v.blocks| ==> v.blocks[i].ptr != NULL && Linked(v, i))
    && (forall p :: p in v.mem ==>
          k <= v.mem[p].place < |v.blocks| && v.blocks[v.mem[p].place].ptr == p && v.mem[p].count > 0)
  }

  lemma ChainBegins(v: Src)
    requires Inv(v) && v.clientTree == v.pendingTree == {}
    ensures v.clients == map[] && Chain(v, v.head)
  {
    assert v.clients.Keys == {};
    forall p | p in v.mem
      ensures v.mem[p].place >= 0 && v.mem[p].count > 0
    {
      assert v.mem[p].count == Due(v, p);
      HoldersNone(v.clients, p);
    }
    forall i | v.head <= i < |v.blocks|
      ensures v.blocks[i].ptr != NULL
    {
      assert Linked(v, i);
    }
  }

  /** The first block is unlinked and gone. */
  lemma ChainNext(v: Src, v': Src, k: nat)
    requires Chain(v, k) && k < |v.blocks|
    requires v' == v.(mem := v.mem - {v.streamData}, streamData := PtrAt(v, k + 1))
    ensures Chain(v', k + 1)
  {
    hide Linked;
    ChainEnds(v, k);
    forall i | k + 1 <= i < |v'.blocks|
      ensures v'.blocks[i].ptr != NULL && Linked(v', i)
    {
      StillLinked(v, v', k, i);
    }
    OthersStay(v, v', k);
  }

  lemma OthersStay(v: Src, v': Src, k: nat)
    requires Chain(v, k) && k < |v.blocks| && v.streamData == v.blocks[k].ptr
    requires v'.mem == v.mem - {v.streamData} && v'.blocks == v.blocks
    ensures forall p :: p in v'.mem ==>
      k + 1 <= v'.mem[p].place < |v'.blocks| && v'.blocks[v'.mem[p].place].ptr == p && v'.mem[p].count > 0
  {
    hide Linked;
  }

  lemma StillLinked(v: Src, v': Src, k: nat, i: nat)
    requires Chain(v, k) && k < i < |v.blocks| && v.streamData in v.mem && v.mem[v.streamData].place == k
    requires v'.mem == v.mem - {v.streamData} && v'.blocks == v.blocks
    ensures v'.blocks[i].ptr != NULL && Linked(v', i)
  {
    assert Linked(v, i);
  }

  lemma ChainEnds(v: Src, k: nat)
    requires Chain(v, k)
    ensures k < |v.blocks| ==> v.streamData in v.mem && v.mem[v.streamData].place == k && v.mem[v.streamData].count > 0
    ensures v.streamData != NULL <==> k < |v.blocks|
    ensures v.streamData != NULL ==> v.mem[v.streamData].next == PtrAt(v, k + 1)
    ensures v.streamData == NULL ==> v.mem == map[]
  {
    if k < |v.blocks| {
      assert Linked(v, k);
    } else {
      assert v.mem.Keys == {};
    }
  }

  /** Every reference to the block is given up; the last one frees it. */
  method ReleaseAll(s: S.Source, p: Ptr)
    requires s.Owns() && p in s.mem && s.mem[p].count > 0
    modifies s`mem, s.store
    ensures s.Owns() && s.Rest() == old(s.Rest()) && s.mem == old(s.mem) - {p}
  {
    ghost var mem0 := s.mem;
    while s.store.cells[p].count > 1
      invariant s.Owns() && s.Rest() == old(s.Rest())
      invariant p in s.mem && s.mem[p].count > 0 && s.mem - {p} == mem0 - {p}
      decreases s.mem[p].count
    {
      s.LetGo(p);
    }
    s.LetGo(p);
  }

  /** The queue is freed block by block, whatever references the burst window has left. */
  method FreeQueue(s: S.Source, ghost first: nat)
    requires s.Owns() && Chain(s.View(), first)
    modifies s`mem, s`streamData, s.store
    ensures s.Owns() && s.Rest() == old(s.Rest()) && s.streamData == NULL && s.mem == map[]
  {
    hide Chain;
    ghost var k := first;
    while s.streamData != NULL
      invariant s.Owns() && s.Rest() == old(s.Rest()) && Chain(s.View(), k)
      decreases |s.blocks| - k
    {
      ghost var v := s.View();
      ChainEnds(v, k);
      var p := s.streamData;
      var b := s.store.cells[p];
      s.streamData := b.next;
      s.Put(p, b.(next := NULL));
      ReleaseAll(s, p);
      assert s.mem == v.mem - {p};
      ChainNext(v, s.View(), k);
      k := k + 1;
    }
    ChainEnds(s.View(), k);
  }

  /** source_clear_source: all listeners go, then the whole queue. Nothing of the mount is left in memory, nothing is
      freed twice, and the mount is as good as new. */
  method ClearSource(s: S.Source)
    requires s.Valid()
    modifies s, s.store
    ensures s.Valid() && s.Rest() == old(s.Rest()) && s.mem == map[] && s.clients == map[] && s.listeners == 0
    ensures s.maxListeners == -1 && s.queueSizeLimit == s.burstSize == 0 && s.blocks == [] && s.streamData == NULL
    ensures !s.live
  {
    hide Inv, Chain;
    DropAll(s);
    ChainBegins(s.View());
    FreeQueue(s, s.head);
    Reset(s);
    s.Empty(s.View());
  }

  /** Both lists of listeners are emptied, the active ones first. */
  method DropAll(s: S.Source)
    requires s.Valid()
    modifies s, s.store
    ensures s.Valid() && s.Rest() == old(s.Rest()) && s.clientTree == s.pendingTree == {}
  {
    hide Inv;
    while s.clientTree != {}
      invariant s.Valid() && s.Rest() == old(s.Rest())
      decreases |s.clientTree|
    {
      var id :| id in s.clientTree;
      DropListener(s, id);
    }
    while s.pendingTree != {}
      invariant s.Valid() && s.Rest() == old(s.Rest()) && s.clientTree == {}
      decreases |s.pendingTree|
    {
      var id :| id in s.pendingTree;
      DropListener(s, id);
    }
  }

  /** The fields are set back. */
  method Reset(s: S.Source)
    modifies s
    ensures s.mem == old(s.mem) && s.View() ==
      old(s.View()).(streamDataTail := NULL, burstPoint := NULL, burstOffset := 0, queueSize := 0, listeners := 0,
                     live := false, blocks := [], head := 0, burst := 0)
    ensures s.maxListeners == -1 && s.queueSizeLimit == s.burstSize == 0
  {
    s.streamDataTail, s.burstPoint := NULL, NULL;
    s.burstSize, s.burstOffset, s.queueSize, s.queueSizeLimit := 0, 0, 0, 0;
    s.listeners, s.maxListeners, s.live := 0, -1, false;
    s.blocks, s.head, s.burst := [], 0, 0;
  }

  method DropListener(s: S.Source, id: nat)
    requires s.Valid() && (id in s.clientTree || id in s.pendingTree)
    modifies s, s.store
    ensures s.Valid() && s.Rest() == old(s.Rest()) && s.clientTree == old(s.clientTree) - {id}
    ensures s.pendingTree == old(s.pendingTree) - {id}
  {
    hide Inv;
    Known(s.View(), id);
    s.RemoveListener(id);
  }

  lemma Known(v: Src, id: nat)
    requires Inv(v) && (id in v.clientTree || id in v.pendingTree)
    ensures id in v.clients
  {
  }
}
