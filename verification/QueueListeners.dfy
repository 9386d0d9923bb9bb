/** What the phases of a listener do to the state, and why they keep it in order. */
module QueueListeners {
  import opened Bytes
  import opened Heap
  import opened QueueState
  import opened QueueSteps
  import opened Turns

  /** Only the listener `id` and memory it points at are concerned. */
  ghost predicate Only(v: Src, v': Src, id: nat) {
    && v' == v.(mem := v'.mem, clients := v'.clients)
    && v'.clients.Keys == v.clients.Keys
    && forall d :: d in v.clients && d != id ==> v'.clients[d] == v.clients[d]
  }

  /** Once on the queue a listener stays, keeps its start, and what it has been sent only grows; it joins at a sync
      point no older than the burst point. */
  predicate Delivers(v: Src, c: Client, c': Client) {
    if c.check == AdvanceQueue then c'.check == AdvanceQueue && c'.start == c.start && c.sent <= c'.sent
    else c'.check == AdvanceQueue ==> v.burst <= c'.start
  }

  /** What a call on behalf of listener `id` may do. */
  ghost predicate Went(v: Src, v': Src, id: nat) {
    id in v.clients && Only(v, v', id) && Delivers(v, v.clients[id], v'.clients[id])
  }

  lemma Concerns(v: Src, id: nat, mem: Memory, c: Client)
    requires id in v.clients && Delivers(v, v.clients[id], c)
    ensures Went(v, v.(mem := mem, clients := v.clients[id := c]), id)
  {
  }

  lemma WentOn(v: Src, v1: Src, v2: Src, id: nat)
    requires Went(v, v1, id) && Went(v1, v2, id)
    ensures Went(v, v2, id)
  {
  }

  /** Block `j`, at `b`, is on the queue. */
  predicate IsBlock(v: Src, b: Ptr, j: nat) {
    v.head <= j < |v.blocks| && Linked(v, j) && b == v.blocks[j].ptr
  }

  // ----- joining the queue

  /** client_set_queue and the fields find_client_start sets. */
  function Join(v: Src, id: nat, b: Ptr): Src
    requires id in v.clients && b in v.mem && v.clients[id].refbuf == NULL && v.mem[b].place >= 0
  {
    var v1 := SetQueue(v, id, b);
    Change(v1, id, v1.clients[id].(check := AdvanceQueue, introOffset := -1, start := v.mem[b].place, sent := []))
  }

  lemma JoinKeeps(v: Src, id: nat, b: Ptr, j: nat)
    requires Inv(v) && id in v.clientTree && v.clients[id].refbuf == NULL && IsBlock(v, b, j) && v.blocks[j].sync
    ensures id in v.clients && b in v.mem && v.mem[b].place == j
    ensures Inv(Join(v, id, b)) && (v.burst <= j ==> Went(v, Join(v, id, b), id))
  {
    assert InOrder(v, v.clients[id], true);
    SetQueueKeeps(v, id, b);
    var v1 := SetQueue(v, id, b);
    var c := v1.clients[id].(check := AdvanceQueue, introOffset := -1, start := j, sent := []);
    JoinedInOrder(v, v1, c, b, j);
    ChangeKeeps(v1, id, c);
    assert v.burst <= j ==> Went(v, Join(v, id, b), id) by {
      hide Inv, Only;
      if v.burst <= j {
        Overwritten(v.clients, id, v1.clients[id], c);
        Concerns(v, id, v1.mem, c);
      }
    }
  }

  lemma Overwritten(m: map<nat, Client>, id: nat, c: Client, c': Client)
    ensures m[id := c][id := c'] == m[id := c']
  {
  }

  lemma JoinedInOrder(v: Src, v1: Src, c: Client, b: Ptr, j: nat)
    requires IsBlock(v, b, j) && v.blocks[j].sync && Recounted(v.mem, v1.mem)
    requires v1.blocks == v.blocks && v1.head == v.head
    requires c.check == AdvanceQueue && c.respcode == 200 && c.refbuf == b && c.pos == 0 && c.start == j && c.sent == []
    ensures InOrder(v1, c, true)
  {
    assert Slice(v.blocks, j, j, 0) == [];
  }

  // ----- going on to the next block

  lemma NextKeeps(v: Src, id: nat, b: Ptr, j: nat)
    requires Inv(v) && id in v.clientTree && v.clients[id].check == AdvanceQueue && IsBlock(v, b, j) && j > 0
    requires var c := v.clients[id];
      c.refbuf in v.mem && v.mem[c.refbuf].place == j - 1 && c.pos == |v.blocks[j - 1].data|
    ensures v.mem[v.clients[id].refbuf].count > 0
    ensures Inv(SetQueue(v, id, b)) && Went(v, SetQueue(v, id, b), id)
  {
    assert InOrder(v, v.clients[id], true);
    SetQueueKeeps(v, id, b);
    var v1 := SetQueue(v, id, b);
    NextInOrder(v, v1, v.clients[id], b, j);
    SelfChange(v1, id);
    ChangeKeeps(v1, id, v1.clients[id]);
    assert Went(v, v1, id) by {
      hide Inv, Only;
      Concerns(v, id, v1.mem, v.clients[id].(refbuf := b, pos := 0));
    }
  }

  lemma SelfChange(v: Src, id: nat)
    requires id in v.clients
    ensures Change(v, id, v.clients[id]) == v
  {
    assert v.clients[id := v.clients[id]] == v.clients;
  }

  lemma NextInOrder(v: Src, v1: Src, c: Client, b: Ptr, j: nat)
    requires InOrder(v, c, true) && c.check == AdvanceQueue && v.mem[c.refbuf].place == j - 1 && IsBlock(v, b, j)
    requires c.pos == |v.blocks[j - 1].data|
    requires Recounted(v.mem, v1.mem) && v1.blocks == v.blocks && v1.head == v.head
    ensures InOrder(v1, c.(refbuf := b, pos := 0), true)
  {
    SliceNext(v.blocks, c.start, j - 1);
  }

  // ----- sending

  /** The first `n` of the bytes offered to the listener have been accepted. */
  function Accepted(mem: Memory, c: Client, n: nat): Client
    requires c.check == AdvanceQueue ==> c.refbuf in mem && c.pos + n <= |mem[c.refbuf].data|
  {
    if c.check == AdvanceQueue
    then c.(pos := c.pos + n, sent := c.sent + mem[c.refbuf].data[c.pos..c.pos + n])
    else c.(pos := c.pos + n)
  }

  lemma AcceptedKeeps(v: Src, id: nat, n: nat, error: bool)
    requires Inv(v) && id in v.clientTree && v.clients[id].refbuf in v.mem
    requires v.clients[id].pos + n <= v.mem[v.clients[id].refbuf].len && v.clients[id].respcode == 200
    ensures v.clients[id].check == AdvanceQueue ==> v.clients[id].pos + n <= |v.mem[v.clients[id].refbuf].data|
    ensures var c := Accepted(v.mem, v.clients[id], n);
      Inv(Change(v, id, c.(error := error))) && Went(v, Change(v, id, c.(error := error)), id)
  {
    var c := v.clients[id];
    assert InOrder(v, c, true);
    if c.check == AdvanceQueue {
      assert Linked(v, v.mem[c.refbuf].place);
    }
    AcceptedInOrder(v, c, n);
    PlainChangeKeeps(v, id, Accepted(v.mem, c, n).(error := error));
  }

  lemma AcceptedInOrder(v: Src, c: Client, n: nat)
    requires InOrder(v, c, true) && c.refbuf in v.mem && c.pos + n <= v.mem[c.refbuf].len && c.respcode == 200
    requires c.check == AdvanceQueue ==> Linked(v, v.mem[c.refbuf].place)
    ensures c.check == AdvanceQueue ==> c.pos + n <= |v.mem[c.refbuf].data|
    ensures InOrder(v, Accepted(v.mem, c, n), true)
  {
    if c.check == AdvanceQueue {
      SliceGrow(v.blocks, c.start, v.mem[c.refbuf].place, c.pos, n);
    }
  }

  // ----- a listener with a buffer of its own

  /** The buffer gets a new length and the listener changes along with it. */
  function Resize(v: Src, id: nat, n: nat, c: Client): Src
    requires id in v.clients && v.clients[id].refbuf in v.mem
  {
    Change(SetLen(v, v.clients[id].refbuf, n), id, c)
  }

  lemma ResizeKeeps(v: Src, id: nat, n: nat, c: Client)
    requires Inv(v) && id in v.clients && v.clients[id].refbuf in v.mem && v.mem[v.clients[id].refbuf].place < 0
    requires c.refbuf == v.clients[id].refbuf && c.check != AdvanceQueue && c.pos <= n && c.respcode == 200
    ensures Inv(Resize(v, id, n, c)) && Went(v, Resize(v, id, n, c), id)
  {
    SetLenKeeps(v, id, n);
    assert InOrder(v, v.clients[id], id in v.clientTree);
    ChangeKeeps(SetLen(v, c.refbuf, n), id, c);
    assert Went(v, Resize(v, id, n, c), id) by {
      hide Inv, Only;
      Concerns(v, id, SetLen(v, c.refbuf, n).mem, c);
    }
  }

  /** A listener found without a buffer is given one, as after a move to a mount without a source. */
  function Provide(v: Src, id: nat, p: Ptr, n: nat): Src
    requires id in v.clients
  {
    var v1 := NewBuffer(v, id, p, n);
    Change(v1, id, v1.clients[id].(pos := n, introOffset := 0))
  }

  lemma ProvideKeeps(v: Src, id: nat, p: Ptr, n: nat)
    requires Inv(v) && id in v.clients && v.clients[id].check == FileBuffer && v.clients[id].refbuf == NULL
    requires p !in v.mem && p != NULL
    ensures Inv(Provide(v, id, p, n)) && Went(v, Provide(v, id, p, n), id)
  {
    assert InOrder(v, v.clients[id], id in v.clientTree);
    NewBufferKeeps(v, id, p, n);
    var v1 := NewBuffer(v, id, p, n);
    ChangeKeeps(v1, id, v1.clients[id].(pos := n, introOffset := 0));
    assert Went(v, Provide(v, id, p, n), id) by {
      hide Inv, Only;
      var c := v1.clients[id].(pos := n, introOffset := 0);
      Overwritten(v.clients, id, v1.clients[id], c);
      Concerns(v, id, v1.mem, c);
    }
  }

  /** A listener that is not sending headers gives up what it points at. */
  lemma LetGoKeeps(v: Src, id: nat)
    requires Inv(v) && id in v.clients && v.clients[id].check == FileBuffer
    ensures v.clients[id].refbuf != NULL ==> v.clients[id].refbuf in v.mem && v.mem[v.clients[id].refbuf].count > 0
    ensures Inv(SetQueue(v, id, NULL)) && Went(v, SetQueue(v, id, NULL), id)
  {
    assert InOrder(v, v.clients[id], id in v.clientTree);
    SetQueueKeeps(v, id, NULL);
    var v1 := SetQueue(v, id, NULL);
    SelfChange(v1, id);
    ChangeKeeps(v1, id, v1.clients[id]);
    assert Went(v, v1, id) by {
      hide Inv, Only;
      Concerns(v, id, v1.mem, v1.clients[id]);
    }
  }

  /** Fields of a listener that have nothing to do with its buffer. */
  lemma PlainChangeKeeps(v: Src, id: nat, c: Client)
    requires Inv(v) && id in v.clients && InOrder(v, c, id in v.clientTree) && c.refbuf == v.clients[id].refbuf
    ensures Inv(Change(v, id, c)) && (Delivers(v, v.clients[id], c) ==> Went(v, Change(v, id, c), id))
  {
    hide InOrder, Listed, Counted, Measured, Delivers;
    ChangeKeeps(v, id, c);
  }

  lemma ErrorKeeps(v: Src, id: nat)
    requires Inv(v) && id in v.clients
    ensures var v' := Change(v, id, v.clients[id].(error := true)); Inv(v') && Went(v, v', id)
  {
    hide Listed, Counted, Measured, Only;
    assert InOrder(v, v.clients[id], id in v.clientTree);
    PlainChangeKeeps(v, id, v.clients[id].(error := true));
  }

  lemma OwnBuffer(v: Src, id: nat)
    requires Inv(v) && id in v.clientTree && v.clients[id].check != AdvanceQueue
    ensures id in v.clients && var c := v.clients[id];
      && (c.refbuf == NULL || (c.refbuf in v.mem && v.mem[c.refbuf].place == -1 && c.pos <= v.mem[c.refbuf].len))
      && (c.check == HttpBuffer ==> c.refbuf != NULL)
      && (c.respcode == 200 || (c.check == HttpBuffer && c.pos == 0 && (c.respcode == 0 || c.error)))
  {
    assert InOrder(v, v.clients[id], true);
  }

  lemma IntroAgain(v: Src, id: nat)
    requires Inv(v) && id in v.clientTree && v.clients[id].check == FileBuffer
    ensures id in v.clients
    ensures var v' := Change(v, id, v.clients[id].(introOffset := 0)); Inv(v') && Went(v, v', id)
  {
    assert InOrder(v, v.clients[id], true);
    PlainChangeKeeps(v, id, v.clients[id].(introOffset := 0));
  }

  lemma HeadersFail(v: Src, id: nat)
    requires Inv(v) && id in v.clients && v.clients[id].check == HttpBuffer && v.clients[id].respcode == 0
    ensures var v' := Change(v, id, v.clients[id].(error := true, respcode := 500)); Inv(v') && Went(v, v', id)
  {
    assert InOrder(v, v.clients[id], id in v.clientTree);
    PlainChangeKeeps(v, id, v.clients[id].(error := true, respcode := 500));
  }

  // ----- leaving

  /** A listener is deleted: what it points at is released and it is taken off its list. */
  function Remove(v: Src, id: nat): Src
    requires id in v.clients && (id in v.clientTree ==> v.listeners > 0)
    requires v.clients[id].refbuf == NULL || (v.clients[id].refbuf in v.mem && v.mem[v.clients[id].refbuf].count > 0)
  {
    Drop(SetQueue(v, id, NULL), id)
  }

  lemma RemoveKeeps(v: Src, id: nat)
    requires Inv(v) && id in v.clients
    ensures v.clients[id].refbuf != NULL ==> v.clients[id].refbuf in v.mem && v.mem[v.clients[id].refbuf].count > 0
    ensures id in v.clientTree ==> v.listeners > 0
    ensures Inv(Remove(v, id)) && Left(v, Remove(v, id), id)
  {
    SetQueueKeeps(v, id, NULL);
    DropKeeps(SetQueue(v, id, NULL), id);
    ElsewhereSame(v.clients, id, v.clients[id].(refbuf := NULL, pos := 0));
  }

  lemma ElsewhereSame(m: map<nat, Client>, id: nat, c: Client)
    ensures m[id := c] - {id} == m - {id}
  {
  }

  // ----- the pass over the listeners

  /** An active listener has had its turn and may stay: its connection lives, and if the head `h` of the queue is about
      to go (`over`) it does not point there. */
  predicate Stays(h: Ptr, c: Client, over: bool) {
    !c.error && (over && h != NULL ==> c.refbuf != h)
  }

  /** The listener has been sent what it takes, which left it as `last`, and is removed exactly if it may not stay. */
  ghost predicate Served(v: Src, v': Src, id: nat, last: Service, over: bool, world: World) {
    && id in v.clients && v'.pendingTree == v.pendingTree && v'.streamData == v.streamData
    && Delivers(v, v.clients[id], last.client) && Fated(StreamOf(v), world, id, v.clients[id], last)
    && (forall d :: d in v.clients && d != id ==> d in v'.clients && v'.clients[d] == v.clients[d])
    && if Stays(v.streamData, last.client, over) then
         v'.clientTree == v.clientTree && id in v'.clients && v'.clients[id] == last.client
       else
         v'.clientTree == v.clientTree - {id}
  }

  /** The listener is gone, the queue and the others are as they were. */
  ghost predicate Left(v: Src, v': Src, id: nat) {
    v' == v.(mem := v'.mem, clients := v.clients - {id}, clientTree := v.clientTree - {id},
             pendingTree := v.pendingTree - {id}, listeners := v'.listeners)
  }

  lemma StayStep(v: Src, v1: Src, id: nat, last: Service, over: bool, world: World)
    requires Went(v, v1, id) && Fated(StreamOf(v), world, id, v.clients[id], last)
    requires Delivers(v, v.clients[id], last.client)
    requires Stays(v.streamData, last.client, over) && v1.clients[id] == last.client
    ensures Served(v, v1, id, last, over, world)
  {
  }

  lemma RemoveStep(v: Src, v1: Src, v2: Src, id: nat, last: Service, over: bool, world: World)
    requires Went(v, v1, id) && Left(v1, v2, id) && id !in v.pendingTree
    requires Fated(StreamOf(v), world, id, v.clients[id], last) && Delivers(v, v.clients[id], last.client)
    requires !Stays(v.streamData, last.client, over)
    ensures Served(v, v2, id, last, over, world)
  {
    hide Fated, Stays;
    assert v.pendingTree - {id} == v.pendingTree;
  }

  /** Part of the way through the pass that began in `v0`; `todo` are the listeners still to come, `lasts` says how
      the others were left. */
  ghost predicate Passing(v0: Src, v: Src, todo: set<nat>, lasts: map<nat, Service>, over: bool,
                          world: World) {
    && todo <= v.clientTree <= v0.clientTree && v.pendingTree == v0.pendingTree
    && v.streamData == v0.streamData && StreamOf(v) == StreamOf(v0) && lasts.Keys == v0.clientTree - todo
    && (forall d :: d in v.clientTree ==> d in v.clients && d in v0.clients)
    && (forall d :: d in lasts ==> Passed(v0, v, d, lasts[d], over, world))
    && (forall d :: d in todo || d in v.pendingTree ==>
          d in v.clients && d in v0.clients && v.clients[d] == v0.clients[d])
  }

  /** A listener that has had its turn. */
  ghost predicate Passed(v0: Src, v: Src, d: nat, last: Service, over: bool, world: World) {
    && d in v0.clients && Delivers(v0, v0.clients[d], last.client) && Fated(StreamOf(v0), world, d, v0.clients[d], last)
    && (d in v.clientTree <==> Stays(v0.streamData, last.client, over))
    && (d in v.clientTree ==> d in v.clients && v.clients[d] == last.client)
  }

  lemma PassBegins(v: Src, over: bool, world: World)
    requires Inv(v)
    ensures Passing(v, v, v.clientTree, map[], over, world)
  {
    assert v.clientTree - v.clientTree == {};
  }

  lemma PassNext(v0: Src, v: Src, todo: set<nat>, lasts: map<nat, Service>, id: nat, over: bool,
                 world: World)
    requires Passing(v0, v, todo, lasts, over, world) && id in todo && Inv(v)
    ensures id in v.clientTree && id in v.clients && v.clientTree !! v.pendingTree
  {
  }

  lemma PassStep(v0: Src, v: Src, v': Src, todo: set<nat>, lasts: map<nat, Service>, id: nat, last: Service, over: bool,
                 world: World)
    requires Passing(v0, v, todo, lasts, over, world) && id in todo && Served(v, v', id, last, over, world)
    requires v.clientTree !! v.pendingTree && StreamOf(v') == StreamOf(v)
    ensures Passing(v0, v', todo - {id}, lasts[id := last], over, world)
  {
    hide Stays, Fated;
    var lasts' := lasts[id := last];
    assert lasts'.Keys == v0.clientTree - (todo - {id});
    assert Delivers(v0, v0.clients[id], last.client);
    forall d | d in lasts'
      ensures Passed(v0, v', d, lasts'[d], over, world)
    {
      if d != id {
        assert Passed(v0, v, d, lasts[d], over, world);
      }
    }
  }

  // ----- admission

  /** max_listeners, -1 for no limit, as it compares with the unsigned listener count. */
  predicate Full(listeners: nat, maxListeners: int) {
    maxListeners != -1 && listeners >= maxListeners % TWO_64
  }

  /** The listeners in `s` that connected before `d`: connections are numbered as they come. */
  function Earlier(s: set<nat>, d: nat): set<nat> {
    set e | e in s && e < d
  }

  /** With `active` listeners on the mount there is still room for the pending listener `d` after those before it. */
  predicate Welcome(active: nat, pending: set<nat>, d: nat, maxListeners: int) {
    !Full(active + |Earlier(pending, d)|, maxListeners)
  }

  /** Part of the way through the admission that began in `v0`; `todo` are the pending listeners still to come, in the
      order of their connection. Exactly those for which there is room are admitted; the active listeners are not
      concerned. */
  ghost predicate Admitting(v0: Src, v: Src, todo: set<nat>, maxListeners: int) {
    && v.pendingTree == todo <= v0.pendingTree
    && (forall d, e :: d in v0.pendingTree && d !in todo && e in todo ==> d < e)
    && (forall d :: d in v.clientTree <==>
          d in v0.clientTree
          || (d in v0.pendingTree && d !in todo && Welcome(v0.listeners, v0.pendingTree, d, maxListeners)))
    && (forall d :: d in v.clients ==> d in v0.clients && v.clients[d] == v0.clients[d])
    && Counting(v0, v, |v0.pendingTree - todo|, maxListeners)
  }

  /** So far everybody has been admitted, or there is no room left. */
  predicate Counting(v0: Src, v: Src, done: nat, maxListeners: int) {
    && v.listeners <= v0.listeners + done
    && (v.listeners == v0.listeners + done || Full(v.listeners, maxListeners))
    && (v.listeners > v0.listeners && maxListeners != -1 ==> v.listeners <= maxListeners % TWO_64)
    && v.listeners >= v0.listeners
  }

  /** One pending listener is admitted, or sent away if the mount is full. */
  ghost predicate Considered(v: Src, v': Src, id: nat, maxListeners: int) {
    if Full(v.listeners, maxListeners) then Left(v, v', id) else v' == Admit(v, id)
  }

  lemma PendingKnown(v: Src, id: nat)
    requires Inv(v) && id in v.pendingTree
    ensures id in v.clients && id !in v.clientTree
  {
  }

  lemma AdmissionBegins(v: Src, maxListeners: int)
    requires Inv(v)
    ensures Admitting(v, v, v.pendingTree, maxListeners)
  {
    assert v.pendingTree - v.pendingTree == {};
  }

  lemma AdmissionNext(v0: Src, v: Src, todo: set<nat>, id: nat, maxListeners: int)
    requires Admitting(v0, v, todo, maxListeners) && id in todo
    ensures id in v.pendingTree
  {
  }

  /** There is a first one. */
  lemma {:induction false} First(s: set<nat>) returns (id: nat)
    requires s != {}
    ensures id in s && forall e :: e in s ==> id <= e
    decreases |s|
  {
    id :| id in s;
    if s != {id} {
      var rest := s - {id};
      var other := First(rest);
      assert s == rest + {id};
      if other < id {
        id := other;
      }
    }
  }

  lemma ConsiderStep(v0: Src, v: Src, v': Src, todo: set<nat>, id: nat, maxListeners: int)
    requires Admitting(v0, v, todo, maxListeners) && id in todo && Considered(v, v', id, maxListeners)
    requires forall e :: e in todo ==> id <= e
    requires Inv(v0) && Inv(v) && Inv(v')
    ensures Admitting(v0, v', todo - {id}, maxListeners)
  {
    WelcomeNow(v0, v, todo, id, maxListeners);
    CountAfter(v, v', id, maxListeners);
    CountingOn(v0, v, v', todo, id, maxListeners);
    hide Welcome, Counting, Listed, Counted, Measured, InOrder;
    if Full(v.listeners, maxListeners) {
      RefuseStep(v0, v, v', todo, id, maxListeners);
    } else {
      AdmitStep(v0, v, v', todo, id, maxListeners);
    }
  }

  lemma AdmitStep(v0: Src, v: Src, v': Src, todo: set<nat>, id: nat, maxListeners: int)
    requires Admitting(v0, v, todo, maxListeners) && id in todo && v' == Admit(v, id)
    requires forall e :: e in todo ==> id <= e
    requires Welcome(v0.listeners, v0.pendingTree, id, maxListeners)
    requires Counting(v0, v', |v0.pendingTree - (todo - {id})|, maxListeners)
    ensures Admitting(v0, v', todo - {id}, maxListeners)
  {
    hide Welcome, Counting;
  }

  lemma RefuseStep(v0: Src, v: Src, v': Src, todo: set<nat>, id: nat, maxListeners: int)
    requires Admitting(v0, v, todo, maxListeners) && id in todo && Left(v, v', id)
    requires forall e :: e in todo ==> id <= e
    requires v.clientTree !! v.pendingTree && v0.clientTree !! v0.pendingTree
    requires !Welcome(v0.listeners, v0.pendingTree, id, maxListeners)
    requires Counting(v0, v', |v0.pendingTree - (todo - {id})|, maxListeners)
    ensures Admitting(v0, v', todo - {id}, maxListeners)
  {
    hide Welcome, Counting;
    assert v'.clientTree == v.clientTree;
  }

  lemma CountAfter(v: Src, v': Src, id: nat, maxListeners: int)
    requires Considered(v, v', id, maxListeners) && id in v.pendingTree && Inv(v) && Inv(v')
    ensures v'.listeners == v.listeners + if Full(v.listeners, maxListeners) then 0 else 1
  {
    hide Inv, Full;
    SameTrees(v);
    SameTrees(v');
    if Full(v.listeners, maxListeners) {
      assert v'.clientTree == v.clientTree;
    }
  }

  lemma WelcomeNow(v0: Src, v: Src, todo: set<nat>, id: nat, maxListeners: int)
    requires Admitting(v0, v, todo, maxListeners) && id in todo && forall e :: e in todo ==> id <= e
    ensures Full(v.listeners, maxListeners) <==> !Welcome(v0.listeners, v0.pendingTree, id, maxListeners)
  {
    assert Earlier(v0.pendingTree, id) == v0.pendingTree - todo;
  }

  lemma CountingOn(v0: Src, v: Src, v': Src, todo: set<nat>, id: nat, maxListeners: int)
    requires todo <= v0.pendingTree && id in todo && Counting(v0, v, |v0.pendingTree - todo|, maxListeners)
    requires v'.listeners == v.listeners + if Full(v.listeners, maxListeners) then 0 else 1
    ensures Counting(v0, v', |v0.pendingTree - (todo - {id})|, maxListeners)
  {
    assert v0.pendingTree - (todo - {id}) == (v0.pendingTree - todo) + {id};
  }

  // ----- slow listeners

  /** After a pass that was told the head is about to go, and admission, nobody points at the head. */
  lemma HeadUnheld(v0: Src, v1: Src, v2: Src, lasts: map<nat, Service>, maxListeners: int, world: World)
    requires Passing(v0, v1, {}, lasts, true, world) && Admitting(v1, v2, {}, maxListeners) && Inv(v1)
    requires v1.streamData != NULL && v2.streamData == v1.streamData
    ensures forall d :: d in v2.clients ==> v2.clients[d].refbuf != v2.streamData
  {
    hide Fated, Delivers, Welcome, Counting;
    assert Linked(v1, v1.head);
    forall d | d in v2.clients
      ensures v2.clients[d].refbuf != v2.streamData
    {
      assert InOrder(v1, v1.clients[d], d in v1.clientTree);
      if d in v1.clientTree {
        assert Passed(v0, v1, d, lasts[d], true, world);
      }
    }
  }

  /** A head block to which nobody points and which still cannot go is where the burst window starts. */
  lemma OnlyBurstHolds(v: Src)
    requires Inv(v) && v.streamData in v.mem && v.mem[v.streamData].count > 1
    requires forall d :: d in v.clients ==> v.clients[d].refbuf != v.streamData
    ensures v.head == v.burst
  {
    assert Linked(v, v.head);
    assert v.mem[v.streamData].count == Due(v, v.streamData);
    HoldersNone(v.clients, v.streamData);
  }

  /** The listeners now are among those before; one that was active has been served, or has joined the queue no
      earlier than the burst point, and one that was pending is as it was. */
  ghost predicate Continues(v0: Src, v: Src) {
    && v.clients.Keys <= v0.clients.Keys
    && forall d :: d in v.clients ==>
         if d in v0.clientTree then Delivers(v, v0.clients[d], v.clients[d]) else v.clients[d] == v0.clients[d]
  }

  /** The listeners left on the mount after the pass, given how each was left. */
  function Staying(lasts: map<nat, Service>, h: Ptr, over: bool): set<nat> {
    set d | d in lasts && Stays(h, lasts[d].client, over)
  }

  /** Who is on the mount after an iteration. Each active listener has been served and left as `lasts` says; it is gone
      exactly if its connection is done for or, with the queue overfull, it still points at the head `h`. Then the
      pending listeners come in, in the order of their connection, and a listener is turned away exactly if the mount
      is full by then. Nobody else is there, and nobody pending any longer. */
  ghost predicate Turnover(v0: Src, v: Src, h: Ptr, over: bool, maxListeners: int, world: World,
                           lasts: map<nat, Service>) {
    && lasts.Keys == v0.clientTree && v.pendingTree == {} && v.clients.Keys == v.clientTree
    && (forall d :: d in lasts ==>
          d in v0.clients && Delivers(v, v0.clients[d], lasts[d].client)
          && Fated(StreamOf(v), world, d, v0.clients[d], lasts[d]))
    && (forall d :: d in v.clientTree <==>
          d in Staying(lasts, h, over)
          || (d in v0.pendingTree && Welcome(|Staying(lasts, h, over)|, v0.pendingTree, d, maxListeners)))
    && (forall d :: d in v.clients && d in lasts ==> v.clients[d] == lasts[d].client)
    && (forall d :: d in v.clients && d in v0.pendingTree ==> d in v0.clients && v.clients[d] == v0.clients[d])
  }

  /** Pass and admission together. */
  lemma Conserved(v0: Src, v1: Src, v2: Src, lasts: map<nat, Service>, over: bool, maxListeners: int,
                  world: World)
    requires Passing(v0, v1, {}, lasts, over, world) && Admitting(v1, v2, {}, maxListeners)
    requires StreamOf(v2) == StreamOf(v1)
    requires Inv(v0) && Inv(v1) && Inv(v2)
    ensures Turnover(v0, v2, v0.streamData, over, maxListeners, world, lasts)
  {
    hide Inv, Passing, Stays, Fated, Welcome, Delivers, Staying, Counting, Full, Passed, Admitting, Turnover;
    PassOver(v0, v1, lasts, over, world);
    SameTrees(v1);
    SameTrees(v2);
    Admitted(v1, v2, maxListeners);
    AllPassed(v0, v1, v2, lasts, over, world);
    Combine(v0, v1, v2, lasts, over, maxListeners, world);
  }

  lemma Combine(v0: Src, v1: Src, v2: Src, lasts: map<nat, Service>, over: bool, maxListeners: int,
                world: World)
    requires v1.clientTree == Staying(lasts, v0.streamData, over) <= v0.clientTree == lasts.Keys
    requires v0.clientTree !! v0.pendingTree && v1.pendingTree == v0.pendingTree && v1.listeners == |v1.clientTree|
    requires v2.clients.Keys == v2.clientTree && v2.pendingTree == {}
    requires forall d :: d in v2.clientTree <==>
      d in v1.clientTree || (d in v1.pendingTree && Welcome(v1.listeners, v1.pendingTree, d, maxListeners))
    requires forall d :: d in v2.clients ==> d in v1.clients && v2.clients[d] == v1.clients[d]
    requires forall d :: d in v0.pendingTree ==> d in v1.clients && d in v0.clients && v1.clients[d] == v0.clients[d]
    requires forall d :: d in lasts ==>
      d in v0.clients && Delivers(v2, v0.clients[d], lasts[d].client)
      && Fated(StreamOf(v2), world, d, v0.clients[d], lasts[d])
    requires forall d :: d in lasts && d in v1.clientTree ==> d in v1.clients && v1.clients[d] == lasts[d].client
    ensures Turnover(v0, v2, v0.streamData, over, maxListeners, world, lasts)
  {
    hide Fated, Welcome, Delivers, Staying;
  }

  lemma AllPassed(v0: Src, v1: Src, v2: Src, lasts: map<nat, Service>, over: bool, world: World)
    requires forall d :: d in lasts ==> Passed(v0, v1, d, lasts[d], over, world)
    requires StreamOf(v2) == StreamOf(v0)
    ensures forall d :: d in lasts ==>
      d in v0.clients && Delivers(v2, v0.clients[d], lasts[d].client)
      && Fated(StreamOf(v2), world, d, v0.clients[d], lasts[d])
    ensures forall d :: d in lasts && d in v1.clientTree ==> d in v1.clients && v1.clients[d] == lasts[d].client
  {
    hide Fated, Delivers, Passed;
    forall d | d in lasts
      ensures d in v0.clients && Delivers(v2, v0.clients[d], lasts[d].client)
      ensures Fated(StreamOf(v2), world, d, v0.clients[d], lasts[d])
      ensures d in v1.clientTree ==> d in v1.clients && v1.clients[d] == lasts[d].client
    {
      PassedFacts(v0, v1, v2, d, lasts[d], over, world);
    }
  }

  /** Nobody is turned away while there is room: somebody is only if as many listeners as the limit allows are there. */
  lemma RoomUsed(v1: Src, v2: Src, maxListeners: int)
    requires Admitting(v1, v2, {}, maxListeners) && Inv(v1) && Inv(v2) && v1.pendingTree - v2.clientTree != {}
    ensures maxListeners != -1 && v2.listeners >= maxListeners % 0x1_0000_0000_0000_0000
  {
    hide Inv, Counting, Welcome, Full;
    SameTrees(v1);
    SameTrees(v2);
    var d :| d in v1.pendingTree - v2.clientTree;
    assert v2.clientTree <= v1.clientTree + v1.pendingTree - {d};
    Smaller(v2.clientTree, v1.clientTree + v1.pendingTree - {d});
    assert |v1.clientTree + v1.pendingTree| == |v1.clientTree| + |v1.pendingTree|;
    assert v1.pendingTree - {} == v1.pendingTree;
    FullByThen(v1, v2, maxListeners);
  }

  lemma FullByThen(v1: Src, v2: Src, maxListeners: int)
    requires Counting(v1, v2, |v1.pendingTree|, maxListeners) && v2.listeners < v1.listeners + |v1.pendingTree|
    ensures maxListeners != -1 && v2.listeners >= maxListeners % 0x1_0000_0000_0000_0000
  {
  }

  /** Nobody is let in beyond the limit. */
  lemma LimitKept(v0: Src, v1: Src, v2: Src, lasts: map<nat, Service>, over: bool, maxListeners: int,
                  world: World)
    requires Passing(v0, v1, {}, lasts, over, world) && Admitting(v1, v2, {}, maxListeners)
    requires Inv(v1) && Inv(v2)
    ensures v2.clientTree - v0.clientTree != {} && maxListeners != -1 ==> v2.listeners <= maxListeners % TWO_64
  {
    hide Inv, Passed, Counting, Welcome;
    CountOver(v1, v2, maxListeners);
  }

  lemma SameTrees(v: Src)
    requires Inv(v)
    ensures v.clients.Keys == v.clientTree + v.pendingTree && v.clientTree !! v.pendingTree
    ensures v.listeners == |v.clientTree|
  {
  }

  lemma PassOver(v0: Src, v1: Src, lasts: map<nat, Service>, over: bool, world: World)
    requires Passing(v0, v1, {}, lasts, over, world) && Inv(v0)
    ensures v1.clientTree == Staying(lasts, v0.streamData, over) <= v0.clientTree == lasts.Keys
    ensures forall d :: d in lasts ==> Passed(v0, v1, d, lasts[d], over, world)
    ensures v1.pendingTree == v0.pendingTree && v0.pendingTree !! v0.clientTree && StreamOf(v1) == StreamOf(v0)
    ensures forall d :: d in v0.pendingTree ==> d in v1.clients && d in v0.clients && v1.clients[d] == v0.clients[d]
  {
    hide Passed, Inv, Stays;
    SameTrees(v0);
    assert v0.clientTree - {} == v0.clientTree;
    WhoStays(v0, v1, lasts, over, world);
  }

  lemma WhoStays(v0: Src, v1: Src, lasts: map<nat, Service>, over: bool, world: World)
    requires v1.clientTree <= lasts.Keys && forall d :: d in lasts ==> Passed(v0, v1, d, lasts[d], over, world)
    ensures v1.clientTree == Staying(lasts, v0.streamData, over)
  {
    hide Passed, Stays;
    forall d | d in lasts
      ensures d in v1.clientTree <==> Stays(v0.streamData, lasts[d].client, over)
    {
      PassedStays(v0, v1, d, lasts[d], over, world);
    }
  }

  lemma PassedStays(v0: Src, v: Src, d: nat, last: Service, over: bool, world: World)
    requires Passed(v0, v, d, last, over, world)
    ensures d in v.clientTree <==> Stays(v0.streamData, last.client, over)
  {
  }

  lemma PassedFacts(v0: Src, v1: Src, v2: Src, d: nat, last: Service, over: bool, world: World)
    requires Passed(v0, v1, d, last, over, world) && StreamOf(v2) == StreamOf(v0)
    ensures d in v0.clients && Delivers(v2, v0.clients[d], last.client)
    ensures Fated(StreamOf(v2), world, d, v0.clients[d], last)
    ensures d in v1.clientTree ==> d in v1.clients && v1.clients[d] == last.client
  {
  }

  /** What admission has done. */
  lemma Admitted(v1: Src, v2: Src, maxListeners: int)
    requires Admitting(v1, v2, {}, maxListeners)
    ensures v2.pendingTree == {}
    ensures forall d :: d in v2.clientTree <==>
      d in v1.clientTree || (d in v1.pendingTree && Welcome(v1.listeners, v1.pendingTree, d, maxListeners))
    ensures forall d :: d in v2.clients ==> d in v1.clients && v2.clients[d] == v1.clients[d]
  {
    hide Welcome, Counting;
  }

  lemma CountOver(v1: Src, v2: Src, maxListeners: int)
    requires Admitting(v1, v2, {}, maxListeners) && Inv(v1) && Inv(v2)
    ensures v2.clientTree - v1.clientTree != {} && maxListeners != -1 ==> v2.listeners <= maxListeners % TWO_64
  {
    hide Inv, Full, Welcome, Counting;
    SameTrees(v1);
    SameTrees(v2);
    if v2.clientTree - v1.clientTree != {} && maxListeners != -1 {
      Larger(v1.clientTree, v2.clientTree);
      CountedUp(v1, v2, |v1.pendingTree - {}|, maxListeners);
    }
  }

  lemma CountedUp(v1: Src, v2: Src, done: nat, maxListeners: int)
    requires Counting(v1, v2, done, maxListeners) && v2.listeners > v1.listeners && maxListeners != -1
    ensures v2.listeners <= maxListeners % TWO_64
  {
  }

  lemma Larger(a: set<nat>, b: set<nat>)
    requires a < b
    ensures |a| < |b|
  {
    var x :| x in b && x !in a;
    assert a <= b - {x};
    Smaller(a, b - {x});
  }

  lemma {:induction false} Smaller(a: set<nat>, b: set<nat>)
    requires a <= b
    ensures |a| <= |b|
    decreases |a|
  {
    if a != {} {
      var x :| x in a;
      Smaller(a - {x}, b - {x});
    }
  }

  /** Hence the listeners now are among those before. */
  lemma TurnoverContinues(v0: Src, v: Src, h: Ptr, over: bool, maxListeners: int, world: World,
                          lasts: map<nat, Service>)
    requires Turnover(v0, v, h, over, maxListeners, world, lasts)
    requires v0.clients.Keys == v0.clientTree + v0.pendingTree && v0.clientTree !! v0.pendingTree
    ensures Continues(v0, v) && v.clientTree <= v0.clientTree + v0.pendingTree
  {
    hide Stays, Fated, Welcome;
  }

  /** A listener that is all right and to which nothing happens stays, unless it is behind by the whole queue. */
  lemma UntroubledStays(v0: Src, v: Src, h: Ptr, over: bool, maxListeners: int, world: World,
                        lasts: map<nat, Service>, id: nat)
    requires Turnover(v0, v, h, over, maxListeners, world, lasts) && id in v0.clientTree
    requires id in v0.clients && !v0.clients[id].error && !Troubled(world, id) && id !in v0.pendingTree
    ensures id in lasts && (id in v.clients <==> !over || h == NULL || lasts[id].client.refbuf != h)
  {
    assert id in lasts;
    ErrsIff(StreamOf(v), world, id, lasts[id]);
    HitTroubles(world, id, lasts[id].turns);
  }

  lemma SameWindow(v: Src, v': Src, c: Client, c': Client)
    requires v.burst == v'.burst && Delivers(v, c, c')
    ensures Delivers(v', c, c')
  {
  }

  // ----- delivery

  /** One step of whatever kind, after which the listener is still there. */
  ghost predicate Kept(v: Src, v': Src, id: nat) {
    id in v.clients && id in v'.clients && Delivers(v', v.clients[id], v'.clients[id])
  }

  ghost predicate KeptAt(vs: seq<Src>, i: nat, id: nat)
    requires i + 1 < |vs|
  {
    Kept(vs[i], vs[i + 1], id)
  }

  /** The listener has been on the mount all the time. */
  ghost predicate Stayed(vs: seq<Src>, id: nat) {
    && |vs| > 0 && (forall i :: 0 <= i < |vs| ==> id in vs[i].clients)
    && forall i {:trigger KeptAt(vs, i, id)} :: 0 <= i < |vs| - 1 ==> KeptAt(vs, i, id)
  }

  predicate OnQueue(v: Src, id: nat) {
    id in v.clients && v.clients[id].check == AdvanceQueue
  }

  /** At step `j` the listener joins the queue, no earlier in it than the burst point. */
  predicate JoinsAt(vs: seq<Src>, j: nat, id: nat) {
    && 0 < j < |vs| && !OnQueue(vs[j - 1], id) && OnQueue(vs[j], id)
    && vs[j].burst <= vs[j].clients[id].start
  }

  /** Over any number of steps, whatever they are: a listener that stays on the mount is, once on the queue, sent one
      stretch of the stream without a gap or repeat, from the sync point it joined at, which was no older than the
      burst point then; and what it has been sent is never sent again. */
  lemma Delivery(vs: seq<Src>, id: nat)
    requires Stayed(vs, id) && Inv(vs[|vs| - 1])
    ensures var v := vs[|vs| - 1]; var c := v.clients[id];
      c.check == AdvanceQueue ==>
        && c.refbuf in v.mem && 0 <= v.mem[c.refbuf].place < |v.blocks| && c.start <= v.mem[c.refbuf].place
        && v.blocks[c.start].sync && c.pos <= |v.blocks[v.mem[c.refbuf].place].data|
        && c.sent == Slice(v.blocks, c.start, v.mem[c.refbuf].place, c.pos)
    ensures forall i :: 0 <= i < |vs| && OnQueue(vs[i], id) ==>
      && OnQueue(vs[|vs| - 1], id)
      && vs[i].clients[id].start == vs[|vs| - 1].clients[id].start
      && vs[i].clients[id].sent <= vs[|vs| - 1].clients[id].sent
    ensures OnQueue(vs[|vs| - 1], id) && !OnQueue(vs[0], id) ==> exists j :: JoinsAt(vs, j, id)
  {
    hide Inv, InOrder, KeptAt, Slice;
    var v := vs[|vs| - 1];
    InSlice(v, id);
    forall i: nat | i < |vs| && OnQueue(vs[i], id)
      ensures OnQueue(v, id) && vs[i].clients[id].start == v.clients[id].start
      ensures vs[i].clients[id].sent <= v.clients[id].sent
    {
      StaysOn(vs, i, id);
    }
    if OnQueue(v, id) && !OnQueue(vs[0], id) {
      JoinedOnce(vs, |vs| - 1, id);
    }
  }

  lemma InSlice(v: Src, id: nat)
    requires Inv(v) && id in v.clients
    ensures var c := v.clients[id];
      c.check == AdvanceQueue ==>
        && c.refbuf in v.mem && 0 <= v.mem[c.refbuf].place < |v.blocks| && c.start <= v.mem[c.refbuf].place
        && v.blocks[c.start].sync && c.pos <= |v.blocks[v.mem[c.refbuf].place].data|
        && c.sent == Slice(v.blocks, c.start, v.mem[c.refbuf].place, c.pos)
  {
    assert InOrder(v, v.clients[id], id in v.clientTree);
  }

  lemma {:induction false} StaysOn(vs: seq<Src>, i: nat, id: nat)
    requires Stayed(vs, id) && i < |vs| && OnQueue(vs[i], id)
    ensures var v := vs[|vs| - 1];
      OnQueue(v, id) && vs[i].clients[id].start == v.clients[id].start && vs[i].clients[id].sent <= v.clients[id].sent
    decreases |vs| - i
  {
    if i < |vs| - 1 {
      assert KeptAt(vs, i, id);
      StaysOn(vs, i + 1, id);
    }
  }

  lemma {:induction false} JoinedOnce(vs: seq<Src>, i: nat, id: nat)
    requires Stayed(vs, id) && i < |vs| && OnQueue(vs[i], id) && !OnQueue(vs[0], id)
    ensures exists j :: JoinsAt(vs, j, id)
  {
    if OnQueue(vs[i - 1], id) {
      JoinedOnce(vs, i - 1, id);
    } else {
      assert KeptAt(vs, i - 1, id);
      assert JoinsAt(vs, i, id);
    }
  }

  /** An iteration is such a step for all who remain. */
  lemma ContinuesKept(v: Src, v': Src, id: nat)
    requires Continues(v, v') && id in v'.clients
    ensures Kept(v, v', id)
  {
  }
}
