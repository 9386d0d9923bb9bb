/** All the mounts together, in one memory: listeners connect, are served, move between mounts and are dropped, in any
    order. */
module Server {
  import opened Bytes
  import opened Heap
  import opened QueueState
  import opened QueueSteps
  import opened Turns
  import opened QueueListeners
  import opened Moves
  import S = Source

  // ----- the mounts as values, in the memory they share

  /** The part of the memory that is the mount's is as the mount takes it to be. */
  ghost predicate Within(v: Src, cells: Memory) {
    forall p :: p in v.mem ==> p in cells && cells[p] == v.mem[p]
  }

  ghost predicate Apart(v: Src, w: Src) {
    v.clients.Keys !! w.clients.Keys && v.mem.Keys !! w.mem.Keys
  }

  ghost predicate Owned(views: map<string, Src>, p: Ptr) {
    exists k :: Owns(views, k, p)
  }

  predicate Owns(views: map<string, Src>, k: string, p: Ptr) {
    k in views && p in views[k].mem
  }

  ghost predicate AllRight(views: map<string, Src>, cells: Memory) {
    forall k :: k in views ==> Inv(views[k]) && Within(views[k], cells)
  }

  ghost predicate AllApart(views: map<string, Src>) {
    forall j, k :: j in views && k in views && j != k ==> Apart(views[j], views[k])
  }

  ghost predicate AllOwned(views: map<string, Src>, cells: Memory) {
    forall p :: p in cells ==> Owned(views, p)
  }

  /** Every mount is in order; no listener and no live address is on two of them; and all that is in memory belongs to
      one of them. */
  ghost predicate Whole(views: map<string, Src>, cells: Memory) {
    AllRight(views, cells) && AllApart(views) && AllOwned(views, cells)
  }

  /** No block on the queue is at this address. */
  ghost predicate NotQueued(v: Src, p: Ptr) {
    forall i :: v.head <= i < |v.blocks| ==> v.blocks[i].ptr != p
  }

  /** Conservation: a live listener is on one of the two lists of one mount. What it points at is live memory of that
      mount, of its queue if the listener is sent the stream, and neither memory nor queue of any other mount. */
  lemma OneHome(views: map<string, Src>, cells: Memory, id: nat, k: string)
    requires Whole(views, cells) && k in views && id in views[k].clients
    ensures var v := views[k]; var c := v.clients[id];
      && (id in v.clientTree <==> id !in v.pendingTree)
      && v.listeners == |v.clientTree|
      && (c.refbuf != NULL ==> c.refbuf in v.mem && c.refbuf in cells && cells[c.refbuf].count == Due(v, c.refbuf) > 0)
      && (c.check == AdvanceQueue ==>
            id in v.clientTree && exists i :: v.head <= i < |v.blocks| && c.refbuf == v.blocks[i].ptr)
    ensures forall j :: j in views && j != k ==>
      id !in views[j].clients && !Owns(views, j, views[k].clients[id].refbuf)
      && NotQueued(views[j], views[k].clients[id].refbuf)
  {
    hide Inv, Within, Owned;
    var v := views[k];
    var p := v.clients[id].refbuf;
    AtHome(v, cells, id);
    forall j | j in views && j != k
      ensures id !in views[j].clients && !Owns(views, j, p) && NotQueued(views[j], p)
    {
      assert Apart(views[j], v);
      NoNull(views[j]);
      QueueOwned(views[j], p);
    }
  }

  lemma AtHome(v: Src, cells: Memory, id: nat)
    requires Inv(v) && Within(v, cells) && id in v.clients
    ensures var c := v.clients[id];
      && (id in v.clientTree <==> id !in v.pendingTree)
      && v.listeners == |v.clientTree|
      && (c.refbuf != NULL ==> c.refbuf in v.mem && c.refbuf in cells && cells[c.refbuf].count == Due(v, c.refbuf) > 0)
      && (c.check == AdvanceQueue ==>
            id in v.clientTree && exists i :: v.head <= i < |v.blocks| && c.refbuf == v.blocks[i].ptr)
  {
    assert InOrder(v, v.clients[id], id in v.clientTree);
    if v.clients[id].refbuf != NULL {
      Alive(v, id);
    }
  }

  lemma NoNull(v: Src)
    requires Inv(v)
    ensures NULL !in v.mem
  {
  }

  lemma QueueOwned(v: Src, p: Ptr)
    requires Inv(v) && p !in v.mem
    ensures NotQueued(v, p)
  {
    forall i | v.head <= i < |v.blocks|
      ensures v.blocks[i].ptr != p
    {
      assert Linked(v, i);
    }
  }

  /** Each live address is a block on the queue of one mount, or the buffer of one listener of one mount. */
  lemma OneOwner(views: map<string, Src>, cells: Memory, p: Ptr) returns (k: string)
    requires Whole(views, cells) && p in cells
    ensures Owns(views, k, p) && forall j :: Owns(views, j, p) ==> j == k
    ensures if cells[p].place >= 0 then !NotQueued(views[k], p) else Holders(views[k].clients, p) == 1
  {
    hide Inv, Within, NotQueued;
    assert Owned(views, p);
    k :| Owns(views, k, p);
    forall j | Owns(views, j, p)
      ensures j == k
    {
      SameOwner(views, j, k, p);
    }
    BlockOrBuffer(views[k], cells, p);
  }

  lemma SameOwner(views: map<string, Src>, j: string, k: string, p: Ptr)
    requires AllApart(views) && Owns(views, j, p) && Owns(views, k, p)
    ensures j == k
  {
  }

  lemma BlockOrBuffer(v: Src, cells: Memory, p: Ptr)
    requires Inv(v) && Within(v, cells) && p in v.mem
    ensures p in cells
    ensures if cells[p].place >= 0 then !NotQueued(v, p) else Holders(v.clients, p) == 1
  {
    if v.mem[p].place >= 0 {
      assert Queued(v, p, v.mem[p].place);
    }
  }

  /** Only the mounts `ks` have changed. */
  predicate Changed(views: map<string, Src>, views': map<string, Src>, ks: set<string>) {
    views'.Keys == views.Keys + ks && forall j :: j in views && j !in ks ==> views'[j] == views[j]
  }

  /** One mount has changed, or is new, and of the memory only what is that mount's: the whole is in order again. */
  lemma OnlyThis(views: map<string, Src>, cells: Memory, k: string, views': map<string, Src>, cells': Memory)
    requires Whole(views, cells) && Changed(views, views', {k}) && Inv(views'[k]) && Within(views'[k], cells')
    requires cells' - views'[k].mem.Keys == cells - (if k in views then views[k].mem.Keys else {})
    requires forall j :: j in views && j != k ==> views[j].clients.Keys !! views'[k].clients.Keys
    ensures Whole(views', cells')
  {
    hide Inv, Within, AllOwned, AllRight;
    var mine := if k in views then views[k].mem.Keys else {};
    forall j | j in views && j != k
      ensures Within(views[j], cells') && Apart(views[j], views'[k])
    {
      AllWithin(views, cells, j);
      assert k in views ==> Apart(views[j], views[k]);
      StillThere(views[j], cells, cells', mine, views'[k].mem.Keys);
    }
    Parted(views, views', {k});
    Righted(views, cells, views', cells', {k});
    AllMine(views', k);
    assert forall p :: Owns(views, k, p) ==> p in mine;
    Covered(views, cells, {k}, views', cells', mine, views'[k].mem.Keys);
  }

  lemma AllMine(views: map<string, Src>, k: string)
    requires k in views
    ensures forall p :: p in views[k].mem.Keys ==> Owned(views, p)
  {
    forall p | p in views[k].mem.Keys
      ensures Owned(views, p)
    {
      assert Owns(views, k, p);
    }
  }

  /** The mounts that have changed are apart from the others and from each other, and so all of them are. */
  lemma Parted(views: map<string, Src>, views': map<string, Src>, ks: set<string>)
    requires AllApart(views) && Changed(views, views', ks)
    requires forall j, k :: j in views && j !in ks && k in ks ==> Apart(views[j], views'[k])
    requires forall j, k :: j in ks && k in ks && j != k ==> Apart(views'[j], views'[k])
    ensures AllApart(views')
  {
    hide Apart;
    forall j, k | j in views' && k in views' && j != k
      ensures Apart(views'[j], views'[k])
    {
      if j in ks && k !in ks {
        Symmetric(views[k], views'[j]);
      }
    }
  }

  lemma Righted(views: map<string, Src>, cells: Memory, views': map<string, Src>, cells': Memory, ks: set<string>)
    requires AllRight(views, cells) && Changed(views, views', ks)
    requires forall j :: j in views && j !in ks ==> Within(views[j], cells')
    requires forall k :: k in ks ==> Inv(views'[k]) && Within(views'[k], cells')
    ensures AllRight(views', cells')
  {
    hide Inv, Within;
  }

  lemma Symmetric(v: Src, w: Src)
    requires Apart(v, w)
    ensures Apart(w, v)
  {
  }

  lemma StillThere(w: Src, cells: Memory, cells': Memory, mine: set<Ptr>, mine': set<Ptr>)
    requires Within(w, cells) && w.mem.Keys !! mine && cells' - mine' == cells - mine
    ensures Within(w, cells') && w.mem.Keys !! mine'
  {
    forall p | p in w.mem
      ensures p in cells' && cells'[p] == w.mem[p] && p !in mine'
    {
      assert p in cells - mine;
      assert p in cells' - mine' && (cells' - mine')[p] == w.mem[p];
    }
  }

  lemma Covered(views: map<string, Src>, cells: Memory, ks: set<string>, views': map<string, Src>, cells': Memory,
                mine: set<Ptr>, mine': set<Ptr>)
    requires Changed(views, views', ks) && cells' - mine' == cells - mine
    requires AllOwned(views, cells)
    requires forall k, p :: k in ks && Owns(views, k, p) ==> p in mine
    requires forall p :: p in mine' ==> Owned(views', p)
    ensures AllOwned(views', cells')
  {
    forall p | p in cells'
      ensures Owned(views', p)
    {
      if p !in mine' {
        assert p in cells' - mine';
        assert Owned(views, p);
        var j :| Owns(views, j, p);
        assert Owns(views', j, p);
      }
    }
  }

  /** Two mounts have changed, and of the memory only what is theirs. */
  lemma OnlyThese(views: map<string, Src>, cells: Memory, j: string, k: string, views': map<string, Src>,
                  cells': Memory)
    requires Whole(views, cells) && j in views && k in views && j != k && Changed(views, views', {j, k})
    requires Inv(views'[j]) && Within(views'[j], cells') && Inv(views'[k]) && Within(views'[k], cells')
    requires Apart(views'[j], views'[k])
    requires cells' - views'[j].mem.Keys - views'[k].mem.Keys == cells - views[j].mem.Keys - views[k].mem.Keys
    requires views'[j].clients.Keys + views'[k].clients.Keys == views[j].clients.Keys + views[k].clients.Keys
    ensures Whole(views', cells')
  {
    hide Inv, Within, AllOwned, AllRight;
    var v, w := views'[j], views'[k];
    var mine, mine' := views[j].mem.Keys + views[k].mem.Keys, v.mem.Keys + w.mem.Keys;
    assert cells' - mine' == cells' - v.mem.Keys - w.mem.Keys;
    assert cells - mine == cells - views[j].mem.Keys - views[k].mem.Keys;
    forall i | i in views && i !in {j, k}
      ensures Within(views[i], cells') && Apart(views[i], v) && Apart(views[i], w)
    {
      AllWithin(views, cells, i);
      ThirdParty(views[i], views[j], views[k], v, w, cells, cells');
    }
    Symmetric(v, w);
    Parted(views, views', {j, k});
    Righted(views, cells, views', cells', {j, k});
    AllMine(views', j);
    AllMine(views', k);
    Covered(views, cells, {j, k}, views', cells', mine, mine');
  }

  lemma AllWithin(views: map<string, Src>, cells: Memory, i: string)
    requires AllRight(views, cells) && i in views
    ensures Within(views[i], cells)
  {
    hide Inv;
  }

  /** A mount that has nothing to do with it. */
  lemma ThirdParty(u: Src, v0: Src, w0: Src, v: Src, w: Src, cells: Memory, cells': Memory)
    requires Within(u, cells) && Apart(u, v0) && Apart(u, w0)
    requires cells' - (v.mem.Keys + w.mem.Keys) == cells - (v0.mem.Keys + w0.mem.Keys)
    requires v.clients.Keys + w.clients.Keys == v0.clients.Keys + w0.clients.Keys
    ensures Within(u, cells') && Apart(u, v) && Apart(u, w)
  {
    hide Within;
    StillThere(u, cells, cells', v0.mem.Keys + w0.mem.Keys, v.mem.Keys + w.mem.Keys);
    Elsewhere(u.clients.Keys, v.clients.Keys, w.clients.Keys, v0.clients.Keys, w0.clients.Keys);
  }

  lemma Elsewhere(a: set<nat>, v: set<nat>, w: set<nat>, v0: set<nat>, w0: set<nat>)
    requires a !! v0 && a !! w0 && v + w == v0 + w0
    ensures a !! v && a !! w
  {
    forall x | x in a
      ensures x !in v && x !in w
    {
      assert x !in v0 + w0;
    }
  }

  // ----- steps of the server

  /** Every listener that is on the same mount before and after is sent on where it was. */
  ghost predicate StepKeeps(views: map<string, Src>, views': map<string, Src>) {
    forall k, id {:trigger Kept(views[k], views'[k], id)} ::
      k in views && k in views' && id in views[k].clients && id in views'[k].clients ==> Kept(views[k], views'[k], id)
  }

  ghost predicate StepAt(trace: seq<map<string, Src>>, i: nat)
    requires i + 1 < |trace|
  {
    StepKeeps(trace[i], trace[i + 1])
  }

  ghost predicate AllKept(trace: seq<map<string, Src>>) {
    forall i {:trigger StepAt(trace, i)} :: 0 <= i < |trace| - 1 ==> StepAt(trace, i)
  }

  lemma AllKeptOn(trace: seq<map<string, Src>>, views: map<string, Src>)
    requires AllKept(trace) && trace != [] && StepKeeps(trace[|trace| - 1], views)
    ensures AllKept(trace + [views])
  {
    hide StepKeeps;
    var all := trace + [views];
    forall i: nat | i < |all| - 1
      ensures StepAt(all, i)
    {
      assert i < |trace| - 1 ==> StepAt(trace, i);
    }
  }

  lemma StepGives(views: map<string, Src>, views': map<string, Src>, k: string, id: nat)
    requires StepKeeps(views, views') && k in views && k in views'
    requires id in views[k].clients && id in views'[k].clients
    ensures Kept(views[k], views'[k], id)
  {
  }

  lemma SelfKept(v: Src, id: nat)
    requires id in v.clients
    ensures Kept(v, v, id)
  {
  }

  lemma StepOf(views: map<string, Src>, views': map<string, Src>, ks: set<string>)
    requires Changed(views, views', ks)
    requires forall k, id :: k in ks && k in views && id in views[k].clients && id in views'[k].clients ==>
      Kept(views[k], views'[k], id)
    ensures StepKeeps(views, views')
  {
    hide Kept;
    forall k, id | k in views && k in views' && id in views[k].clients && id in views'[k].clients
      ensures Kept(views[k], views'[k], id)
    {
      if k !in ks {
        SelfKept(views[k], id);
      }
    }
  }

  /** The listener `id` is new, and nothing else has changed. */
  ghost predicate Came(v: Src, v': Src, id: nat) {
    && v' == v.(mem := v'.mem, clients := v'.clients, pendingTree := v.pendingTree + {id})
    && v'.clients.Keys == v.clients.Keys + {id} && id !in v.clients
    && (forall d :: d in v.clients ==> v'.clients[d] == v.clients[d])
    && (forall p :: p in v.mem ==> p in v'.mem && v'.mem[p] == v.mem[p])
    && var c := v'.clients[id];
    && c == Client(HttpBuffer, c.refbuf, 0, 0, 0, false, 0, [])
    && c.refbuf !in v.mem && v'.mem == v.mem[c.refbuf := PrivateBuf(4096)]
  }

  lemma CameKept(v: Src, v': Src, id: nat, d: nat)
    requires Came(v, v', id) && d in v.clients && d in v'.clients
    ensures Kept(v, v', d)
  {
  }

  /** The two mounts together have the listeners they had. */
  ghost predicate SameListeners(views: map<string, Src>, views': map<string, Src>, j: string, k: string) {
    && j in views && k in views && j in views' && k in views'
    && views'[j].clients.Keys + views'[k].clients.Keys == views[j].clients.Keys + views[k].clients.Keys
  }

  lemma MovedKept(f0: Src, d0: Src, f: Src, d: Src, connected: bool, id: nat)
    requires Emptied(f0, d0, f, d, connected)
    ensures id !in f.clients && (id in d0.clients ==> Kept(d0, d, id))
  {
  }

  /** The mount at the calls from `from` on. */
  ghost function Since(trace: seq<map<string, Src>>, k: string, from: nat): (vs: seq<Src>)
    requires from < |trace| && forall i :: from <= i < |trace| ==> k in trace[i]
  {
    seq(|trace| - from, i requires 0 <= i < |trace| - from => trace[from + i][k])
  }

  lemma StayedSince(trace: seq<map<string, Src>>, k: string, from: nat, id: nat)
    requires AllKept(trace) && from < |trace|
    requires forall i :: from <= i < |trace| ==> k in trace[i] && id in trace[i][k].clients
    ensures Stayed(Since(trace, k, from), id)
  {
    hide StepKeeps, Kept;
    var vs := Since(trace, k, from);
    forall i: nat | i < |vs| - 1
      ensures KeptAt(vs, i, id)
    {
      assert StepAt(trace, from + i);
      StepGives(trace[from + i], trace[from + i + 1], k, id);
    }
  }

  // ----- the server

  /** Every mount is registered under its name, has its own source, and uses the memory of the server. */
  ghost predicate AllRegistered(mounts: map<string, Mount>, store: S.Store) {
    && (forall k :: k in mounts ==> mounts[k].name == k && mounts[k].source.store == store)
    && (forall j, k :: j in mounts && k in mounts && j != k ==> mounts[j].source != mounts[k].source)
  }

  lemma RegisterOne(mounts: map<string, Mount>, store: S.Store, k: string, m: Mount)
    requires AllRegistered(mounts, store) && m.name == k && m.source.store == store
    requires forall j :: j in mounts ==> mounts[j].source != m.source
    ensures AllRegistered(mounts[k := m], store)
  {
  }

  class Server {
    const store: S.Store
    var mounts: map<string, Mount>

    // History: the mounts after each call so far.
    ghost var trace: seq<map<string, Src>>

    constructor ()
      ensures Valid() && mounts == map[] && fresh(store) && trace == [map[]]
    {
      store := new S.Store();
      mounts := map[];
      trace := [map[]];
    }

    ghost function Sources(): set<object>
      reads this`mounts
    {
      set k | k in mounts :: mounts[k].source
    }

    ghost function Views(): map<string, Src>
      reads this`mounts, Sources()
    {
      map k | k in mounts :: mounts[k].source.View()
    }

    ghost predicate Registered()
      reads this`mounts
    {
      AllRegistered(mounts, store)
    }

    ghost predicate Orderly()
      reads this`mounts, Sources(), store
    {
      Registered() && Whole(Views(), store.cells)
    }

    /** All is in order, and has been kept up from call to call. */
    ghost predicate Valid()
      reads this, Sources(), store
    {
      Orderly() && trace != [] && trace[|trace| - 1] == Views() && AllKept(trace)
    }

    /** The call that changed the mounts goes on record. */
    ghost method Record()
      requires Orderly() && trace != [] && AllKept(trace) && StepKeeps(trace[|trace| - 1], Views())
      modifies this`trace
      ensures Valid() && trace == old(trace) + [Views()]
    {
      hide Whole, StepKeeps, AllKept;
      ghost var views := Views();
      AllKeptOn(trace, views);
      trace := trace + [views];
      assert Views() == views;
    }

    lemma MountValid(k: string)
      requires Orderly() && k in mounts
      ensures mounts[k].source.Valid() && mounts[k].name == k && mounts[k].source.store == store
    {
      var v := Views()[k];
      assert Inv(v) && Within(v, store.cells);
    }

    lemma TwoMounts(j: string, k: string)
      requires Orderly() && j in mounts && k in mounts && j != k
      ensures mounts[j].source.Valid() && mounts[k].source.Valid() && Side(mounts[j].source, mounts[k].source)
      ensures mounts[j].source.clients.Keys !! mounts[k].source.clients.Keys
      ensures mounts[j].name == j && mounts[k].name == k && mounts[j].source != mounts[k].source
      ensures Others(mounts[j].source, mounts[k].source) == store.cells - Views()[j].mem.Keys - Views()[k].mem.Keys
    {
      MountValid(j);
      MountValid(k);
      assert Apart(Views()[j], Views()[k]);
    }

    lemma NoneShared(j: string, k: string)
      requires Registered() && j in mounts && k in mounts
      ensures forall i :: i in mounts && i !in {j, k} ==> mounts[i].source !in {mounts[j].source, mounts[k].source}
    {
    }

    twostate lemma Untouched(ks: set<string>)
      requires mounts == old(mounts) && ks <= mounts.Keys
      requires forall j :: j in mounts && j !in ks ==> unchanged(mounts[j].source)
      ensures Changed(old(Views()), Views(), ks)
    {
    }

    twostate lemma Entered(k: string)
      requires k in mounts && mounts.Keys == old(mounts.Keys) + {k} && k !in old(mounts)
      requires forall j :: j in old(mounts) ==> mounts[j] == old(mounts[j]) && unchanged(old(mounts[j].source))
      ensures Changed(old(Views()), Views(), {k})
    {
      forall j | j in old(mounts)
        ensures Views()[j] == old(Views())[j]
      {
        assert mounts[j].source.View() == old(mounts[j].source.View());
      }
    }

    lemma WithinOwn(k: string)
      requires k in mounts && mounts[k].source.Valid() && mounts[k].source.store == store
      ensures Inv(Views()[k]) && Within(Views()[k], store.cells)
      ensures mounts[k].source.Rest() == store.cells - Views()[k].mem.Keys && Views()[k] == mounts[k].source.View()
    {
    }

    /** One mount has been at work on its own, and all is in order again. */
    lemma OneWorked(views: map<string, Src>, cells: Memory, k: string)
      requires Registered() && k in mounts && mounts[k].source.Valid() && Whole(views, cells) && k in views
      requires Changed(views, Views(), {k}) && mounts[k].source.Rest() == cells - views[k].mem.Keys
      requires forall j :: j in views && j != k ==> views[j].clients.Keys !! mounts[k].source.clients.Keys
      ensures Orderly()
    {
      hide Inv, Whole, Within, Registered;
      Here(k);
      WithinOwn(k);
      OnlyThis(views, cells, k, Views(), store.cells);
    }

    lemma Here(k: string)
      requires Registered() && k in mounts
      ensures mounts[k].source.store == store
    {
    }

    /** source_reserve: a mount comes into being, unless there is one of this name. */
    method Reserve(k: string) returns (done: bool)
      requires Valid()
      modifies this`mounts, this`trace
      ensures Valid() && mounts.Keys == old(mounts.Keys) + {k} && (done <==> k !in old(mounts))
      ensures forall j :: j in old(mounts) ==> mounts[j] == old(mounts[j])
      ensures done ==> fresh(mounts[k]) && fresh(mounts[k].source) && mounts[k].source.clients == map[]
    {
      hide Inv, Whole, Within, AllKept, StepKeeps;
      if k in mounts {
        return false;
      }
      ghost var views := Views();
      var s := new S.Source(store);
      assert Views() == views;
      Enter(k, s, views);
      StepOf(views, Views(), {k});
      Record();
      done := true;
    }

    /** The new mount goes into the register. */
    method Enter(k: string, s: S.Source, ghost views: map<string, Src>)
      requires Orderly() && k !in mounts && views == Views() && s.Valid() && s.store == store
      requires forall j :: j in mounts ==> mounts[j].source != s
      requires s.clients == map[] && s.mem == map[]
      modifies this`mounts
      ensures Orderly() && mounts.Keys == old(mounts.Keys) + {k} && mounts[k].source == s && fresh(mounts[k])
      ensures Changed(views, Views(), {k})
      ensures forall j :: j in old(mounts) ==> mounts[j] == old(mounts[j])
    {
      hide Inv, Whole, Within;
      var m := new Mount(k, s);
      RegisterOne(mounts, store, k, m);
      mounts := mounts[k := m];
      Entered(k);
      WithinOwn(k);
      assert store.cells - Views()[k].mem.Keys == store.cells - {};
      OnlyThis(views, store.cells, k, Views(), store.cells);
    }

    /** A listener arrives on a mount, with a buffer of its own for the headers; nobody else is concerned. */
    method Connect(k: string, id: nat)
      requires Valid() && k in mounts && forall j :: j in mounts ==> id !in mounts[j].source.clients
      modifies mounts[k].source, store, this`trace
      ensures Valid() && mounts == old(mounts)
      ensures Came(old(mounts[k].source.View()), mounts[k].source.View(), id)
    {
      hide Inv, Whole, Within, Changed, AllKept, StepKeeps, Came, Kept;
      MountValid(k);
      ghost var views, cells := Views(), store.cells;
      OthersKeep(views, cells, k, id);
      Put(mounts[k].source, id);
      ghost var v, v' := views[k], mounts[k].source.View();
      CameKeys(v, v', id);
      Untouched({k});
      OneWorked(views, cells, k);
      forall d | d in v.clients && d in v'.clients
        ensures Kept(v, v', d)
      {
        CameKept(v, v', id, d);
      }
      StepOf(views, Views(), {k});
      Record();
    }

    lemma CameKeys(v: Src, v': Src, id: nat)
      requires Came(v, v', id)
      ensures v'.clients.Keys == v.clients.Keys + {id}
    {
    }

    /** The listener is put on the pending list of its mount. */
    method Put(s: S.Source, id: nat)
      requires s.Valid() && id !in s.clients
      modifies s, s.store
      ensures s.Valid() && s.Rest() == old(s.Rest()) && Came(old(s.View()), s.View(), id)
    {
      hide Inv;
      var p := s.Alloc();
      var c := Client(HttpBuffer, p, 0, 0, 0, false, 0, []);
      Arrives(s.View(), id, c, p);
      s.Put(p, PrivateBuf(4096));
      PutOn(s, id, c, PrivateBuf(4096));
    }

    lemma OthersKeep(views: map<string, Src>, cells: Memory, k: string, id: nat)
      requires Whole(views, cells) && k in views && forall j :: j in views ==> id !in views[j].clients
      ensures forall j :: j in views && j != k ==> views[j].clients.Keys !! views[k].clients.Keys + {id}
    {
      hide Inv, Within;
      forall j | j in views && j != k
        ensures views[j].clients.Keys !! views[k].clients.Keys + {id}
      {
        assert Apart(views[j], views[k]);
      }
    }

    lemma Arrives(v: Src, id: nat, c: Client, p: Ptr)
      requires Inv(v) && id !in v.clients && p !in v.mem && p != NULL
      requires c == Client(HttpBuffer, p, 0, 0, 0, false, 0, [])
      ensures Inv(Arrive(v, id, c, PrivateBuf(4096)))
    {
      ArriveKeeps(v, id, c, PrivateBuf(4096));
    }

    /** An iteration of one mount's loop. Who is on the mount afterwards is settled by what happens to its listeners
        (`world`), the place of each in the queue and the limit. */
    method Iterate(k: string, data: seq<byte>, sync: bool, received: bool, world: World)
      returns (ghost lasts: map<nat, Service>)
      requires Valid() && k in mounts
      modifies mounts[k].source, store, this`trace
      ensures Valid() && mounts == old(mounts)
      ensures var v0, s := old(mounts[k].source.View()), mounts[k].source;
        && Continues(v0, s.View())
        && Turnover(v0, s.View(), PtrAt(s.View(), v0.head), Total(s.blocks, v0.head) > s.queueSizeLimit,
                    s.maxListeners, world, lasts)
    {
      hide Inv, Whole, Turnover, Continues, Within, Changed, AllKept, StepKeeps, Kept;
      MountValid(k);
      ghost var views, cells := Views(), store.cells;
      lasts := mounts[k].source.Iterate(data, sync, received, world);
      ghost var v, v' := views[k], mounts[k].source.View();
      NoneElsewhere(views, cells, k, v');
      Untouched({k});
      OneWorked(views, cells, k);
      forall d | d in v.clients && d in v'.clients
        ensures Kept(v, v', d)
      {
        ContinuesKept(v, v', d);
      }
      StepOf(views, Views(), {k});
      Record();
    }

    lemma NoneElsewhere(views: map<string, Src>, cells: Memory, k: string, v: Src)
      requires Whole(views, cells) && k in views && Continues(views[k], v)
      ensures forall j :: j in views && j != k ==> views[j].clients.Keys !! v.clients.Keys
    {
      hide Inv, Within;
      forall j | j in views && j != k
        ensures views[j].clients.Keys !! v.clients.Keys
      {
        assert Apart(views[j], views[k]);
      }
    }

    /** Listeners are moved, as to a fallback mount and back: all those of the one mount are pending on the other, as
        they have to be there, or nothing changes. */
    method Move(j: string, k: string)
      requires Valid() && j in mounts && k in mounts
      modifies mounts[j].source, mounts[k].source, mounts[k], store, this`trace
      ensures Valid() && mounts == old(mounts)
      ensures if Refused(mounts[j], mounts[k]) then Views() == old(Views())
              else Emptied(old(mounts[j].source.View()), old(mounts[k].source.View()),
                           mounts[j].source.View(), mounts[k].source.View(), mounts[j].connected)
      ensures SameListeners(old(Views()), Views(), j, k)
    {
      hide SameListeners, AllRegistered, Inv, Whole, Emptied, Within, Changed, Side, Others, AllKept;
      ghost var views, cells := Views(), store.cells;
      Transfer(j, k);
      Close(views, cells, j, k);
    }

    /** The move itself, before it goes on record. */
    method Transfer(j: string, k: string)
      requires Orderly() && j in mounts && k in mounts
      modifies mounts[j].source, mounts[k].source, mounts[k], store
      ensures mounts == old(mounts) && mounts[j].source.Valid() && mounts[k].source.Valid()
      ensures Changed(old(Views()), Views(), {j, k}) && j in old(Views()) && k in old(Views())
      ensures Refused(mounts[j], mounts[k]) ==>
        && mounts[j].View() == old(Views())[j] && mounts[k].View() == old(Views())[k]
        && store.cells == old(store.cells)
      ensures !Refused(mounts[j], mounts[k]) ==>
        && j != k && Side(mounts[j].source, mounts[k].source)
        && Others(mounts[j].source, mounts[k].source)
           == old(store.cells) - old(Views())[j].mem.Keys - old(Views())[k].mem.Keys
        && Emptied(old(Views())[j], old(Views())[k], mounts[j].View(), mounts[k].View(), mounts[j].connected)
    {
      hide SameListeners, AllRegistered, Inv, Whole, Emptied, Within, Changed, Side, Others;
      MountValid(j);
      NoneShared(j, k);
      if j != k {
        TwoMounts(j, k);
      }
      MoveClients(mounts[j], mounts[k]);
      Untouched({j, k});
    }

    /** A move has been tried, and what there is goes on record. */
    ghost method Close(views: map<string, Src>, cells: Memory, j: string, k: string)
      requires Registered() && j in mounts && k in mounts && Whole(views, cells) && j in views && k in views
      requires mounts[j].source.Valid() && mounts[k].source.Valid()
      requires trace != [] && trace[|trace| - 1] == views && AllKept(trace) && Changed(views, Views(), {j, k})
      requires Refused(mounts[j], mounts[k]) ==>
        mounts[j].View() == views[j] && mounts[k].View() == views[k] && store.cells == cells
      requires !Refused(mounts[j], mounts[k]) ==>
        && j != k && Side(mounts[j].source, mounts[k].source)
        && Others(mounts[j].source, mounts[k].source) == cells - views[j].mem.Keys - views[k].mem.Keys
        && Emptied(views[j], views[k], mounts[j].View(), mounts[k].View(), mounts[j].connected)
      modifies this`trace
      ensures Valid() && SameListeners(views, Views(), j, k)
      ensures Views() == old(Views()) && (Refused(mounts[j], mounts[k]) ==> Views() == views)
    {
      hide Inv, Whole, Emptied, Within, Changed, Side, Others, AllKept, StepKeeps, SameListeners;
      if Refused(mounts[j], mounts[k]) {
        NothingDone(views, j, k);
      } else {
        Settle(views, cells, j, k);
      }
    }

    /** A move has taken place: all is in order again, and it goes on record. */
    ghost method Settle(views: map<string, Src>, cells: Memory, j: string, k: string)
      requires Registered() && j in mounts && k in mounts && j != k && Whole(views, cells) && j in views && k in views
      requires mounts[j].source.Valid() && mounts[k].source.Valid() && Side(mounts[j].source, mounts[k].source)
      requires Changed(views, Views(), {j, k})
      requires Others(mounts[j].source, mounts[k].source) == cells - views[j].mem.Keys - views[k].mem.Keys
      requires Emptied(views[j], views[k], mounts[j].source.View(), mounts[k].source.View(), mounts[j].connected)
      requires trace != [] && trace[|trace| - 1] == views && AllKept(trace)
      modifies this`trace
      ensures Valid() && SameListeners(views, Views(), j, k)
    {
      hide Inv, Whole, Emptied, Within, Changed, Side, Others, AllKept, StepKeeps, Kept;
      AllThere(views[j], views[k], mounts[j].source.View(), mounts[k].source.View(), mounts[j].connected);
      TwoWorked(views, cells, j, k);
      MoveKeeps(views, Views(), j, k, mounts[j].connected);
      Record();
    }

    lemma NothingDone(views: map<string, Src>, j: string, k: string)
      requires Changed(views, Views(), {j, k})
      requires j in mounts && k in mounts && j in views && k in views
      requires mounts[j].View() == views[j] && mounts[k].View() == views[k]
      ensures Views() == views && SameListeners(views, Views(), j, k)
    {
    }

    lemma MoveKeeps(views: map<string, Src>, views': map<string, Src>, j: string, k: string, connected: bool)
      requires Changed(views, views', {j, k}) && j in views && k in views && j != k
      requires Emptied(views[j], views[k], views'[j], views'[k], connected)
      ensures StepKeeps(views, views')
    {
      hide Emptied, Kept;
      forall i, id | i in {j, k} && i in views && id in views[i].clients && id in views'[i].clients
        ensures Kept(views[i], views'[i], id)
      {
        MovedKept(views[j], views[k], views'[j], views'[k], connected, id);
      }
      StepOf(views, views', {j, k});
    }

    /** A move between two mounts is over, and all is in order again. */
    lemma TwoWorked(views: map<string, Src>, cells: Memory, j: string, k: string)
      requires Registered() && j in mounts && k in mounts && j != k && Whole(views, cells) && j in views && k in views
      requires mounts[j].source.Valid() && mounts[k].source.Valid() && Side(mounts[j].source, mounts[k].source)
      requires Changed(views, Views(), {j, k})
      requires Others(mounts[j].source, mounts[k].source) == cells - views[j].mem.Keys - views[k].mem.Keys
      requires mounts[j].source.clients.Keys == {}
      requires mounts[k].source.clients.Keys == views[j].clients.Keys + views[k].clients.Keys
      ensures Orderly()
    {
      hide Inv, Whole, Within, Registered;
      Here(j);
      Here(k);
      WithinOwn(j);
      WithinOwn(k);
      OnlyThese(views, cells, j, k, Views(), store.cells);
    }

    lemma AllThere(f0: Src, d0: Src, f: Src, d: Src, connected: bool)
      requires Emptied(f0, d0, f, d, connected)
      ensures f.clients.Keys == {} && d.clients.Keys == f0.clients.Keys + d0.clients.Keys
      ensures d.clientTree == d0.clientTree
    {
    }

    /** A mount is cleared: what it had in memory is free. */
    method Clear(k: string)
      requires Valid() && k in mounts
      modifies mounts[k].source, store, this`trace
      ensures Valid() && mounts == old(mounts) && mounts[k].source.clients == map[]
      ensures store.cells == old(store.cells) - old(Views())[k].mem.Keys
    {
      hide Inv, Whole, Within, Changed, AllKept, StepKeeps, Kept;
      MountValid(k);
      ghost var views, cells := Views(), store.cells;
      var s := mounts[k].source;
      ClearSource(s);
      assert store.cells - s.mem.Keys == store.cells;
      Untouched({k});
      OneWorked(views, cells, k);
      StepOf(views, Views(), {k});
      Record();
    }

    /** Delivery, after any calls in any order: a listener that has been on its mount since call `from`, and that is on
        the queue, has been sent one stretch of the stream, from the sync point it joined at, which was no older than
        the burst point then; and what it had been sent at any time before is a beginning of it. */
    lemma Delivered(k: string, id: nat, from: nat)
      requires Valid() && from < |trace|
      requires forall i :: from <= i < |trace| ==> k in trace[i] && id in trace[i][k].clients
      ensures k in mounts && id in mounts[k].source.clients
      ensures var v := mounts[k].source.View(); var c := v.clients[id];
        c.check == AdvanceQueue ==>
          && c.refbuf in v.mem && 0 <= v.mem[c.refbuf].place < |v.blocks| && c.start <= v.mem[c.refbuf].place
          && v.blocks[c.start].sync && c.pos <= |v.blocks[v.mem[c.refbuf].place].data|
          && c.sent == Slice(v.blocks, c.start, v.mem[c.refbuf].place, c.pos)
      ensures forall i :: from <= i < |trace| && OnQueue(trace[i][k], id) ==>
        var c, c' := trace[i][k].clients[id], mounts[k].source.clients[id];
        c'.check == AdvanceQueue && c.start == c'.start && c.sent <= c'.sent
      ensures OnQueue(mounts[k].source.View(), id) && !OnQueue(trace[from][k], id) ==>
        exists j :: JoinsAt(Since(trace, k, from), j, id)
    {
      hide Inv, Whole, StepKeeps, Slice, Stayed, AllKept;
      var vs := Since(trace, k, from);
      var v := mounts[k].source.View();
      MountValid(k);
      assert vs[|vs| - 1] == v && vs[0] == trace[from][k];
      StayedSince(trace, k, from, id);
      QueueListeners.Delivery(vs, id);
      forall i | from <= i < |trace| && OnQueue(trace[i][k], id)
        ensures var c, c' := trace[i][k].clients[id], v.clients[id];
          c'.check == AdvanceQueue && c.start == c'.start && c.sent <= c'.sent
      {
        assert vs[i - from] == trace[i][k];
      }
    }
  }
}
