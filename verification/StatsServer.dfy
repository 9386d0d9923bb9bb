/** The stats thread and the clients registered with it. */
module StatsServer {
  import opened Bytes
  import opened Stats

  /** event_listener_t: events waiting to be sent, and, as history, those sent before. */
  datatype Listener = Listener(id: nat, sent: seq<Event>, queue: seq<Event>)

  class Server {
    const dec: Decimal
    var globalTree: map<string, string>
    var sourceTree: map<string, map<string, string>>
    var globalQueue: seq<Event>
    var listeners: seq<Listener>

    ghost function View(): Values
      reads this
    {
      Values(globalTree, sourceTree)
    }

    ghost predicate Valid()
      reads this
    {
      forall i :: 0 <= i < |globalQueue| ==> Built(globalQueue[i])
    }

    /** Whatever a client has been sent and has still to be sent amounts to the current values. */
    ghost predicate AllInStep()
      reads this
    {
      forall i :: 0 <= i < |listeners| ==> Knows(listeners[i], View())
    }

    constructor (dec: Decimal)
      ensures Valid() && AllInStep() && this.dec == dec && listeners == []
      ensures globalQueue == [] && View() == Values(map[], map[])
    {
      this.dec := dec;
      globalTree, sourceTree, globalQueue, listeners := map[], map[], [], [];
    }

    /** queue_global_event */
    method QueueEvent(e: Event)
      requires Valid() && Built(e)
      modifies this`globalQueue
      ensures Valid() && globalQueue == old(globalQueue) + [e]
    {
      globalQueue := globalQueue + [e];
    }

    /** modify_node_event: the new value, which the event gets too if it has none. */
    method ModifyNode(value: string, event: Event) returns (value': string, event': Event)
      requires Built(event) && event.action != Remove
      ensures value' == Modified(dec, value, event) && event' == Filled(dec, value, event)
    {
      event' := event;
      if event.action != Set {
        var n := 0;
        match event.action {
          case Inc => n := dec.parse(value) + 1;
          case Dec => n := dec.parse(value) - 1;
          case Add => n := dec.parse(value) + dec.parse(event.value.value);
          case Sub => n := dec.parse(value) - dec.parse(event.value.value);
          case _ =>
        }
        value' := dec.show(n);
        if event.value == None {
          event' := event.(value := Some(value'));
        }
      } else {
        value' := event.value.value;
      }
    }

    /** process_global_event */
    method ProcessGlobalEvent(event: Event) returns (event': Event)
      requires Built(event) && event.source.None? && Possible(View(), event)
      modifies this`globalTree
      ensures Processed(View(), event') == ProcessGlobal(dec, old(View()), event)
    {
      event' := event;
      var name := event.name.value;
      if event.action == Remove {
        globalTree := globalTree - {name};
        return;
      }
      if name in globalTree {
        var value;
        value, event' := ModifyNode(globalTree[name], event);
        globalTree := globalTree[name := value];
      } else {
        globalTree := globalTree[name := event.value.value];
      }
    }

    /** process_source_event */
    method ProcessSourceEvent(event: Event) returns (event': Event)
      requires Built(event) && event.source.Some?
      modifies this`sourceTree
      ensures Processed(View(), event') == ProcessSource(dec, old(View()), event)
    {
      event' := event;
      var source := event.source.value;
      if source !in sourceTree {
        if event.action == Remove {
          return;
        }
        sourceTree := sourceTree[source := map[]];
      }
      var tree := sourceTree[source];
      if event.name.Some? {
        var name := event.name.value;
        if name !in tree {
          if event.action == Remove {
            assert tree - {name} == tree;
            assert sourceTree[source := tree] == sourceTree;
            return;
          }
          if event.value.Some? {
            sourceTree := sourceTree[source := tree[name := event.value.value]];
          }
          return;
        }
        if event.action == Remove {
          sourceTree := sourceTree[source := tree - {name}];
          return;
        }
        var value;
        value, event' := ModifyNode(tree[name], event);
        sourceTree := sourceTree[source := tree[name := value]];
        return;
      }
      if event.action == Remove {
        sourceTree := sourceTree - {source};
      }
    }

    /** One event in _stats_thread: it is worked into the values and a copy goes to every listener. One that was in step
        with the values stays so exactly if the event tells the new value. */
    method ThreadTurn()
      requires Valid() && globalQueue != [] && Possible(View(), globalQueue[0])
      modifies this
      ensures Valid() && globalQueue == old(globalQueue)[1..]
      ensures View() == Process(dec, old(View()), old(globalQueue)[0]).v
      ensures |listeners| == |old(listeners)|
      ensures forall i :: 0 <= i < |listeners| ==>
        listeners[i] == Queued(old(listeners)[i], Process(dec, old(View()), old(globalQueue)[0]).e)
      ensures forall i :: 0 <= i < |listeners| && Knows(old(listeners)[i], old(View())) ==>
        (Knows(listeners[i], View()) <==> Telling(dec, old(View()), old(globalQueue)[0]))
      ensures old(AllInStep()) ==>
        (AllInStep() <==> listeners == [] || Telling(dec, old(View()), old(globalQueue)[0]))
    {
      hide Knows;
      ghost var v := View();
      var event := globalQueue[0];
      globalQueue := globalQueue[1..];
      var event';
      if event.source.None? {
        event' := ProcessGlobalEvent(event);
      } else {
        event' := ProcessSourceEvent(event);
      }
      Distribute(event');
      forall i | 0 <= i < |listeners| && Knows(old(listeners)[i], v)
        ensures Knows(listeners[i], View()) <==> Telling(dec, v, event)
      {
        KnowsOn(dec, v, event, old(listeners)[i]);
      }
      if old(AllInStep()) && listeners != [] {
        assert Knows(old(listeners)[0], v);
      }
    }

    /** The event is put at the end of a listener's queue. */
    function Queued(l: Listener, e: Event): Listener {
      l.(queue := l.queue + [e])
    }

    /** The copies for the listeners. */
    method Distribute(copy: Event)
      modifies this`listeners
      ensures |listeners| == |old(listeners)|
      ensures forall i :: 0 <= i < |listeners| ==> listeners[i] == Queued(old(listeners)[i], copy)
    {
      var i := 0;
      while i < |listeners|
        invariant 0 <= i <= |listeners| == |old(listeners)|
        invariant forall k :: i <= k < |listeners| ==> listeners[k] == old(listeners)[k]
        invariant forall k :: 0 <= k < i ==> listeners[k] == Queued(old(listeners)[k], copy)
      {
        listeners := listeners[i := listeners[i].(queue := listeners[i].queue + [copy])];
        i := i + 1;
      }
    }

    /** _register_listener: all values first, as events, and all events from now on. */
    method RegisterListener(id: nat)
      modifies this`listeners
      ensures |listeners| == |old(listeners)| + 1 && listeners[0].id == id && listeners[0].sent == []
      ensures listeners[1..] == old(listeners) && Knows(listeners[0], View())
    {
      var queue := Snapshot();
      assert [] + queue == queue;
      listeners := [Listener(id, [], queue)] + listeners;
    }

    /** The events that give all the current values, in the order the trees are walked. */
    method Snapshot() returns (queue: seq<Event>)
      ensures InStep(View(), Replay(map[], queue))
    {
      hide Replay, InStep, Get, Only, Grown;
      NothingKnown();
      queue := SnapshotOf(None, globalTree, [], Values(map[], map[]));
      var todo := sourceTree.Keys;
      ghost var done: set<string> := {};
      OnlyGlobals(View());
      while todo != {}
        invariant done + todo == sourceTree.Keys && done !! todo
        invariant InStep(Only(View(), done), Replay(map[], queue))
        decreases |todo|
      {
        var source :| source in todo;
        OnlyWithout(View(), done, source);
        queue := SnapshotOf(Some(source), sourceTree[source], queue, Only(View(), done));
        OnlyMore(View(), done, source);
        todo := todo - {source};
        done := done + {source};
      }
      OnlyAll(View(), done);
    }

    /** The values of one tree, behind what is in the queue already. */
    method SnapshotOf(source: Option<string>, tree: map<string, string>, before: seq<Event>, ghost v: Values)
      returns (queue: seq<Event>)
      requires InStep(v, Replay(map[], before)) && forall name :: Get(v, source, name) == None
      ensures InStep(Grown(v, source, tree), Replay(map[], queue))
    {
      hide Replay, InStep, Get, Grown, Told;
      queue := before;
      var todo := tree.Keys;
      ghost var done: map<string, string> := map[];
      GrownNot(v, source, before);
      while todo != {}
        invariant done.Keys !! todo && done.Keys + todo == tree.Keys && forall n :: n in done ==> done[n] == tree[n]
        invariant InStep(Grown(v, source, done), Replay(map[], queue))
        decreases |todo|
      {
        var name :| name in todo;
        var event := Event(source, Some(name), Some(tree[name]), Set);
        ReplayOne(map[], queue, event);
        GrownOne(v, source, done, name, tree[name], Replay(map[], queue));
        queue := queue + [event];
        done := done[name := tree[name]];
        todo := todo - {name};
      }
      SameMap(done, tree);
    }

    /** A listener's connection is sent its next event. */
    method SendNext(i: nat)
      requires i < |listeners| && listeners[i].queue != []
      modifies this`listeners
      ensures |listeners| == |old(listeners)| && forall k :: 0 <= k < |listeners| && k != i ==>
        listeners[k] == old(listeners)[k]
      ensures listeners[i].sent == old(listeners)[i].sent + [old(listeners)[i].queue[0]]
      ensures Knows(listeners[i], View()) <==> Knows(old(listeners)[i], View())
    {
      var l := listeners[i];
      assert l.sent + l.queue == (l.sent + [l.queue[0]]) + l.queue[1..];
      listeners := listeners[i := l.(sent := l.sent + [l.queue[0]], queue := l.queue[1..])];
    }

    /** _unregister_listener */
    method UnregisterListener(i: nat)
      requires i < |listeners|
      modifies this`listeners
      ensures listeners == old(listeners)[..i] + old(listeners)[i + 1..]
    {
      listeners := listeners[..i] + listeners[i + 1..];
    }
  }

  // ----- what a listener knows

  ghost predicate Knows(l: Listener, v: Values) {
    InStep(v, Replay(map[], l.sent + l.queue))
  }

  lemma KnowsOn(d: Decimal, v: Values, e: Event, l: Listener)
    requires Built(e) && Possible(v, e) && Knows(l, v)
    ensures Knows(l.(queue := l.queue + [Process(d, v, e).e]), Process(d, v, e).v) <==> Telling(d, v, e)
  {
    hide InStep, Process, Telling;
    StaysInStep(d, v, Replay(map[], l.sent + l.queue), e);
    ReplayOne(map[], l.sent + l.queue, Process(d, v, e).e);
    assert l.sent + (l.queue + [Process(d, v, e).e]) == l.sent + l.queue + [Process(d, v, e).e];
  }

  // ----- parts of the values

  /** The global values and those of some sources. */
  ghost function Only(v: Values, sources: set<string>): Values {
    v.(sources := map s | s in v.sources && s in sources :: v.sources[s])
  }

  /** With the values of one tree added. */
  ghost function Grown(v: Values, source: Option<string>, tree: map<string, string>): Values {
    match source
    case None => v.(globals := v.globals + tree)
    case Some(s) => v.(sources := v.sources[s := if s in v.sources then v.sources[s] + tree else tree])
  }

  lemma SameMap(a: map<string, string>, b: map<string, string>)
    requires a.Keys == b.Keys && forall n :: n in a ==> a[n] == b[n]
    ensures a == b
  {
  }

  lemma OnlyGlobals(v: Values)
    ensures Only(v, {}) == Grown(Values(map[], map[]), None, v.globals)
  {
    assert map[] + v.globals == v.globals;
  }

  lemma OnlyAll(v: Values, sources: set<string>)
    requires sources == v.sources.Keys
    ensures Only(v, sources) == v
  {
  }

  lemma NothingKnown()
    ensures InStep(Values(map[], map[]), Replay(map[], [])) && forall n :: Get(Values(map[], map[]), None, n) == None
  {
  }

  lemma OnlyWithout(v: Values, sources: set<string>, s: string)
    requires s !in sources
    ensures forall n :: Get(Only(v, sources), Some(s), n) == None
  {
  }

  lemma OnlyMore(v: Values, sources: set<string>, s: string)
    requires s in v.sources && s !in sources
    ensures Grown(Only(v, sources), Some(s), v.sources[s]) == Only(v, sources + {s})
  {
  }

  lemma GrownNot(v: Values, source: Option<string>, queue: seq<Event>)
    requires InStep(v, Replay(map[], queue))
    ensures InStep(Grown(v, source, map[]), Replay(map[], queue))
  {
    forall s, n
      ensures Get(Grown(v, source, map[]), s, n) == Get(v, s, n)
    {
    }
  }

  lemma GrownOne(v: Values, source: Option<string>, done: map<string, string>, name: string, value: string, m: Replica)
    requires InStep(Grown(v, source, done), m) && name !in done
    ensures InStep(Grown(v, source, done[name := value]), Told(m, Event(source, Some(name), Some(value), Set)))
  {
    forall s, n
      ensures Get(Grown(v, source, done[name := value]), s, n)
        == if (s, n) == (source, name) then Some(value) else Get(Grown(v, source, done), s, n)
    {
    }
  }
}
