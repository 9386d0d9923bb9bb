/** Statistics and their replication: a stats client gets all current values when it registers and every event after
    that; what it can work out from them is what the server has. */
module Stats {
  import opened Bytes

  datatype Action = Set | Inc | Dec | Add | Sub | Remove

  /** stats_event_t. Without a source it is about a global value, without a name about a whole source. */
  datatype Event = Event(source: Option<string>, name: Option<string>, value: Option<string>, action: Action)

  /** Events as stats_event, stats_event_inc, _dec, _add and _sub build them. */
  predicate Built(e: Event) {
    match e.action
    case Remove => e.value.None? && (e.name.Some? || e.source.Some?)
    case Inc | Dec => e.value.None? && e.name.Some?
    case Set | Add | Sub => e.value.Some? && e.name.Some?
  }

  /** Reading a number at the start of a string, and printing one. */
  datatype Decimal = Decimal(parse: string -> int, show: int -> string)

  /** The server's values: global ones, and those of each source. */
  datatype Values = Values(globals: map<string, string>, sources: map<string, map<string, string>>)

  function Get(v: Values, source: Option<string>, name: string): Option<string> {
    match source
    case None => if name in v.globals then Some(v.globals[name]) else None
    case Some(s) => if s in v.sources && name in v.sources[s] then Some(v.sources[s][name]) else None
  }

  // ----- processing an event

  /** modify_node_event: the new value of a node. */
  function Modified(d: Decimal, before: string, e: Event): string
    requires Built(e) && e.action != Remove
  {
    match e.action
    case Set => e.value.value
    case Inc => d.show(d.parse(before) + 1)
    case Dec => d.show(d.parse(before) - 1)
    case Add => d.show(d.parse(before) + d.parse(e.value.value))
    case Sub => d.show(d.parse(before) - d.parse(e.value.value))
    case Remove => before
  }

  /** The event after that: one without a value has been given the new one. */
  function Filled(d: Decimal, before: string, e: Event): Event
    requires Built(e) && e.action != Remove
  {
    if e.value.None? then e.(value := Some(Modified(d, before, e))) else e
  }

  /** A global value can only be increased or decreased if it is there: the server would fail otherwise. */
  predicate Possible(v: Values, e: Event) {
    e.source.None? && e.action in {Inc, Dec} && e.name.Some? ==> e.name.value in v.globals
  }

  datatype Processed = Processed(v: Values, e: Event)

  function ProcessGlobal(d: Decimal, v: Values, e: Event): Processed
    requires Built(e) && e.source.None? && Possible(v, e)
  {
    var name := e.name.value;
    if e.action == Remove then Processed(v.(globals := v.globals - {name}), e)
    else if name in v.globals then
      Processed(v.(globals := v.globals[name := Modified(d, v.globals[name], e)]), Filled(d, v.globals[name], e))
    else Processed(v.(globals := v.globals[name := e.value.value]), e)
  }

  function ProcessSource(d: Decimal, v: Values, e: Event): Processed
    requires Built(e) && e.source.Some?
  {
    var s := e.source.value;
    if e.action == Remove then
      if s !in v.sources then Processed(v, e)
      else if e.name.None? then Processed(v.(sources := v.sources - {s}), e)
      else Processed(v.(sources := v.sources[s := v.sources[s] - {e.name.value}]), e)
    else
      var tree, name := if s in v.sources then v.sources[s] else map[], e.name.value;
      if name in tree then
        Processed(v.(sources := v.sources[s := tree[name := Modified(d, tree[name], e)]]), Filled(d, tree[name], e))
      else if e.value.Some? then Processed(v.(sources := v.sources[s := tree[name := e.value.value]]), e)
      else Processed(v.(sources := v.sources[s := tree]), e)
  }

  function Process(d: Decimal, v: Values, e: Event): Processed
    requires Built(e) && Possible(v, e)
  {
    if e.source.None? then ProcessGlobal(d, v, e) else ProcessSource(d, v, e)
  }

  // ----- what a stats client makes of it

  type Key = (Option<string>, string)
  type Replica = map<Key, string>

  /** A line EVENT source name value: no value means that it is gone, no name that the whole source is. */
  function Told(m: Replica, e: Event): Replica {
    if e.name.None? then map k | k in m && k.0 != e.source :: m[k]
    else if e.value.Some? then m[(e.source, e.name.value) := e.value.value]
    else m - {(e.source, e.name.value)}
  }

  function Replay(m: Replica, es: seq<Event>): Replica {
    if es == [] then m else Told(Replay(m, es[..|es| - 1]), es[|es| - 1])
  }

  lemma ReplayOne(m: Replica, es: seq<Event>, e: Event)
    ensures Replay(m, es + [e]) == Told(Replay(m, es), e)
  {
    assert (es + [e])[..|es|] == es;
  }

  /** The client knows exactly the server's values. */
  ghost predicate InStep(v: Values, m: Replica) {
    forall source, name :: Get(v, source, name) == if (source, name) in m then Some(m[(source, name)]) else None
  }

  /** The event has the value that the server ends up with; only ADD and SUB on a value that is there can fail that,
      since they are passed on with the amount added or subtracted. */
  predicate Telling(d: Decimal, v: Values, e: Event)
    requires Built(e)
  {
    e.action in {Add, Sub} && Get(v, e.source, e.name.value).Some? ==>
      Modified(d, Get(v, e.source, e.name.value).value, e) == e.value.value
  }

  /** The value that an event is about after it has been processed. */
  lemma ProcessedAt(d: Decimal, v: Values, e: Event)
    requires Built(e) && Possible(v, e) && e.name.Some?
    ensures var p := Process(d, v, e); var now := Get(p.v, e.source, e.name.value);
      && p.e.source == e.source && p.e.name == e.name
      && (now == p.e.value <==> Telling(d, v, e))
      && forall source, name :: (source, name) != (e.source, e.name.value) ==>
            Get(p.v, source, name) == Get(v, source, name)
  {
  }

  /** A client in step stays in step exactly if the event tells the new value. */
  lemma StaysInStep(d: Decimal, v: Values, m: Replica, e: Event)
    requires Built(e) && Possible(v, e) && InStep(v, m)
    ensures InStep(Process(d, v, e).v, Told(m, Process(d, v, e).e)) <==> Telling(d, v, e)
  {
    var p := Process(d, v, e);
    var m' := Told(m, p.e);
    if e.name.Some? {
      ProcessedAt(d, v, e);
      var k := (e.source, e.name.value);
      assert (if k in m' then Some(m'[k]) else None) == p.e.value;
      if Telling(d, v, e) {
        forall source, name
          ensures Get(p.v, source, name) == if (source, name) in m' then Some(m'[(source, name)]) else None
        {
          assert Get(v, source, name) == if (source, name) in m then Some(m[(source, name)]) else None;
        }
      } else {
        assert Get(p.v, e.source, e.name.value) != if k in m' then Some(m'[k]) else None;
      }
    } else {
      forall source, name
        ensures Get(p.v, source, name) == if (source, name) in m' then Some(m'[(source, name)]) else None
      {
        assert Get(v, source, name) == if (source, name) in m then Some(m[(source, name)]) else None;
      }
    }
  }
  function Number(d: Decimal, v: Values, source: Option<string>, name: string): Option<int> {
    var value := Get(v, source, name); if value.Some? then Some(d.parse(value.value)) else None
  }

  /** What the actions come to, if what is printed can be read again: INC, DEC, ADD and SUB count up and down from a
      number that is there, SET puts a value in its place and REMOVE takes it away. */
  lemma CountsRight(d: Decimal, v: Values, source: Option<string>, name: string, n: int, amount: string)
    requires Number(d, v, source, name) == Some(n) && forall k :: d.parse(d.show(k)) == k
    ensures Number(d, Process(d, v, Event(source, Some(name), None, Inc)).v, source, name) == Some(n + 1)
    ensures Number(d, Process(d, v, Event(source, Some(name), None, Dec)).v, source, name) == Some(n - 1)
    ensures Number(d, Process(d, v, Event(source, Some(name), Some(amount), Add)).v, source, name)
      == Some(n + d.parse(amount))
    ensures Number(d, Process(d, v, Event(source, Some(name), Some(amount), Sub)).v, source, name)
      == Some(n - d.parse(amount))
    ensures Get(Process(d, v, Event(source, Some(name), Some(amount), Set)).v, source, name) == Some(amount)
    ensures Get(Process(d, v, Event(source, Some(name), None, Remove)).v, source, name) == None
  {
  }

  /** Counting up and down again leaves a number as it was, and so does adding and subtracting. */
  lemma CountsBack(d: Decimal, v: Values, source: Option<string>, name: string, n: int, amount: string)
    requires Number(d, v, source, name) == Some(n) && forall k :: d.parse(d.show(k)) == k
    ensures var up := Process(d, v, Event(source, Some(name), None, Inc)).v;
      var back := Event(source, Some(name), None, Dec);
      Possible(up, back) && Number(d, Process(d, up, back).v, source, name) == Some(n)
    ensures var up := Process(d, v, Event(source, Some(name), Some(amount), Add)).v;
      Number(d, Process(d, up, Event(source, Some(name), Some(amount), Sub)).v, source, name) == Some(n)
  {
    hide Process;
    var up := Process(d, v, Event(source, Some(name), None, Inc)).v;
    CountsRight(d, v, source, name, n, amount);
    CountsRight(d, up, source, name, n + 1, amount);
    var more := Process(d, v, Event(source, Some(name), Some(amount), Add)).v;
    CountsRight(d, more, source, name, n + d.parse(amount), amount);
  }
}
