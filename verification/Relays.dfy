/** The set of relays is brought in line with new settings by taking nodes off one linked list and putting them on
    another. Memory is explicit: an address leads to a relay. */
module Relays {
  import opened Bytes
  import opened Heap

  /** relay_server. `running` stands for all that a relay at work has beside its settings. */
  datatype Relay = Relay(server: string, port: int, mount: string, localmount: string,
                         username: Option<string>, password: Option<string>,
                         mp3metadata: int, onDemand: int, running: bool, next: Ptr)

  type Memory = map<Ptr, Relay>

  /** relay_has_changed, but for the change it makes. Name and password are not compared. */
  predicate Unchanged(settings: Relay, relay: Relay) {
    && settings.mount == relay.mount && settings.server == relay.server && settings.port == relay.port
    && settings.mp3metadata == relay.mp3metadata
  }

  /** A relay that may serve for the new settings. */
  predicate Serves(settings: Relay, relay: Relay) {
    settings.localmount == relay.localmount && Unchanged(settings, relay)
  }

  // ----- linked lists

  /** The nodes of the list that starts at `p`. */
  ghost predicate List(mem: Memory, p: Ptr, s: seq<Ptr>)
    decreases |s|
  {
    if s == [] then p == NULL
    else p == s[0] && p != NULL && p in mem && List(mem, mem[p].next, s[1..])
  }

  predicate Apart(s: seq<Ptr>, t: seq<Ptr>) {
    forall i, j :: 0 <= i < |s| && 0 <= j < |t| ==> s[i] != t[j]
  }

  lemma {:induction false} ListFrame(mem: Memory, mem': Memory, p: Ptr, s: seq<Ptr>)
    requires List(mem, p, s) && forall i :: 0 <= i < |s| ==>
      s[i] in mem' && (s[i] in mem ==> mem'[s[i]].next == mem[s[i]].next)
    ensures List(mem', p, s)
    decreases |s|
  {
    if s != [] {
      forall i | 0 <= i < |s[1..]|
        ensures s[1..][i] in mem' && (s[1..][i] in mem ==> mem'[s[1..][i]].next == mem[s[1..][i]].next)
      {
        assert s[1..][i] == s[i + 1];
      }
      ListFrame(mem, mem', mem[p].next, s[1..]);
    }
  }

  lemma {:induction false} ListIn(mem: Memory, p: Ptr, s: seq<Ptr>)
    requires List(mem, p, s)
    ensures forall i :: 0 <= i < |s| ==> s[i] in mem && s[i] != NULL
    decreases |s|
  {
    if s != [] {
      ListIn(mem, mem[p].next, s[1..]);
      forall i | 0 <= i < |s|
        ensures s[i] in mem && s[i] != NULL
      {
        if i > 0 {
          assert s[i] == s[1..][i - 1];
        }
      }
    }
  }

  /** The part of a list from its k-th node on. */
  lemma {:induction false} ListAt(mem: Memory, p: Ptr, s: seq<Ptr>, k: nat)
    requires List(mem, p, s) && k < |s|
    ensures s[k] in mem && s[k] != NULL && List(mem, s[k], s[k..]) && List(mem, mem[s[k]].next, s[k + 1..])
    ensures k + 1 < |s| ==> mem[s[k]].next == s[k + 1]
    ensures k + 1 == |s| ==> mem[s[k]].next == NULL
    decreases |s|
  {
    if k > 0 {
      ListAt(mem, mem[p].next, s[1..], k - 1);
      assert s[1..][k - 1..] == s[k..] && s[1..][k..] == s[k + 1..];
    } else {
      assert s[0..] == s;
    }
  }

  function Without(s: seq<Ptr>, k: nat): seq<Ptr>
    requires k < |s|
  {
    s[..k] + s[k + 1..]
  }

  /** `mem` with the k-th node of the list taken out: the node before it points past it. */
  function Unlinked(mem: Memory, s: seq<Ptr>, k: nat): Memory
    requires k < |s| && s[k] in mem && (k > 0 ==> s[k - 1] in mem)
  {
    if k == 0 then mem else mem[s[k - 1] := mem[s[k - 1]].(next := mem[s[k]].next)]
  }

  lemma UnlinkedSecond(mem: Memory, p: Ptr, s: seq<Ptr>)
    requires List(mem, p, s) && Distinct(s) && |s| > 1 && s[0] in mem && s[1] in mem
    ensures List(Unlinked(mem, s, 1), p, Without(s, 1))
  {
    var mem' := Unlinked(mem, s, 1);
    ListAt(mem, p, s, 1);
    ListAt(mem, p, s, 0);
    forall i | 0 <= i < |s[2..]|
      ensures s[2..][i] in mem' && mem'[s[2..][i]].next == mem[s[2..][i]].next
    {
      ListAt(mem, p, s, i + 2);
      assert s[2..][i] == s[i + 2] != s[0];
    }
    ListFrame(mem, mem', mem[s[1]].next, s[2..]);
    assert Without(s, 1) == [s[0]] + s[2..];
    assert Without(s, 1)[1..] == s[2..];
  }

  lemma {:induction false} UnlinkedList(mem: Memory, p: Ptr, s: seq<Ptr>, k: nat)
    requires List(mem, p, s) && Distinct(s) && k < |s|
    ensures s[k] in mem && (k > 0 ==> s[k - 1] in mem)
    ensures List(Unlinked(mem, s, k), if k == 0 then mem[p].next else p, Without(s, k))
    decreases k
  {
    ListAt(mem, p, s, k);
    ListIn(mem, p, s);
    var mem' := Unlinked(mem, s, k);
    if k == 0 {
      assert Without(s, 0) == s[1..];
    } else if k == 1 {
      UnlinkedSecond(mem, p, s);
    } else {
      ListAt(mem, p, s, k - 1);
      forall i, j | 0 <= i < j < |s[1..]|
        ensures s[1..][i] != s[1..][j]
      {
        assert s[1..][i] == s[i + 1] && s[1..][j] == s[j + 1];
      }
      UnlinkedList(mem, mem[p].next, s[1..], k - 1);
      assert s[1..][k - 1] == s[k] && s[1..][k - 2] == s[k - 1];
      assert Unlinked(mem, s[1..], k - 1) == mem';
      assert Without(s, k)[1..] == Without(s[1..], k - 1);
      assert s[0] != s[k - 1];
    }
  }

  /** What is left of a list after nodes have been taken out, the others in their order. */
  predicate Remains(t: seq<Ptr>, s: seq<Ptr>)
    decreases |s|
  {
    if t == [] then true
    else if s == [] then false
    else if t[0] == s[0] then Remains(t[1..], s[1..])
    else Remains(t, s[1..])
  }

  lemma {:induction false} AllRemain(s: seq<Ptr>)
    ensures Remains(s, s)
    decreases |s|
  {
    if s != [] {
      AllRemain(s[1..]);
    }
  }

  lemma {:induction false} FewerRemain(t: seq<Ptr>, s: seq<Ptr>, k: nat)
    requires Remains(t, s) && k < |t|
    ensures Remains(Without(t, k), s)
    decreases |s|
  {
    if t[0] != s[0] {
      FewerRemain(t, s[1..], k);
      RemainsLater(Without(t, k), s);
    } else if k == 0 {
      assert Without(t, 0) == t[1..];
      RemainsLater(t[1..], s);
    } else {
      FewerRemain(t[1..], s[1..], k - 1);
      assert Without(t, k)[1..] == Without(t[1..], k - 1);
    }
  }

  lemma {:induction false} RemainsLater(t: seq<Ptr>, s: seq<Ptr>)
    requires s != [] && Remains(t, s[1..])
    ensures Remains(t, s)
    decreases |s|, 0
  {
    if t != [] && t[0] == s[0] {
      RemainsTail(t, s[1..]);
    }
  }

  lemma {:induction false} RemainsTail(t: seq<Ptr>, s: seq<Ptr>)
    requires t != [] && Remains(t, s)
    ensures Remains(t[1..], s)
    decreases |s|, 1
  {
    if t[0] == s[0] {
      RemainsLater(t[1..], s);
    } else {
      RemainsTail(t, s[1..]);
      RemainsLater(t[1..], s);
    }
  }

  // ----- update_relay_set

  /** The first relay of the list that serves for the new settings, or the length of the list. */
  function Choice(mem: Memory, s: seq<Ptr>, r: Relay): (k: nat)
    requires forall i :: 0 <= i < |s| ==> s[i] in mem
    ensures k <= |s| && (k < |s| ==> Serves(r, mem[s[k]])) && forall i :: 0 <= i < k ==> !Serves(r, mem[s[i]])
  {
    if s == [] then 0
    else if Serves(r, mem[s[0]]) then 0
    else
      assert forall i :: 0 <= i < |s[1..]| ==> s[1..][i] == s[i + 1];
      1 + Choice(mem, s[1..], r)
  }

  /** relay_copy */
  function Copied(r: Relay): Relay {
    r.(running := false, next := NULL)
  }

  /** A relay is what the settings say. */
  predicate Set(r: Relay, settings: Relay) {
    && r.localmount == settings.localmount && Unchanged(settings, r) && r.onDemand == settings.onDemand
  }

  /** The three lists as they are linked together; `left` is what remains of the current one. */
  ghost predicate Linked(mem: Memory, current: Ptr, newList: Ptr, relay: Ptr, left: seq<Ptr>, ns: seq<Ptr>,
                         rest: seq<Ptr>) {
    && List(mem, current, left) && List(mem, newList, ns) && List(mem, relay, rest)
    && Distinct(left + ns + rest)
  }

  /** The relay made for settings `u`: one of the current relays, still at work if it was, or a copy of the settings,
      and then none of the relays left would have served. */
  ghost predicate Made(mem0: Memory, mem: Memory, left: seq<Ptr>, u: Ptr, n: Ptr, reused: set<Ptr>) {
    && u in mem0 && n in mem && Set(mem[n], mem0[u])
    && if n in reused then
         n in mem0 && Serves(mem0[u], mem0[n]) && mem[n] == mem0[n].(onDemand := mem0[u].onDemand, next := mem[n].next)
       else
         n !in mem0 && mem[n] == Copied(mem0[u]).(next := mem[n].next)
         && forall p :: p in left ==> p in mem0 && !Serves(mem0[u], mem0[p])
  }

  /** The first `i` of the settings have been gone through. */
  ghost predicate Sorted(mem0: Memory, mem: Memory, cs: seq<Ptr>, us: seq<Ptr>, i: nat, left: seq<Ptr>, ns: seq<Ptr>,
                         reused: set<Ptr>) {
    && i <= |us| && |ns| == i && mem0.Keys <= mem.Keys
    && (forall p :: p in left ==> p in mem0 && p in mem && mem[p] == mem0[p].(next := mem[p].next))
    && (forall p :: p in us ==> p in mem0 && p in mem && mem[p] == mem0[p])
    && (forall j :: 0 <= j < i ==> Made(mem0, mem, left, us[j], ns[i - 1 - j], reused))
    && (forall p :: p in cs <==> p in left || p in reused)
    && (forall p :: p in reused ==> p in ns && p !in left)
  }

  // ----- a current relay is taken over

  function Taken(mem: Memory, left: seq<Ptr>, k: nat, onDemand: int, newList: Ptr): Memory
    requires k < |left| && forall i :: 0 <= i < |left| ==> left[i] in mem
  {
    var mem1 := mem[left[k] := mem[left[k]].(onDemand := onDemand)];
    var mem2 := Unlinked(mem1, left, k);
    mem2[left[k] := mem2[left[k]].(next := newList)]
  }

  lemma DistinctParts(left: seq<Ptr>, ns: seq<Ptr>, rest: seq<Ptr>)
    requires Distinct(left + ns + rest)
    ensures Distinct(left) && Distinct(ns) && Distinct(rest) && Apart(left, ns) && Apart(left, rest) && Apart(ns, rest)
  {
    var all := left + ns + rest;
    assert forall i :: 0 <= i < |left| ==> all[i] == left[i];
    assert forall i :: 0 <= i < |ns| ==> all[|left| + i] == ns[i];
    assert forall i :: 0 <= i < |rest| ==> all[|left| + |ns| + i] == rest[i];
  }

  lemma DistinctWhole(left: seq<Ptr>, ns: seq<Ptr>, rest: seq<Ptr>)
    requires Distinct(left) && Distinct(ns) && Distinct(rest) && Apart(left, ns) && Apart(left, rest) && Apart(ns, rest)
    ensures Distinct(left + ns + rest)
  {
  }

  lemma TakenLinked(mem: Memory, current: Ptr, newList: Ptr, relay: Ptr, left: seq<Ptr>, ns: seq<Ptr>, rest: seq<Ptr>,
                    k: nat, onDemand: int)
    requires Linked(mem, current, newList, relay, left, ns, rest) && k < |left| && rest != []
    ensures forall i :: 0 <= i < |left| ==> left[i] in mem
    ensures relay in mem && relay == rest[0] && left[k] in mem
    ensures Linked(Taken(mem, left, k, onDemand, newList), if k == 0 then mem[left[0]].next else current, left[k],
                   mem[relay].next, Without(left, k), [left[k]] + ns, rest[1..])
  {
    DistinctParts(left, ns, rest);
    ListIn(mem, current, left);
    ListIn(mem, newList, ns);
    ListIn(mem, relay, rest);
    var x := left[k];
    var mem1 := mem[x := mem[x].(onDemand := onDemand)];
    ListFrame(mem, mem1, current, left);
    UnlinkedList(mem1, current, left, k);
    var mem2, mem3 := Unlinked(mem1, left, k), Taken(mem, left, k, onDemand, newList);
    assert forall i :: 0 <= i < |Without(left, k)| ==> Without(left, k)[i] == left[if i < k then i else i + 1];
    ListFrame(mem2, mem3, if k == 0 then mem[left[0]].next else current, Without(left, k));
    ListFrame(mem, mem3, newList, ns);
    assert ([x] + ns)[1..] == ns;
    ListFrame(mem, mem3, relay, rest);
    TakenDistinct(left, ns, rest, k);
  }

  lemma TakenDistinct(left: seq<Ptr>, ns: seq<Ptr>, rest: seq<Ptr>, k: nat)
    requires Distinct(left + ns + rest) && k < |left| && rest != []
    ensures Distinct(Without(left, k) + ([left[k]] + ns) + rest[1..])
  {
    DistinctParts(left, ns, rest);
    var l, n := Without(left, k), [left[k]] + ns;
    assert forall i :: 0 <= i < |l| ==> l[i] == left[if i < k then i else i + 1];
    assert forall i :: 0 <= i < |n| ==> n[i] == if i == 0 then left[k] else ns[i - 1];
    assert forall i :: 0 <= i < |rest[1..]| ==> rest[1..][i] == rest[i + 1];
    DistinctWhole(l, n, rest[1..]);
  }

  lemma InWithout(s: seq<Ptr>, k: nat)
    requires k < |s| && Distinct(s)
    ensures forall p :: p in Without(s, k) <==> p in s && p != s[k]
  {
    var t := Without(s, k);
    forall p | p in s && p != s[k]
      ensures p in t
    {
      var i :| 0 <= i < |s| && s[i] == p;
      assert t[if i < k then i else i - 1] == p;
    }
    forall p | p in t
      ensures p in s && p != s[k]
    {
      var i :| 0 <= i < |t| && t[i] == p;
      assert p == s[if i < k then i else i + 1];
    }
  }

  lemma TakenSorted(mem0: Memory, mem: Memory, cs: seq<Ptr>, us: seq<Ptr>, i: nat, left: seq<Ptr>, ns: seq<Ptr>,
                    reused: set<Ptr>, k: nat, newList: Ptr)
    requires Sorted(mem0, mem, cs, us, i, left, ns, reused) && i < |us| && k < |left|
    requires Distinct(left) && Apart(left, ns) && Apart(left, us)
    requires us[i] in mem && left[k] in mem && Serves(mem[us[i]], mem[left[k]])
    ensures forall j :: 0 <= j < |left| ==> left[j] in mem
    ensures Sorted(mem0, Taken(mem, left, k, mem[us[i]].onDemand, newList), cs, us, i + 1,
                   Without(left, k), [left[k]] + ns, reused + {left[k]})
  {
    forall j | 0 <= j < |left|
      ensures left[j] in mem
    {
      assert left[j] in left;
    }
    assert us[i] in us && left[k] in left;
    InWithout(left, k);
    var mem' := Taken(mem, left, k, mem[us[i]].onDemand, newList);
    var left', ns', reused' := Without(left, k), [left[k]] + ns, reused + {left[k]};
    forall j | 0 <= j < i + 1
      ensures Made(mem0, mem', left', us[j], ns'[i - j], reused')
    {
      if j < i {
        assert Made(mem0, mem, left, us[j], ns[i - 1 - j], reused);
        assert ns'[i - j] == ns[i - 1 - j] != left[k];
        assert k > 0 ==> left[k - 1] != ns[i - 1 - j];
      } else {
        assert ns'[0] == left[k];
      }
    }
    forall p | p in reused'
      ensures p in ns' && p !in left'
    {
      if p != left[k] {
        assert p in ns;
      } else {
        assert ns'[0] == p;
      }
    }
    forall p | p in us
      ensures p in mem' && mem'[p] == mem0[p]
    {
      var j :| 0 <= j < |us| && us[j] == p;
      assert left[k] != us[j] && (k > 0 ==> left[k - 1] != us[j]);
    }
  }

  // ----- a new relay is made

  lemma CopiedLinked(mem: Memory, current: Ptr, newList: Ptr, relay: Ptr, left: seq<Ptr>, ns: seq<Ptr>, rest: seq<Ptr>,
                     p: Ptr, r: Relay)
    requires Linked(mem, current, newList, relay, left, ns, rest)
    requires rest != [] && p !in mem && p != NULL && r.next == newList
    ensures relay in mem && relay == rest[0]
    ensures Linked(mem[p := r], current, p, mem[relay].next, left, [p] + ns, rest[1..])
  {
    DistinctParts(left, ns, rest);
    ListIn(mem, current, left);
    ListIn(mem, newList, ns);
    ListIn(mem, relay, rest);
    var mem' := mem[p := r];
    ListFrame(mem, mem', current, left);
    ListFrame(mem, mem', newList, ns);
    ListFrame(mem, mem', relay, rest);
    assert ([p] + ns)[1..] == ns;
    assert forall i :: 0 <= i < |[p] + ns| ==> ([p] + ns)[i] == if i == 0 then p else ns[i - 1];
    assert forall i :: 0 <= i < |rest[1..]| ==> rest[1..][i] == rest[i + 1];
    DistinctWhole(left, [p] + ns, rest[1..]);
  }

  lemma CopiedSorted(mem0: Memory, mem: Memory, cs: seq<Ptr>, us: seq<Ptr>, i: nat, left: seq<Ptr>, ns: seq<Ptr>,
                     reused: set<Ptr>, p: Ptr, r: Relay)
    requires Sorted(mem0, mem, cs, us, i, left, ns, reused) && i < |us| && p !in mem
    requires us[i] in mem && r == Copied(mem[us[i]]).(next := r.next)
    requires forall q :: q in left ==> q in mem && !Serves(mem[us[i]], mem[q])
    ensures Sorted(mem0, mem[p := r], cs, us, i + 1, left, [p] + ns, reused)
  {
    assert us[i] in us;
    forall j | 0 <= j < |ns|
      ensures ns[j] in mem
    {
      assert Made(mem0, mem, left, us[i - 1 - j], ns[i - 1 - (i - 1 - j)], reused);
    }
    var mem', ns' := mem[p := r], [p] + ns;
    forall j | 0 <= j < i + 1
      ensures Made(mem0, mem', left, us[j], ns'[i - j], reused)
    {
      if j < i {
        assert Made(mem0, mem, left, us[j], ns[i - 1 - j], reused);
        assert ns'[i - j] == ns[i - 1 - j];
      } else {
        assert ns'[0] == p;
      }
    }
    forall q | q in reused
      ensures q in ns'
    {
      var j :| 0 <= j < |ns| && ns[j] == q;
      assert ns'[j + 1] == q;
    }
  }

  class RelayList {
    var mem: Memory

    /** The inner loop: the first node of the list that serves for `relay`, and the place that points to it (the list's
        head for NULL). What differs in on_demand is taken over. */
    method Find(current: Ptr, relay: Relay, ghost s: seq<Ptr>) returns (existing: Ptr, before: Ptr, ghost k: nat)
      requires List(mem, current, s) && Distinct(s) && forall i :: 0 <= i < |s| ==> s[i] in mem
      modifies this`mem
      ensures k == Choice(old(mem), s, relay)
      ensures if k < |s| then existing == s[k] && existing != NULL && before == (if k == 0 then NULL else s[k - 1])
                              && mem == old(mem)[s[k] := old(mem)[s[k]].(onDemand := relay.onDemand)]
              else existing == NULL && mem == old(mem)
    {
      existing, before, k := current, NULL, 0;
      while existing != NULL
        invariant k <= |s| && List(mem, existing, s[k..]) && before == if k == 0 then NULL else s[k - 1]
        invariant forall i :: 0 <= i < k ==> !Serves(relay, mem[s[i]])
        decreases |s| - k
      {
        assert existing == s[k];
        if relay.localmount == mem[existing].localmount {
          if relay.mount == mem[existing].mount && relay.server == mem[existing].server
             && relay.port == mem[existing].port && relay.mp3metadata == mem[existing].mp3metadata {
            if relay.onDemand != mem[existing].onDemand {
              mem := mem[existing := mem[existing].(onDemand := relay.onDemand)];
            } else {
              assert mem[existing := mem[existing].(onDemand := relay.onDemand)] == mem;
            }
            return;
          }
        }
        before := existing;
        existing := mem[existing].next;
        assert s[k..][1..] == s[k + 1..];
        k := k + 1;
      }
    }

    /** The first node of the list or the place after `before` no longer leads to `existing`, which goes to the front of
        the other list. */
    method Relink(current: Ptr, existing: Ptr, before: Ptr, newList: Ptr) returns (current': Ptr)
      requires existing in mem && (before != NULL ==> before in mem)
      modifies this`mem
      ensures current' == if before == NULL then old(mem)[existing].next else current
      ensures var m := if before == NULL then old(mem)
                       else old(mem)[before := old(mem)[before].(next := old(mem)[existing].next)];
        mem == m[existing := m[existing].(next := newList)]
    {
      current' := current;
      if before == NULL {
        current' := mem[existing].next;
      } else {
        mem := mem[before := mem[before].(next := mem[existing].next)];
      }
      mem := mem[existing := mem[existing].(next := newList)];
    }

    /** update_relay_set: each of the new settings gets a relay, one of the current ones if there is one that serves;
        what remains of the current list is to be shut down. The new list is in the reverse order of the settings. */
    method UpdateRelaySet(current: Ptr, updated: Ptr, ghost cs: seq<Ptr>, ghost us: seq<Ptr>)
      returns (current': Ptr, newList: Ptr, ghost left: seq<Ptr>, ghost ns: seq<Ptr>, ghost reused: set<Ptr>)
      requires Linked(mem, current, NULL, updated, cs, [], us)
      modifies this`mem
      ensures List(mem, current', left) && List(mem, newList, ns) && Distinct(left) && Distinct(ns) && Apart(left, ns)
      ensures Sorted(old(mem), mem, cs, us, |us|, left, ns, reused) && Remains(left, cs)
    {
      hide List, Linked, Sorted, Remains;
      ghost var mem0 := mem;
      ghost var i := 0;
      current', newList, left, ns, reused := current, NULL, cs, [], {};
      var relay := updated;
      SortedBegins(mem, current, updated, cs, us);
      AllRemain(cs);
      while relay != NULL
        invariant i <= |us| && Linked(mem, current', newList, relay, left, ns, us[i..])
        invariant Sorted(mem0, mem, cs, us, i, left, ns, reused) && Remains(left, cs)
        decreases |us| - i
      {
        current', newList, relay, left, ns, reused :=
          PlaceOne(current', newList, relay, cs, us, i, left, ns, reused, mem0);
        assert us[i..][1..] == us[i + 1..];
        i := i + 1;
      }
      AllPlaced(mem, mem0, current', newList, cs, us, i, left, ns, reused);
    }

    /** One of the settings. */
    method PlaceOne(current: Ptr, newList: Ptr, relay: Ptr, ghost cs: seq<Ptr>, ghost us: seq<Ptr>, ghost i: nat,
                    ghost left: seq<Ptr>, ghost ns: seq<Ptr>, ghost reused: set<Ptr>, ghost mem0: Memory)
      returns (current': Ptr, newList': Ptr, relay': Ptr, ghost left': seq<Ptr>, ghost ns': seq<Ptr>,
               ghost reused': set<Ptr>)
      requires relay != NULL && i <= |us| && Linked(mem, current, newList, relay, left, ns, us[i..])
      requires Sorted(mem0, mem, cs, us, i, left, ns, reused) && Apart(cs, us) && Remains(left, cs)
      modifies this`mem
      ensures Remains(left', cs)
      ensures i < |us| && Linked(mem, current', newList', relay', left', ns', us[i..][1..])
      ensures Sorted(mem0, mem, cs, us, i + 1, left', ns', reused')
    {
      hide Sorted, Linked, List, Taken, Serves, Remains;
      ghost var before0 := mem;
      Ready(mem, mem0, current, newList, relay, cs, us, i, left, ns, reused);
      var existing, before;
      ghost var k;
      existing, before, k := Find(current, mem[relay], left);
      if existing == NULL {
        var p := Malloc(mem);
        CopiedLinked(mem, current, newList, relay, left, ns, us[i..], p, Copied(mem[relay]).(next := newList));
        CopiedSorted(mem0, mem, cs, us, i, left, ns, reused, p, Copied(mem[relay]).(next := newList));
        mem := mem[p := Copied(mem[relay]).(next := newList)];
        current', newList', relay', left', ns', reused' := current, p, mem[relay].next, left, [p] + ns, reused;
      } else {
        TakenLinked(before0, current, newList, relay, left, ns, us[i..], k, before0[relay].onDemand);
        TakenSorted(mem0, before0, cs, us, i, left, ns, reused, k, newList);
        FewerRemain(left, cs, k);
        TakenIs(before0, left, k, before0[relay].onDemand, newList);
        current' := Relink(current, existing, before, newList);
        newList', relay' := existing, mem[relay].next;
        left', ns', reused' := Without(left, k), [existing] + ns, reused + {existing};
      }
    }
  }

  lemma TakenIs(mem: Memory, left: seq<Ptr>, k: nat, onDemand: int, newList: Ptr)
    requires k < |left| && forall i :: 0 <= i < |left| ==> left[i] in mem
    ensures var m := mem[left[k] := mem[left[k]].(onDemand := onDemand)];
      var m' := if k == 0 then m else m[left[k - 1] := m[left[k - 1]].(next := m[left[k]].next)];
      Taken(mem, left, k, onDemand, newList) == m'[left[k] := m'[left[k]].(next := newList)]
  {
  }

  lemma SortedBegins(mem: Memory, current: Ptr, updated: Ptr, cs: seq<Ptr>, us: seq<Ptr>)
    requires Linked(mem, current, NULL, updated, cs, [], us)
    ensures us[0..] == us && Sorted(mem, mem, cs, us, 0, cs, [], {}) && Apart(cs, us)
  {
    DistinctParts(cs, [], us);
    ListIn(mem, current, cs);
    ListIn(mem, updated, us);
  }

  lemma AllPlaced(mem: Memory, mem0: Memory, current: Ptr, newList: Ptr, cs: seq<Ptr>, us: seq<Ptr>, i: nat,
                  left: seq<Ptr>, ns: seq<Ptr>, reused: set<Ptr>)
    requires i <= |us| && Linked(mem, current, newList, NULL, left, ns, us[i..])
    ensures i == |us|
    ensures List(mem, current, left) && List(mem, newList, ns) && Distinct(left) && Distinct(ns) && Apart(left, ns)
  {
    DistinctParts(left, ns, us[i..]);
  }

  /** What is there to go on with for the next of the settings. */
  lemma Ready(mem: Memory, mem0: Memory, current: Ptr, newList: Ptr, relay: Ptr, cs: seq<Ptr>, us: seq<Ptr>, i: nat,
              left: seq<Ptr>, ns: seq<Ptr>, reused: set<Ptr>)
    requires relay != NULL && i <= |us| && Linked(mem, current, newList, relay, left, ns, us[i..])
    requires Sorted(mem0, mem, cs, us, i, left, ns, reused) && Apart(cs, us)
    ensures i < |us| && relay == us[i] && relay in mem && relay !in left
    ensures List(mem, current, left) && Distinct(left) && Apart(left, ns) && Apart(left, us)
    ensures forall j :: 0 <= j < |left| ==> left[j] in mem && left[j] != NULL
  {
    DistinctParts(left, ns, us[i..]);
    ListIn(mem, current, left);
    ListIn(mem, relay, us[i..]);
    forall a, b | 0 <= a < |left| && 0 <= b < |us|
      ensures left[a] != us[b]
    {
      assert left[a] in left && left[a] in cs;
      var c :| 0 <= c < |cs| && cs[c] == left[a];
    }
  }

  /** What update_relay_set comes to. Every current relay ends in exactly one of the two lists; the new list has a relay
      for each of the settings, in reverse order; and a relay is only made when none of those to be shut down would have
      served. */
  lemma Reconciled(mem0: Memory, mem: Memory, cs: seq<Ptr>, us: seq<Ptr>, left: seq<Ptr>, ns: seq<Ptr>,
                   reused: set<Ptr>)
    requires Sorted(mem0, mem, cs, us, |us|, left, ns, reused) && Apart(left, ns)
    ensures |ns| == |us|
    ensures forall p :: p in cs ==> (p in left <==> p !in ns)
    ensures forall p :: p in left || (p in ns && p in mem0) ==> p in cs
    ensures forall j :: 0 <= j < |us| ==>
      ns[|us| - 1 - j] in mem && us[j] in mem0 && Set(mem[ns[|us| - 1 - j]], mem0[us[j]])
    ensures forall j :: 0 <= j < |us| && ns[|us| - 1 - j] !in cs ==>
        us[j] in mem0 && forall p :: p in left ==> p in mem0 && !Serves(mem0[us[j]], mem0[p])
  {
    forall j | 0 <= j < |ns|
      ensures Made(mem0, mem, left, us[|us| - 1 - j], ns[j], reused)
    {
      assert ns[|us| - 1 - (|us| - 1 - j)] == ns[j];
    }
    ApartSets(left, ns);
  }

  lemma ApartSets(s: seq<Ptr>, t: seq<Ptr>)
    requires Apart(s, t)
    ensures forall p :: p in s ==> p !in t
  {
    forall p | p in s
      ensures p !in t
    {
      var a :| 0 <= a < |s| && s[a] == p;
      forall b | 0 <= b < |t|
        ensures t[b] != p
      {
        assert s[a] != t[b];
      }
    }
  }

  /** Each relay of the new list has the server, port, mount points, metadata and on-demand settings asked for; and one
      is made only if every relay to be shut down differs in one of them but the last. */
  lemma MatchesSettings(mem0: Memory, mem: Memory, cs: seq<Ptr>, us: seq<Ptr>, left: seq<Ptr>, ns: seq<Ptr>,
                        reused: set<Ptr>, j: nat)
    requires Sorted(mem0, mem, cs, us, |us|, left, ns, reused) && j < |us|
    ensures var n, u := ns[|us| - 1 - j], us[j];
      && n in mem && u in mem0 && var r, settings := mem[n], mem0[u];
      && r.server == settings.server && r.port == settings.port && r.mount == settings.mount
      && r.localmount == settings.localmount && r.mp3metadata == settings.mp3metadata
      && r.onDemand == settings.onDemand
      && (n !in cs ==> !r.running && r.username == settings.username && r.password == settings.password)
      && (n in cs ==> n in mem0 && r.running == mem0[n].running)
      && (n !in cs ==> forall p :: p in left ==> p in mem0 && var o := mem0[p];
            o.server != settings.server || o.port != settings.port || o.mount != settings.mount
            || o.localmount != settings.localmount || o.mp3metadata != settings.mp3metadata)
  {
    assert Made(mem0, mem, left, us[j], ns[|us| - 1 - j], reused);
  }

  /** User name and password are not compared: a relay of the new list has those of its settings exactly if it was made
      for them, or had them before. */
  lemma CredentialsCarried(mem0: Memory, mem: Memory, cs: seq<Ptr>, us: seq<Ptr>, left: seq<Ptr>, ns: seq<Ptr>,
                           reused: set<Ptr>, j: nat)
    requires Sorted(mem0, mem, cs, us, |us|, left, ns, reused) && j < |us|
    ensures var n := ns[|us| - 1 - j];
      && us[j] in mem0 && n in mem && (n in cs ==> n in mem0)
      && (SameLogin(mem[n], mem0[us[j]]) <==> n !in cs || SameLogin(mem0[n], mem0[us[j]]))
  {
    assert Made(mem0, mem, left, us[j], ns[|us| - 1 - j], reused);
  }

  predicate SameLogin(r: Relay, settings: Relay) {
    r.username == settings.username && r.password == settings.password
  }

  /** An example: a relay at work with an old password is kept although the settings have a new one. */
  method OldPasswordKept(list: RelayList, r: Relay, settings: Relay) returns (newList: Ptr)
    requires Serves(settings, r) && r.next == settings.next == NULL && !SameLogin(r, settings)
    requires list.mem == map[1 := r, 2 := settings]
    modifies list`mem
    ensures newList == 1 && 1 in list.mem && list.mem[1].password == r.password && !SameLogin(list.mem[1], settings)
  {
    assert Linked(list.mem, 1, NULL, 2, [1], [], [2]);
    ghost var mem0 := list.mem;
    var current;
    ghost var left, ns, reused;
    current, newList, left, ns, reused := list.UpdateRelaySet(1, 2, [1], [2]);
    assert Made(mem0, list.mem, left, [2][0], ns[0], reused);
    assert 1 in [1];
    CredentialsCarried(mem0, list.mem, [1], [2], left, ns, reused, 0);
  }
}
