/** The header pages of an Ogg stream: a linked list into which BOS pages are inserted behind the BOS pages and other
    pages at the end. Memory is explicit: an address leads to a page. */
module OggHeaders {
  import opened Bytes
  import opened Heap

  /** A refbuf_t with a header page. */
  datatype Page = Page(data: seq<byte>, bos: bool, count: nat, next: Ptr)

  function At(s: seq<Ptr>, i: nat): Ptr {
    if i < |s| then s[i] else NULL
  }

  /** The addresses of `s` are linked together in order. */
  ghost predicate Linked(mem: map<Ptr, Page>, s: seq<Ptr>) {
    && NULL !in mem && Distinct(s)
    && forall i {:trigger Node(mem, s, i)} :: 0 <= i < |s| ==> Node(mem, s, i)
  }

  predicate Node(mem: map<Ptr, Page>, s: seq<Ptr>, i: nat)
    requires i < |s|
  {
    s[i] in mem && mem[s[i]].count > 0 && mem[s[i]].next == At(s, i + 1)
  }

  function Insert(s: seq<Ptr>, k: nat, p: Ptr): seq<Ptr>
    requires k <= |s|
  {
    s[..k] + [p] + s[k..]
  }

  /** A page is linked in at place `k`: it points on, and what pointed there points to it. */
  lemma InsertLinked(mem: map<Ptr, Page>, mem': map<Ptr, Page>, s: seq<Ptr>, k: nat, p: Ptr)
    requires Linked(mem, s) && k <= |s| && p !in mem && p != NULL && NULL !in mem'
    requires p in mem' && mem'[p].next == At(s, k) && mem'[p].count > 0
    requires forall q :: q in mem ==> q in mem' && mem'[q].count == mem[q].count
    requires forall q :: q in mem && !(k > 0 && q == s[k - 1]) ==> mem'[q].next == mem[q].next
    requires k > 0 ==> s[k - 1] in mem' && mem'[s[k - 1]].next == p
    ensures Linked(mem', Insert(s, k, p))
  {
    var t := Insert(s, k, p);
    forall i | 0 <= i < |s|
      ensures s[i] in mem && s[i] != p
    {
      assert Node(mem, s, i);
    }
    forall i | 0 <= i < |t|
      ensures Node(mem', t, i)
    {
      if i < k {
        assert t[i] == s[i] && Node(mem, s, i);
        if i + 1 < k {
          assert s[i] != s[k - 1];
        }
      } else if i > k {
        assert t[i] == s[i - 1] && Node(mem, s, i - 1);
        assert k > 0 ==> s[k - 1] != s[i - 1];
      }
    }
  }

  class OggState {
    var mem: map<Ptr, Page>
    var headerPages: Ptr
    var headerPagesTail: Ptr
    var bosEnd: Ptr       // the page whose link it is the address of; NULL for the address of headerPages itself

    // The BOS pages and the others, each in order of arrival.
    ghost var bos: seq<Ptr>
    ghost var others: seq<Ptr>

    /** All BOS pages, then all others; the tail is the last page and bos_end the link after the last BOS page. */
    ghost predicate Valid()
      reads this
    {
      && Linked(mem, bos + others)
      && headerPages == At(bos + others, 0)
      && headerPagesTail == (if bos + others == [] then NULL else (bos + others)[|bos + others| - 1])
      && bosEnd == (if bos == [] then NULL else bos[|bos| - 1])
      && (forall i :: 0 <= i < |bos| ==> bos[i] in mem && mem[bos[i]].bos)
      && (forall i :: 0 <= i < |others| ==> others[i] in mem && !mem[others[i]].bos)
    }

    constructor ()
      ensures Valid() && bos == others == []
    {
      mem, headerPages, headerPagesTail, bosEnd, bos, others := map[], NULL, NULL, NULL, [], [];
    }

    /** format_ogg_attach_header */
    method AttachHeader(data: seq<byte>, isBos: bool) returns (p: Ptr)
      requires Valid()
      modifies this
      ensures Valid() && p !in old(mem) && p in mem && mem[p] == Page(data, isBos, 1, mem[p].next)
      ensures bos == (if isBos then old(bos) + [p] else old(bos))
      ensures others == (if isBos then old(others) else old(others) + [p])
      ensures forall q :: q in old(mem) ==> q in mem && mem[q] == old(mem)[q].(next := mem[q].next)
    {
      p := Malloc(mem);
      ghost var s := bos + others;
      assert forall i :: 0 <= i < |s| ==> Node(mem, s, i);
      if isBos {
        AttachBos(p, data);
      } else {
        AttachOther(p, data);
      }
    }

    method AttachBos(p: Ptr, data: seq<byte>)
      requires Valid() && p !in mem && p != NULL
      modifies this
      ensures Valid() && bos == old(bos) + [p] && others == old(others) && p in mem
      ensures mem[p] == Page(data, true, 1, mem[p].next)
      ensures forall q :: q in old(mem) ==> q in mem && mem[q] == old(mem)[q].(next := mem[q].next)
    {
      hide Linked, Distinct, Node;
      ghost var mem0, s, k := mem, bos + others, |bos|;
      LinkAt(mem, s, k);
      var after := if bosEnd == NULL then headerPages else mem[bosEnd].next;
      if after == NULL {
        headerPagesTail := p;
      }
      mem := mem[p := Page(data, true, 1, after)];
      if bosEnd == NULL {
        headerPages := p;
      } else {
        mem := mem[bosEnd := mem[bosEnd].(next := p)];
      }
      bosEnd := p;
      bos := bos + [p];
      InsertLinked(mem0, mem, s, k, p);
      assert Insert(s, k, p) == bos + others;
    }

    method AttachOther(p: Ptr, data: seq<byte>)
      requires Valid() && p !in mem && p != NULL
      modifies this
      ensures Valid() && bos == old(bos) && others == old(others) + [p] && p in mem
      ensures mem[p] == Page(data, false, 1, mem[p].next)
      ensures forall q :: q in old(mem) ==> q in mem && mem[q] == old(mem)[q].(next := mem[q].next)
    {
      ghost var mem0, s := mem, bos + others;
      assert s != [] ==> Node(mem, s, |s| - 1);
      mem := mem[p := Page(data, false, 1, NULL)];
      if headerPagesTail != NULL {
        mem := mem[headerPagesTail := mem[headerPagesTail].(next := p)];
      }
      headerPagesTail := p;
      if headerPages == NULL {
        headerPages := p;
      }
      others := others + [p];
      InsertLinked(mem0, mem, s, |s|, p);
      assert Insert(s, |s|, p) == bos + others;
    }

    /** format_ogg_free_headers: each page loses one reference, and is freed if that was the last. One that stays, for
        listeners still being sent the headers, keeps its link. */
    method FreeHeaders()
      requires Valid()
      modifies this
      ensures Valid() && bos == others == []
      ensures forall q :: q in old(mem) && q !in old(bos + others) ==> q in mem && mem[q] == old(mem)[q]
      ensures forall q :: q in old(bos + others) ==>
        q in old(mem) && if old(mem)[q].count > 1
                         then q in mem && mem[q] == old(mem)[q].(count := old(mem)[q].count - 1)
                         else q !in mem
    {
      ghost var mem0, s, i := mem, bos + others, 0;
      assert Distinct(s) && NULL !in mem;
      hide Linked, Distinct, Node, At, Freed;
      PastEnd(mem0, s, 0);
      FreedNone(mem0, s);
      var header := headerPages;
      while header != NULL
        invariant i <= |s| && header == At(s, i) && (header == NULL <==> i == |s|) && (i < |s| ==> header == s[i])
        invariant Freed(mem0, mem, s, i)
        decreases |s| - i
      {
        LinkAt(mem0, s, i);
        StillThere(mem0, mem, s, i);
        var toRelease := header;
        header := mem[header].next;
        ghost var mem1 := mem;
        Release(toRelease);
        FreedNext(mem0, mem1, mem, s, i);
        i := i + 1;
        PastEnd(mem0, s, i);
      }
      FreedAll(mem0, mem, s);
      headerPages, headerPagesTail, bosEnd, bos, others := NULL, NULL, NULL, [], [];
      FreshLinked(mem);
    }

    /** refbuf_release */
    method Release(p: Ptr)
      requires p in mem && mem[p].count > 0
      modifies this`mem
      ensures mem ==
        if old(mem)[p].count == 1 then old(mem) - {p} else old(mem)[p := old(mem)[p].(count := old(mem)[p].count - 1)]
    {
      if mem[p].count == 1 {
        mem := mem - {p};
      } else {
        mem := mem[p := mem[p].(count := mem[p].count - 1)];
      }
    }
  }

  ghost predicate Released(mem0: map<Ptr, Page>, mem: map<Ptr, Page>, q: Ptr) {
    q in mem0 && if mem0[q].count > 1 then q in mem && mem[q] == mem0[q].(count := mem0[q].count - 1) else q !in mem
  }

  lemma LinkAt(mem: map<Ptr, Page>, s: seq<Ptr>, k: nat)
    requires Linked(mem, s) && k <= |s|
    ensures NULL !in mem && (k < |s| ==> s[k] in mem && mem[s[k]].count > 0 && mem[s[k]].next == At(s, k + 1))
    ensures k > 0 ==> s[k - 1] in mem && mem[s[k - 1]].next == At(s, k)
  {
    if k > 0 {
      assert Node(mem, s, k - 1);
    }
    if k < |s| {
      assert Node(mem, s, k);
    }
  }

  lemma PastEnd(mem: map<Ptr, Page>, s: seq<Ptr>, i: nat)
    requires Linked(mem, s) && i <= |s|
    ensures At(s, i) == NULL <==> i == |s|
    ensures i < |s| ==> At(s, i) == s[i]
  {
    if i < |s| {
      assert Node(mem, s, i);
    }
  }

  /** The first `i` pages of the list have each lost a reference, and nothing else has changed. */
  ghost predicate Freed(mem0: map<Ptr, Page>, mem: map<Ptr, Page>, s: seq<Ptr>, i: nat)
    requires i <= |s|
  {
    && NULL !in mem
    && (forall q :: q in mem0 && q !in s[..i] ==> q in mem && mem[q] == mem0[q])
    && (forall q :: q in s[..i] ==> Released(mem0, mem, q))
  }

  lemma FreedNone(mem: map<Ptr, Page>, s: seq<Ptr>)
    requires NULL !in mem
    ensures Freed(mem, mem, s, 0)
  {
  }

  lemma FreedAll(mem0: map<Ptr, Page>, mem: map<Ptr, Page>, s: seq<Ptr>)
    requires Freed(mem0, mem, s, |s|)
    ensures NULL !in mem && (forall q :: q in mem0 && q !in s ==> q in mem && mem[q] == mem0[q])
    ensures forall q :: q in s ==> Released(mem0, mem, q)
  {
    assert s[..|s|] == s;
  }

  lemma FreshLinked(mem: map<Ptr, Page>)
    requires NULL !in mem
    ensures Linked(mem, [] + []) && At([] + [], 0) == NULL
  {
  }

  lemma StillThere(mem0: map<Ptr, Page>, mem: map<Ptr, Page>, s: seq<Ptr>, i: nat)
    requires Distinct(s) && i < |s| && s[i] in mem0 && Freed(mem0, mem, s, i)
    ensures s[i] in mem && mem[s[i]] == mem0[s[i]]
  {
    NotBefore(s, i);
  }

  lemma FreedNext(mem0: map<Ptr, Page>, mem: map<Ptr, Page>, mem': map<Ptr, Page>, s: seq<Ptr>, i: nat)
    requires Distinct(s) && i < |s| && s[i] in mem0 && mem0[s[i]].count > 0 && Freed(mem0, mem, s, i)
    requires s[i] in mem && mem[s[i]] == mem0[s[i]]
    requires mem' ==
      if mem[s[i]].count == 1 then mem - {s[i]} else mem[s[i] := mem[s[i]].(count := mem[s[i]].count - 1)]
    ensures Freed(mem0, mem', s, i + 1)
  {
    assert s[..i + 1] == s[..i] + [s[i]];
    NotBefore(s, i);
  }

  lemma NotBefore(s: seq<Ptr>, i: nat)
    requires Distinct(s) && i < |s|
    ensures s[i] !in s[..i]
  {
  }
}
