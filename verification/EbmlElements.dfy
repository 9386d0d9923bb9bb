/** What the one-pass parser's records mean, in terms of the stream alone: elements laid end to end, each as
    long as its own tag says, and exactly the elements with the Cluster identifier recognised as Clusters. */
module EbmlElements {
  import opened Bytes
  import opened EbmlVarInt
  import opened EbmlOnePass

  /** An element is its tag and its payload; of a Cluster, a TrackEntry, a Segment, a Tracks element or one of
      unknown size only the tag counts, since its children are elements of their own. */
  function ElementSize(w: seq<byte>): nat
    requires Tag(w).Parsed?
  {
    var tag := Tag(w);
    if Magic(w, tag.len, CLUSTER) || w[0] == TRACK_ENTRY then tag.len
    else tag.len + Payload(w, tag.len, tag.value)
  }

  predicate ClusterAt(s: seq<byte>, offset: nat) {
    offset <= |s| && Tag(s[offset..]).Parsed? && Magic(s[offset..], Tag(s[offset..]).len, CLUSTER)
  }

  /** The element lies in the stream as its tag says. */
  predicate Sized(s: seq<byte>, e: Element) {
    e.offset <= |s| && Tag(s[e.offset..]).Parsed? && e.size == ElementSize(s[e.offset..])
  }

  function EndOf(elements: seq<Element>): nat {
    if elements == [] then 0 else elements[|elements| - 1].offset + elements[|elements| - 1].size
  }

  ghost predicate Contiguous(s: seq<byte>, elements: seq<Element>) {
    forall k :: 0 <= k < |elements| ==> Sized(s, elements[k]) && elements[k].offset == EndOf(elements[..k])
  }

  /** Offsets of the elements with the Cluster identifier, in order. */
  function ClusterOffsets(s: seq<byte>, elements: seq<Element>): seq<nat> {
    if elements == [] then []
    else
      var e := elements[|elements| - 1];
      ClusterOffsets(s, elements[..|elements| - 1]) + if ClusterAt(s, e.offset) then [e.offset] else []
  }

  function Offsets(clusters: seq<Cluster>): seq<nat> {
    seq(|clusters|, i requires 0 <= i < |clusters| => clusters[i].offset)
  }

  ghost predicate Recorded(m: Machine, s: seq<byte>) {
    && Contiguous(s, m.elements)
    && EndOf(m.elements) == m.pos + (if m.c.Copying() then m.c.copyLen else 0)
    && Offsets(m.clusters) == ClusterOffsets(s, m.elements)
    && (m.c.phase.StartCluster? ==> ClusterAt(s, m.pos))
  }

  lemma Append(s: seq<byte>, elements: seq<Element>, e: Element)
    requires Contiguous(s, elements) && Sized(s, e) && e.offset == EndOf(elements)
    ensures Contiguous(s, elements + [e]) && EndOf(elements + [e]) == e.offset + e.size
    ensures ClusterOffsets(s, elements + [e]) ==
      ClusterOffsets(s, elements) + if ClusterAt(s, e.offset) then [e.offset] else []
  {
    var all := elements + [e];
    assert all[..|elements|] == elements;
    forall k | 0 <= k < |all|
      ensures Sized(s, all[k]) && all[k].offset == EndOf(all[..k])
    {
      if k < |elements| {
        assert all[..k] == elements[..k];
      }
    }
  }

  lemma ExamineSizes(c: Control, w: seq<byte>)
    requires c.Parsing() && Examine(c, w).Next?
    ensures var c' := Examine(c, w).control;
      if c'.phase.StartCluster? then Magic(w, Tag(w).len, CLUSTER)
      else !Magic(w, Tag(w).len, CLUSTER) && c'.copyLen == ElementSize(w)
  {
  }

  lemma StepRecords(m: Machine, s: seq<byte>)
    requires WellFormed(m, s) && Recorded(m, s) && StepOf(m, s).Stepped?
    ensures Recorded(StepOf(m, s).m, s)
  {
    var m' := StepOf(m, s).m;
    if m.c.Parsing() {
      ExamineSizes(m.c, s[m.pos..]);
      if !m'.c.phase.StartCluster? {
        BeginCopyRecords(m, s, m'.c);
      }
    } else if m.c.phase.StartCluster? {
      BeginClusterRecords(m, s, Tag(s[m.pos..]).len);
    }
  }

  lemma BeginCopyRecords(m: Machine, s: seq<byte>, c: Control)
    requires Recorded(m, s) && !m.c.Copying() && c.Copying() && m.pos <= |s|
    requires Sized(s, Element(m.pos, c.copyLen)) && !ClusterAt(s, m.pos)
    ensures Recorded(BeginCopy(m, c), s)
  {
    Append(s, m.elements, Element(m.pos, c.copyLen));
    VerdictKeepsOffsets(m.clusters, c.verdict);
  }

  lemma VerdictKeepsOffsets(clusters: seq<Cluster>, v: Verdict)
    ensures Offsets(WithVerdict(clusters, v)) == Offsets(clusters)
  {
    var r := WithVerdict(clusters, v);
    assert forall i :: 0 <= i < |clusters| ==> r[i].offset == clusters[i].offset;
  }

  lemma BeginClusterRecords(m: Machine, s: seq<byte>, n: nat)
    requires Recorded(m, s) && m.c.phase.StartCluster? && m.pos <= |s|
    requires Sized(s, Element(m.pos, n)) && ClusterAt(s, m.pos)
    ensures Recorded(BeginCluster(m, n), s)
  {
    hide Contiguous, ClusterOffsets, EndOf, Sized, ClusterAt;
    Append(s, m.elements, Element(m.pos, n));
    assert Offsets(m.clusters + [Cluster(m.pos, Undecided)]) == Offsets(m.clusters) + [m.pos];
  }

  lemma {:induction false} RunRecords(m: Machine, s: seq<byte>)
    requires WellFormed(m, s) && Recorded(m, s)
    ensures Run(m, s).Halted? ==> Recorded(Run(m, s).m, s)
    decreases |s| - m.pos, Rank(m)
  {
    match StepOf(m, s) {
      case Blocked =>
      case Failed =>
      case Stepped(m') =>
        StepRecords(m, s);
        RunRecords(m', s);
    }
  }

  /** The elements of the one-pass parser tile the stream from its first byte to where the next element
      starts, with the sizes their tags give, and its Clusters are exactly the Cluster elements among them. */
  lemma OnePassMeaning(s: seq<byte>)
    requires OnePass(s).Halted?
    ensures var m := OnePass(s).m;
      Contiguous(s, m.elements) && Offsets(m.clusters) == ClusterOffsets(s, m.elements)
      && EndOf(m.elements) == m.pos + (if m.c.Copying() then m.c.copyLen else 0)
  {
    RunRecords(Start, s);
  }
  /** The children of such an element are elements of their own: a Segment, Tracks, TrackEntry or Cluster, by their
      identifiers, and any of unknown size. */
  predicate Entered(w: seq<byte>, size: nat) {
    || [0x18, 0x53, 0x80, 0x67] <= w || [0x16, 0x54, 0xAE, 0x6B] <= w || [0xAE] <= w || [0x1F, 0x43, 0xB6, 0x75] <= w
    || size == 0xFFFF_FFFF_FFFF_FFFF
  }

  /** Where the element behind the first `k + 1` elements begins, or will begin. */
  function NextOffset(m: Machine, k: nat): nat
    requires k < |m.elements|
  {
    if k + 1 < |m.elements| then m.elements[k + 1].offset else m.pos + (if m.c.Copying() then m.c.copyLen else 0)
  }

  /** Which elements are entered: behind each element the next one begins right after its identifier and size if it is
      entered, and after as many bytes more as its size says if it is not. */
  lemma NextElement(s: seq<byte>, k: nat)
    requires OnePass(s).Halted? && k < |OnePass(s).m.elements|
    ensures var m := OnePass(s).m; var e := m.elements[k];
      && m.elements[0].offset == 0 && e.offset <= |s|
      && var w := s[e.offset..]; var id := VarInt(w);
      && id.Parsed? && id.len <= |w| && var size := VarInt(w[id.len..]);
      && size.Parsed?
      && NextOffset(m, k) == e.offset + id.len + size.len + if Entered(w, size.value) then 0 else size.value
  {
    hide Contiguous, EndOf, Tag, ElementSize, Entered, OnePass, NextOffset, Sized;
    OnePassMeaning(s);
    var m := OnePass(s).m;
    NextIs(s, m, k);
    SizedIs(s, m.elements[k]);
  }

  lemma NextIs(s: seq<byte>, m: Machine, k: nat)
    requires Contiguous(s, m.elements) && k < |m.elements|
    requires EndOf(m.elements) == m.pos + (if m.c.Copying() then m.c.copyLen else 0)
    ensures m.elements[0].offset == 0 && Sized(s, m.elements[k])
    ensures NextOffset(m, k) == m.elements[k].offset + m.elements[k].size
  {
    hide Sized;
    assert Sized(s, m.elements[0]) && Sized(s, m.elements[k]);
    assert m.elements[..k + 1][..k] == m.elements[..k];
    assert k + 1 < |m.elements| ==> m.elements[k + 1].offset == EndOf(m.elements[..k + 1]);
    assert k + 1 == |m.elements| ==> m.elements[..k + 1] == m.elements;
  }

  lemma SizedIs(s: seq<byte>, e: Element)
    requires Sized(s, e)
    ensures e.offset <= |s|
    ensures var w := s[e.offset..]; var id := VarInt(w);
      && id.Parsed? && id.len <= |w| && var size := VarInt(w[id.len..]);
      && size.Parsed? && e.size == id.len + size.len + if Entered(w, size.value) then 0 else size.value
  {
    hide Entered, VarInt;
    SizeInWords(s[e.offset..]);
  }

  lemma SizeInWords(w: seq<byte>)
    requires Tag(w).Parsed?
    ensures ElementSize(w) == Tag(w).len + if Entered(w, Tag(w).value) then 0 else Tag(w).value
  {
    MagicInWords(w, SEGMENT);
    MagicInWords(w, TRACKS);
    MagicInWords(w, CLUSTER);
  }

  /** Identifiers that begin with a byte between 0x10 and 0x1F have four bytes. */
  lemma MagicInWords(w: seq<byte>, magic: seq<byte>)
    requires Tag(w).Parsed? && |magic| == 4 && 0x10 <= magic[0] < 0x20
    ensures Magic(w, Tag(w).len, magic) <==> magic <= w
  {
    if magic <= w {
      assert w[0] == magic[0];
      assert VarInt(w).len == 4;
    }
  }
}
