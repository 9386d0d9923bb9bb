/** Explicit memory: a map from addresses to what lies there, from which freeing takes an address away. */
module Heap {

  /** An address; NULL is 0. */
  type Ptr = nat
  const NULL: Ptr := 0

  /** Some address that is not in use. */
  method Malloc<T>(mem: map<Ptr, T>) returns (p: Ptr)
    ensures p != NULL && p !in mem
  {
    p := 1;
    ghost var seen: set<Ptr> := {};
    while p in mem
      invariant p != NULL && seen <= mem.Keys && forall q :: q in seen ==> q < p
      decreases |mem.Keys - seen|
    {
      assert p in mem.Keys - seen;
      seen := seen + {p};
      assert mem.Keys - seen < mem.Keys - (seen - {p});
      p := p + 1;
    }
  }

  predicate Distinct(s: seq<Ptr>) {
    forall i, j :: 0 <= i < j < |s| ==> s[i] != s[j]
  }
}
