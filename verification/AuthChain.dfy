/** What is to become of a client that has to authenticate: the stacks of authenticators of its mount, of the default
    mount and of the server, and the verdict they come to, in terms of the configuration alone. */
module AuthChain {
  import opened Bytes
  import opened Heap

  datatype Result = Undefined | Ok | Failed | Released | Forbidden | NoMatch | UserAdded | UserExists | UserDeleted

  /** Which stack a client is going through; it says where a result is handled. */
  datatype Stage = Normal | Default | Global

  /** auth_t, as far as it is configuration: the request methods it is for, whether it answers at once, whether it can
      authenticate at all, and the access list that goes with it. */
  datatype Auth = Auth(verbs: set<nat>, immediate: bool, capable: bool, acl: nat)

  /** auth_stack_t */
  datatype Node = Node(auth: nat, next: Ptr)

  /** A client, as far as its authentication depends on it: its request method and administrative command, if any. */
  datatype Request = Request(id: nat, verb: nat, admin: Option<nat>)

  /** The configuration, and the world's answers: which stack there is for a client at each stage, what the
      authenticator at a node says about a client at a stage, and which commands an access list denies. */
  datatype Setup = Setup(nodes: map<Ptr, Node>, depth: Ptr -> nat, height: nat, auths: map<nat, Auth>,
                         stackOf: (nat, Stage) -> Ptr, answer: (nat, Stage, Ptr) -> Result, denied: (nat, nat) -> bool)
  {
    /** Stacks are finite lists of authenticators. */
    ghost predicate Valid() {
      && NULL !in nodes && depth(NULL) == 0
      && (forall p :: p in nodes ==> nodes[p].auth in auths && 0 < depth(p) <= height && depth(nodes[p].next) < depth(p)
                                     && (nodes[p].next != NULL ==> nodes[p].next in nodes))
      && (forall id, stage :: stackOf(id, stage) != NULL ==> stackOf(id, stage) in nodes)
    }

    ghost predicate Stacked(p: Ptr) {
      p == NULL || p in nodes
    }

    /** The nodes from a node on. */
    ghost function Stack(p: Ptr): (list: seq<Ptr>)
      requires Valid() && Stacked(p)
      ensures forall i :: 0 <= i < |list| ==> Asked(list[i])
      decreases depth(p)
    {
      if p == NULL then [] else [p] + Stack(nodes[p].next)
    }

    predicate Asked(p: Ptr) {
      p in nodes && nodes[p].auth in auths
    }

    function AuthAt(p: Ptr): Auth
      requires Asked(p)
    {
      auths[nodes[p].auth]
    }

    /** What the authenticator at a node comes to; one that cannot authenticate fails everybody. */
    function Says(r: Request, stage: Stage, p: Ptr): Result
      requires Asked(p)
    {
      if AuthAt(p).capable then answer(r.id, stage, p) else Failed
    }

    /** The authenticator is for this request and knows about it. */
    predicate Decides(r: Request, stage: Stage, p: Ptr)
      requires Asked(p)
    {
      r.verb in AuthAt(p).verbs && Says(r, stage, p) != NoMatch
    }

    /** Accepted, but for something the access list denies. */
    predicate Overruled(r: Request, res: Result, acl: Option<nat>) {
      res == Ok && r.admin.Some? && acl.Some? && denied(acl.value, r.admin.value)
    }

    // ----- the verdict, as the code goes about it

    function Rank(stage: Stage): nat {
      match stage case Normal => 2 case Default => 1 case Global => 0
    }

    /** The result of a stage is handled: it is final, or the next stage is entered. */
    ghost function After(r: Request, stage: Stage, res: Result, acl: Option<nat>): Option<Result>
      requires Valid()
      decreases Rank(stage), 0, 0
    {
      if stage == Global || (res != NoMatch && !Overruled(r, res, acl)) then Some(res)
      else Entry(r, if stage == Normal then Default else Global)
    }

    /** A stage is entered. Without a global stack the client is forgotten. */
    ghost function Entry(r: Request, stage: Stage): Option<Result>
      requires Valid()
      decreases Rank(stage), 2, 0
    {
      var p := stackOf(r.id, stage);
      if stage == Global && p == NULL then None else Verdict(r, stage, Stack(p))
    }

    /** One authenticator after the other. */
    ghost function Verdict(r: Request, stage: Stage, list: seq<Ptr>): Option<Result>
      requires Valid() && forall i :: 0 <= i < |list| ==> Asked(list[i])
      decreases Rank(stage), 1, |list|
    {
      if list == [] then After(r, stage, NoMatch, None)
      else if Decides(r, stage, list[0]) then After(r, stage, Says(r, stage, list[0]), Some(AuthAt(list[0]).acl))
      else Verdict(r, stage, list[1..])
    }

    lemma NextDiffers(p: Ptr)
      requires Valid() && p in nodes
      ensures nodes[p].next != p && p != NULL && Stacked(nodes[p].next) && nodes[p].auth in auths
    {
      assert depth(nodes[p].next) < depth(p);
    }

    /** At a node the verdict is its authenticator's, or what the rest of the stack says. */
    lemma AtNode(r: Request, stage: Stage, p: Ptr)
      requires Valid() && p in nodes
      ensures Asked(p) && var v, res, next := Verdict(r, stage, Stack(p)), Says(r, stage, p), nodes[p].next;
        if Decides(r, stage, p) then v == After(r, stage, res, if res == Ok then Some(AuthAt(p).acl) else None)
        else v == if next == NULL then After(r, stage, NoMatch, None) else Verdict(r, stage, Stack(next))
    {
      assert Stack(p)[1..] == Stack(nodes[p].next);
    }

    lemma AtEntry(r: Request, stage: Stage)
      requires Valid()
      ensures var p := stackOf(r.id, stage);
        Entry(r, stage) ==
          if p != NULL then Verdict(r, stage, Stack(p))
          else if stage == Global then None
          else After(r, stage, NoMatch, None)
    {
    }

    // ----- the same, put independently of how it is reached

    /** `i` is the first of the authenticators that decides. */
    predicate First(r: Request, stage: Stage, list: seq<Ptr>, i: int)
      requires forall k :: 0 <= k < |list| ==> Asked(list[k])
    {
      0 <= i < |list| && Decides(r, stage, list[i]) && forall k :: 0 <= k < i ==> !Decides(r, stage, list[k])
    }

    /** The stage settles the matter with result `res`. */
    ghost predicate Settles(r: Request, stage: Stage, res: Result)
      requires Valid()
    {
      var list := Stack(stackOf(r.id, stage));
      exists i :: First(r, stage, list, i) && res == Says(r, stage, list[i])
        && (stage != Global ==> !Overruled(r, res, Some(AuthAt(list[i]).acl)))
    }

    lemma {:induction false} VerdictFirst(r: Request, stage: Stage, list: seq<Ptr>)
      requires Valid() && forall k :: 0 <= k < |list| ==> Asked(list[k])
      ensures (forall k :: 0 <= k < |list| ==> !Decides(r, stage, list[k])) ==>
        Verdict(r, stage, list) == After(r, stage, NoMatch, None)
      ensures forall i :: First(r, stage, list, i) ==>
        Verdict(r, stage, list) == After(r, stage, Says(r, stage, list[i]), Some(AuthAt(list[i]).acl))
      decreases |list|
    {
      if list != [] && !Decides(r, stage, list[0]) {
        VerdictFirst(r, stage, list[1..]);
        forall i | First(r, stage, list, i)
          ensures Verdict(r, stage, list) == After(r, stage, Says(r, stage, list[i]), Some(AuthAt(list[i]).acl))
        {
          assert First(r, stage, list[1..], i - 1);
        }
      }
    }

    lemma FirstOrNone(r: Request, stage: Stage, list: seq<Ptr>) returns (i: nat)
      requires forall k :: 0 <= k < |list| ==> Asked(list[k])
      ensures First(r, stage, list, i) || (i == |list| && forall k :: 0 <= k < |list| ==> !Decides(r, stage, list[k]))
    {
      i := 0;
      while i < |list| && !Decides(r, stage, list[i])
        invariant i <= |list| && forall k :: 0 <= k < i ==> !Decides(r, stage, list[k])
      {
        i := i + 1;
      }
    }

    /** A stage that settles the matter does so with its first deciding authenticator; one that does not hands on. */
    lemma StageMeaning(r: Request, stage: Stage)
      requires Valid() && (stage == Global ==> stackOf(r.id, Global) != NULL)
      ensures forall res :: Settles(r, stage, res) ==> Entry(r, stage) == Some(res)
      ensures (forall res :: !Settles(r, stage, res)) ==>
        Entry(r, stage) ==
          if stage == Global then Some(NoMatch) else Entry(r, if stage == Normal then Default else Global)
    {
      var list := Stack(stackOf(r.id, stage));
      VerdictFirst(r, stage, list);
      var i := FirstOrNone(r, stage, list);
      if i < |list| {
        forall k | First(r, stage, list, k)
          ensures k == i
        {
        }
        if stage == Global || !Overruled(r, Says(r, stage, list[i]), Some(AuthAt(list[i]).acl)) {
          assert Settles(r, stage, Says(r, stage, list[i]));
        }
      }
    }

    /** No authenticator of the stage settles the matter. */
    ghost predicate Passes(r: Request, stage: Stage)
      requires Valid()
    {
      forall res :: !Settles(r, stage, res)
    }

    /** The verdict: that of the first stage that settles the matter, in the order normal, default, global; NOMATCH if
        none does; and none at all if it comes to the global stage and there is no such stack. */
    lemma VerdictMeaning(r: Request, res: Result)
      requires Valid()
      ensures Settles(r, Normal, res) ==> Entry(r, Normal) == Some(res)
      ensures Passes(r, Normal) && Settles(r, Default, res) ==> Entry(r, Normal) == Some(res)
      ensures Passes(r, Normal) && Passes(r, Default) ==>
        if stackOf(r.id, Global) == NULL then Entry(r, Normal) == None
        else (Settles(r, Global, res) ==> Entry(r, Normal) == Some(res))
             && (Passes(r, Global) ==> Entry(r, Normal) == Some(NoMatch))
    {
      hide Settles;
      StageMeaning(r, Normal);
      StageMeaning(r, Default);
      if stackOf(r.id, Global) != NULL {
        StageMeaning(r, Global);
      } else {
        AtEntry(r, Global);
      }
    }

    // ----- the same in terms of the configuration and the answers only

    /** `list` is the stack of the stage, node by node. */
    ghost predicate IsStack(r: Request, stage: Stage, list: seq<Ptr>) {
      && list != [] && list[0] == stackOf(r.id, stage)
      && (forall i :: 0 <= i < |list| ==> list[i] in nodes && nodes[list[i]].auth in auths)
      && (forall i {:trigger list[i]} :: 0 < i < |list| ==> list[i] == nodes[list[i - 1]].next)
      && nodes[list[|list| - 1]].next == NULL
    }

    /** The authenticator at `p` is not for the method, or does not know the client. */
    predicate Passed(r: Request, stage: Stage, p: Ptr)
      requires p in nodes && nodes[p].auth in auths
    {
      var a := auths[nodes[p].auth];
      r.verb !in a.verbs || (a.capable && answer(r.id, stage, p) == NoMatch)
    }

    lemma {:induction false} StackIs(r: Request, stage: Stage, list: seq<Ptr>, i: nat)
      requires Valid() && IsStack(r, stage, list) && i < |list|
      ensures Stack(list[i]) == list[i..]
      decreases |list| - i
    {
      assert list[i] != NULL;
      if i + 1 < |list| {
        StackIs(r, stage, list, i + 1);
        assert nodes[list[i]].next == list[i + 1];
        assert list[i..] == [list[i]] + list[i + 1..];
      } else {
        assert list[i..] == [list[i]];
        assert Stack(NULL) == [];
      }
    }

    /** What the first authenticator that is for the method and knows the client comes to is the verdict: the code goes
        on to the next stage only from an acceptance of a command that its access list denies, and from the last stage
        not even then. */
    lemma DeciderSettles(r: Request, stage: Stage, list: seq<Ptr>, i: nat)
      requires Valid() && IsStack(r, stage, list) && i < |list|
      requires (forall k :: 0 <= k < i ==> Passed(r, stage, list[k])) && !Passed(r, stage, list[i])
      ensures var a := auths[nodes[list[i]].auth];
        var res := if a.capable then answer(r.id, stage, list[i]) else Failed;
        Entry(r, stage) ==
          if stage != Global && res == Ok && r.admin.Some? && denied(a.acl, r.admin.value)
          then Entry(r, if stage == Normal then Default else Global)
          else Some(res)
    {
      StackIs(r, stage, list, 0);
      assert list[0..] == list;
      VerdictFirst(r, stage, list);
      assert First(r, stage, list, i);
    }

    /** A stage without such an authenticator hands on, or finds no match if it is the last one. */
    lemma NobodySettles(r: Request, stage: Stage, list: seq<Ptr>)
      requires Valid() && IsStack(r, stage, list) && forall k :: 0 <= k < |list| ==> Passed(r, stage, list[k])
      ensures Entry(r, stage) ==
        if stage == Global then Some(NoMatch) else Entry(r, if stage == Normal then Default else Global)
    {
      StackIs(r, stage, list, 0);
      assert list[0..] == list;
      VerdictFirst(r, stage, list);
    }

    /** And so does one without a stack; without a global stack the client is forgotten. */
    lemma NoStack(r: Request, stage: Stage)
      requires Valid() && stackOf(r.id, stage) == NULL
      ensures Entry(r, stage) == if stage == Global then None else Entry(r, if stage == Normal then Default else Global)
    {
      AtEntry(r, stage);
    }

    /** There is one, node by node, unless there is no stack. */
    lemma StackExists(r: Request, stage: Stage)
      requires Valid() && stackOf(r.id, stage) != NULL
      ensures IsStack(r, stage, Stack(stackOf(r.id, stage)))
    {
      hide Asked;
      var p := stackOf(r.id, stage);
      var list := Stack(p);
      assert list[0] == p;
      StackLinked(p);
    }

    lemma StackLinked(p: Ptr)
      requires Valid() && p in nodes
      ensures var list := Stack(p);
        && list != [] && (forall i :: 0 <= i < |list| ==> list[i] in nodes && nodes[list[i]].auth in auths)
        && (forall i {:trigger list[i]} :: 0 < i < |list| ==> list[i] == nodes[list[i - 1]].next)
        && nodes[list[|list| - 1]].next == NULL
    {
      var list := Stack(p);
      forall i | 0 < i < |list|
        ensures list[i] == nodes[list[i - 1]].next
      {
        NextInStack(p, i - 1);
      }
      NextInStack(p, |list| - 1);
    }

    // ----- how far a client has come

    /** The client has come to node `p` of the stack of the stage: no authenticator before it has decided. */
    ghost predicate Reached(r: Request, stage: Stage, p: Ptr)
      requires Valid()
    {
      var list := Stack(stackOf(r.id, stage));
      exists i :: 0 <= i < |list| && list[i] == p && forall k :: 0 <= k < i ==> !Decides(r, stage, list[k])
    }

    lemma ReachedTop(r: Request, stage: Stage)
      requires Valid() && stackOf(r.id, stage) != NULL
      ensures Reached(r, stage, stackOf(r.id, stage))
    {
      var list := Stack(stackOf(r.id, stage));
      assert list[0] == stackOf(r.id, stage);
    }

    lemma {:induction false} NextInStack(p: Ptr, i: nat)
      requires Valid() && Stacked(p) && i < |Stack(p)|
      ensures Stack(p)[i] in nodes
      ensures nodes[Stack(p)[i]].next == if i + 1 < |Stack(p)| then Stack(p)[i + 1] else NULL
      decreases i
    {
      var next := nodes[p].next;
      if i > 0 {
        NextInStack(next, i - 1);
      } else if next != NULL {
        assert Stack(next)[0] == next;
      }
    }

    lemma ReachedNext(r: Request, stage: Stage, p: Ptr)
      requires Valid() && Reached(r, stage, p) && p in nodes && Asked(p) && !Decides(r, stage, p)
      ensures nodes[p].next != NULL ==> Reached(r, stage, nodes[p].next)
    {
      var list := Stack(stackOf(r.id, stage));
      var i :| 0 <= i < |list| && list[i] == p && forall k :: 0 <= k < i ==> !Decides(r, stage, list[k]);
      NextInStack(stackOf(r.id, stage), i);
      if nodes[p].next != NULL {
        assert list[i + 1] == nodes[p].next;
      }
    }

    /** The acceptance a client has is that of the first authenticator that decides, and `acl` goes with it. */
    ghost predicate Accepted(r: Request, stage: Stage, acl: Option<nat>)
      requires Valid()
    {
      var list := Stack(stackOf(r.id, stage));
      exists i :: First(r, stage, list, i) && Says(r, stage, list[i]) == Ok && acl == Some(AuthAt(list[i]).acl)
    }

    lemma AcceptedAt(r: Request, stage: Stage, p: Ptr)
      requires Valid() && Reached(r, stage, p) && p in nodes && Asked(p)
      requires Decides(r, stage, p) && Says(r, stage, p) == Ok
      ensures Accepted(r, stage, Some(AuthAt(p).acl))
    {
      var list := Stack(stackOf(r.id, stage));
      var i :| 0 <= i < |list| && list[i] == p && forall k :: 0 <= k < i ==> !Decides(r, stage, list[k]);
      assert First(r, stage, list, i);
    }
  }
}
