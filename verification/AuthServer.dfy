/** The server's side of authentication: callbacks that hand a client on from authenticator to authenticator, queues
    worked off by one thread each, and reference counts on authenticators and stack nodes. */
module AuthServer {
  import opened Bytes
  import opened Heap
  import opened AuthChain

  const MAX_PENDING: nat := 100

  /** Where a client is: being handled, waiting for an authenticator, done with, turned away because an authenticator
      had too many waiting, or forgotten. */
  datatype Where = Running | Queued(auth: nat) | Arrived(result: Result) | Refused | Lost

  /** client_t. `stage` says which callback handles its result; `where` and `arrivals` are history. */
  datatype Client = Client(req: Request, stage: Stage, authstack: Ptr, auth: Option<nat>, acl: Option<nat>,
                           where: Where, arrivals: nat)

  datatype State = State(nodeRefs: map<Ptr, int>, authRefs: map<nat, int>, queues: map<nat, seq<nat>>,
                         clients: map<nat, Client>)

  function One(b: bool): int {
    if b then 1 else 0
  }

  /** Every reference counted is one that is held elsewhere, or the client's. */
  ghost predicate Level(st: State, st': State, id: nat)
    requires id in st.clients && id in st'.clients
  {
    var c, c' := st.clients[id], st'.clients[id];
    && st'.nodeRefs.Keys == st.nodeRefs.Keys && st'.authRefs.Keys == st.authRefs.Keys
    && (forall p :: p in st.nodeRefs ==>
          st'.nodeRefs[p] - One(c'.authstack == p) == st.nodeRefs[p] - One(c.authstack == p))
    && (forall a :: a in st.authRefs ==>
          st'.authRefs[a] - One(c'.auth == Some(a)) == st.authRefs[a] - One(c.auth == Some(a)))
  }

  ghost predicate OthersSame(st: State, st': State, id: nat) {
    st'.clients.Keys == st.clients.Keys && forall d :: d in st.clients && d != id ==> st'.clients[d] == st.clients[d]
  }

  /** Client `id` is being handled, and somebody else holds every authenticator and stack node as well. */
  ghost predicate Ready(s: Setup, st: State, id: nat) {
    && s.Valid() && id in st.clients
    && st.nodeRefs.Keys == s.nodes.Keys && st.authRefs.Keys == s.auths.Keys && st.queues.Keys == s.auths.Keys
    && var c := st.clients[id];
    && c.where == Running && c.req.id == id && s.Stacked(c.authstack) && (c.auth.Some? ==> c.auth.value in s.auths)
    && (c.authstack != NULL ==> s.Reached(c.req, c.stage, c.authstack))
    && (forall p :: p in s.nodes ==> st.nodeRefs[p] - One(c.authstack == p) >= 1)
    && (forall a :: a in s.auths ==> st.authRefs[a] - One(c.auth == Some(a)) >= 1)
  }

  /** The client is still being handled, and only it is concerned. */
  ghost predicate Stepped(s: Setup, st: State, st': State, id: nat) {
    && Ready(s, st, id) && Ready(s, st', id) && OthersSame(st, st', id) && Level(st, st', id)
    && st'.queues == st.queues
    && st'.clients[id].req == st.clients[id].req && st'.clients[id].arrivals == st.clients[id].arrivals
  }

  /** The client has been handled as far as can be now: it has arrived with the verdict `want`, or waits for an
      authenticator that decides, and whose word will lead to that verdict; or it was turned away. It is forgotten
      only if there is no verdict. */
  ghost predicate Progressed(s: Setup, st: State, st': State, id: nat, want: Option<Result>) {
    && Ready(s, st, id) && id in st'.clients && OthersSame(st, st', id) && Level(st, st', id)
    && var c, c' := st.clients[id], st'.clients[id];
    && c'.req == c.req && s.Stacked(c'.authstack) && (c'.auth.Some? ==> c'.auth.value in s.auths)
    && match c'.where
       case Running => false
       case Queued(a) =>
         a in st.queues && st'.queues == st.queues[a := st.queues[a] + [id]] && c'.arrivals == c.arrivals
         && Waiting(s, c', a, want)
       case Arrived(r) =>
         st'.queues == st.queues && c'.arrivals == c.arrivals + 1 && want == Some(r) && c'.authstack == NULL
         && (r == Ok ==> Granted(s, c'))
       case Refused =>
         st'.queues == st.queues && c'.arrivals == c.arrivals
         && c'.authstack in s.nodes && s.nodes[c'.authstack].auth in st.queues
         && |st.queues[s.nodes[c'.authstack].auth]| > 100
       case Lost =>
         st'.queues == st.queues && c'.arrivals == c.arrivals && want == None && c'.authstack == NULL
  }

  /** The access list the client holds is that of the authenticator that accepted it, and does not deny what it asks
      for, unless that was the server's own stack. */
  ghost predicate Granted(s: Setup, c: Client) {
    && s.Valid() && s.Accepted(c.req, c.stage, c.acl)
    && (c.stage != Global && c.req.admin.Some? ==> c.acl.Some? && !s.denied(c.acl.value, c.req.admin.value))
  }

  /** The client is at the node of the authenticator it waits for, one that is for requests like its own. */
  ghost predicate Waiting(s: Setup, c: Client, a: nat, want: Option<Result>) {
    && s.Valid() && c.authstack in s.nodes && s.nodes[c.authstack].auth == a && a in s.auths
    && c.req.verb in s.auths[a].verbs && !s.auths[a].immediate && c.auth == Some(a)
    && s.Reached(c.req, c.stage, c.authstack)
    && want == s.Verdict(c.req, c.stage, s.Stack(c.authstack))
  }

  /** The client is no further back than stack node `p` of stage `stage`. */
  predicate Behind(s: Setup, stage: Stage, p: Ptr, c: Client) {
    c.where.Queued? ==>
      s.Rank(c.stage) < s.Rank(stage) || (c.stage == stage && s.depth(c.authstack) <= s.depth(p))
  }

  lemma Then(s: Setup, st: State, st1: State, st2: State, id: nat, want: Option<Result>)
    requires Stepped(s, st, st1, id) && Progressed(s, st1, st2, id, want)
    ensures Progressed(s, st, st2, id, want)
  {
  }

  /** The client's stack node is another one, and the counts have followed. */
  lemma NodeStep(s: Setup, st: State, st': State, id: nat, q: Ptr)
    requires Ready(s, st, id) && s.Stacked(q)
    requires q != NULL ==> s.Reached(st.clients[id].req, st.clients[id].stage, q)
    requires st' == st.(nodeRefs := st'.nodeRefs, clients := st.clients[id := st.clients[id].(authstack := q)])
    requires st'.nodeRefs.Keys == st.nodeRefs.Keys
    requires forall p :: p in st.nodeRefs ==>
      st'.nodeRefs[p] == st.nodeRefs[p] - One(st.clients[id].authstack == p) + One(q == p)
    ensures Stepped(s, st, st', id)
  {
    hide Setup.Valid, Setup.Reached;
  }

  /** Likewise with its authenticator. */
  lemma AuthStep(s: Setup, st: State, st': State, id: nat, a: Option<nat>)
    requires Ready(s, st, id) && (a.Some? ==> a.value in s.auths)
    requires st' == st.(authRefs := st'.authRefs, clients := st.clients[id := st.clients[id].(auth := a)])
    requires st'.authRefs.Keys == st.authRefs.Keys
    requires forall b :: b in st.authRefs ==>
      st'.authRefs[b] == st.authRefs[b] - One(st.clients[id].auth == Some(b)) + One(a == Some(b))
    ensures Stepped(s, st, st', id)
  {
    hide Setup.Valid, Setup.Reached;
  }

  lemma Holding(s: Setup, st: State, id: nat)
    requires Ready(s, st, id)
    ensures var c := st.clients[id];
      && (c.authstack != NULL ==> c.authstack in st.nodeRefs && st.nodeRefs[c.authstack] > 1)
      && (c.auth.Some? ==> c.auth.value in st.authRefs && st.authRefs[c.auth.value] > 1)
      && NULL !in st.nodeRefs && st.nodeRefs.Keys == s.nodes.Keys && st.authRefs.Keys == s.auths.Keys
  {
  }

  class Server {
    const s: Setup
    var nodeRefs: map<Ptr, int>
    var authRefs: map<nat, int>
    var queues: map<nat, seq<nat>>
    var clients: map<nat, Client>

    ghost function View(): State
      reads this
    {
      State(nodeRefs, authRefs, queues, clients)
    }

    /** The references held by configuration, which do not change. */
    const nodeBase: map<Ptr, nat>
    const authBase: map<nat, nat>

    ghost predicate Valid()
      reads this
    {
      Inv(s, nodeBase, authBase, View())
    }

    constructor (s: Setup, nodeBase: map<Ptr, nat>, authBase: map<nat, nat>)
      requires s.Valid() && nodeBase.Keys == s.nodes.Keys && authBase.Keys == s.auths.Keys
      requires (forall p :: p in nodeBase ==> nodeBase[p] >= 1) && forall a :: a in authBase ==> authBase[a] >= 1
      ensures Valid() && this.s == s && clients == map[]
    {
      this.s, this.nodeBase, this.authBase := s, nodeBase, authBase;
      nodeRefs := map p | p in nodeBase :: nodeBase[p] as int;
      authRefs := map a | a in authBase :: authBase[a] as int;
      queues := map a | a in authBase :: [];
      clients := map[];
      new;
      assert forall p :: OnNode(clients, p) == {};
      assert forall a :: OnAuth(clients, a) == {};
    }

    // ----- reference counts

    method AuthAddref(a: nat)
      requires a in authRefs
      modifies this`authRefs
      ensures authRefs == old(authRefs)[a := old(authRefs)[a] + 1]
    {
      authRefs := authRefs[a := authRefs[a] + 1];
    }

    /** The last release would free the authenticator; here it never is the last. */
    method AuthRelease(a: Option<nat>)
      requires a.Some? ==> a.value in authRefs && authRefs[a.value] > 1
      modifies this`authRefs
      ensures authRefs == if a.Some? then old(authRefs)[a.value := old(authRefs)[a.value] - 1] else old(authRefs)
    {
      if a.Some? {
        authRefs := authRefs[a.value := authRefs[a.value] - 1];
      }
    }

    method AuthStackAddref(p: Ptr)
      requires p != NULL ==> p in nodeRefs
      modifies this`nodeRefs
      ensures nodeRefs == if p != NULL then old(nodeRefs)[p := old(nodeRefs)[p] + 1] else old(nodeRefs)
    {
      if p != NULL {
        nodeRefs := nodeRefs[p := nodeRefs[p] + 1];
      }
    }

    method AuthStackRelease(p: Ptr)
      requires p != NULL ==> p in nodeRefs && nodeRefs[p] > 1
      modifies this`nodeRefs
      ensures nodeRefs == if p != NULL then old(nodeRefs)[p := old(nodeRefs)[p] - 1] else old(nodeRefs)
    {
      if p != NULL {
        nodeRefs := nodeRefs[p := nodeRefs[p] - 1];
      }
    }

    /** The client's stack is let go of. */
    method DropStack(id: nat)
      requires Ready(s, View(), id)
      modifies this`nodeRefs, this`clients
      ensures Stepped(s, old(View()), View(), id) && clients[id] == old(clients[id]).(authstack := NULL)
    {
      ghost var st := View();
      Holding(s, st, id);
      AuthStackRelease(clients[id].authstack);
      clients := clients[id := clients[id].(authstack := NULL)];
      NodeStep(s, st, View(), id, NULL);
    }

    /** auth_stack_next on the client's stack. */
    method AuthStackNext(id: nat)
      requires Ready(s, View(), id) && clients[id].authstack in s.nodes
      requires s.Asked(clients[id].authstack) && !s.Decides(clients[id].req, clients[id].stage, clients[id].authstack)
      modifies this`nodeRefs, this`clients
      ensures Stepped(s, old(View()), View(), id)
      ensures clients[id] == old(clients[id]).(authstack := s.nodes[old(clients[id]).authstack].next)
    {
      ghost var st := View();
      Holding(s, st, id);
      var p := clients[id].authstack;
      var next := s.nodes[p].next;
      s.NextDiffers(p);
      s.ReachedNext(clients[id].req, clients[id].stage, p);
      hide Ready, Setup.Valid, Setup.Reached;
      AuthStackAddref(next);
      AuthStackRelease(p);
      clients := clients[id := clients[id].(authstack := next)];
      NodeStep(s, st, View(), id, next);
    }

    /** The client is given another authenticator, or none. */
    method SetAuth(id: nat, a: Option<nat>)
      requires Ready(s, View(), id) && (a.Some? ==> a.value in s.auths)
      modifies this`authRefs, this`clients
      ensures Stepped(s, old(View()), View(), id) && clients[id] == old(clients[id]).(auth := a)
    {
      ghost var st := View();
      Holding(s, st, id);
      AuthRelease(clients[id].auth);
      if a.Some? {
        AuthAddref(a.value);
      }
      clients := clients[id := clients[id].(auth := a)];
      AuthStep(s, st, View(), id, a);
    }

    // ----- the chain of callbacks

    function Rank(id: nat): nat
      requires id in clients
      reads this
    {
      s.Rank(clients[id].stage)
    }

    /** What is to become of the client with the authenticators from `stack` on. */
    ghost function From(id: nat, stack: Ptr): Option<Result>
      requires id in clients && s.Valid() && s.Stacked(stack)
      reads this
    {
      s.Verdict(clients[id].req, clients[id].stage, s.Stack(stack))
    }

    /** The client goes through a stack, to which it holds a reference. */
    method EnterStack(id: nat, stack: Ptr)
      requires Ready(s, View(), id) && stack in s.nodes && clients[id].authstack in {NULL, stack}
      requires s.Reached(clients[id].req, clients[id].stage, stack)
      modifies this`nodeRefs, this`clients
      ensures Stepped(s, old(View()), View(), id) && clients[id] == old(clients[id]).(authstack := stack)
    {
      if clients[id].authstack == NULL {
        AuthStackAddref(stack);
      }
      clients := clients[id := clients[id].(authstack := stack)];
    }

    /** auth_stack_add_client. Without a stack nothing happens at all, and the client is forgotten. */
    method AuthStackAddClient(id: nat, stack: Ptr)
      requires Ready(s, View(), id) && s.Stacked(stack) && clients[id].authstack in {NULL, stack}
      requires stack != NULL ==> s.Reached(clients[id].req, clients[id].stage, stack)
      modifies this
      ensures Progressed(s, old(View()), View(), id, if stack == NULL then None else old(From(id, stack)))
      ensures Behind(s, old(clients[id].stage), stack, clients[id])
      decreases Rank(id), s.depth(stack), 4
    {
      hide Stepped, Progressed, Level, Waiting, Setup.Verdict, Setup.Stack, Setup.After, Setup.Entry, Setup.Reached,
        Setup.Accepted;
      ghost var st := View();
      if stack == NULL || (clients[id].authstack != NULL && clients[id].authstack != stack) {
        clients := clients[id := clients[id].(where := Lost)];
        Forgotten(s, st, id);
        return;
      }
      ghost var want := From(id, stack);
      EnterStack(id, stack);
      ghost var st1 := View();
      SteppedReady(s, st, st1, id);
      AskTop(id);
      Then(s, st, st1, View(), id, want);
    }

    /** auth_stack_get, and the authenticator is to see to the client. */
    method AskTop(id: nat)
      requires Ready(s, View(), id) && clients[id].authstack in s.nodes
      modifies this
      ensures Progressed(s, old(View()), View(), id, old(From(id, clients[id].authstack)))
      ensures Behind(s, old(clients[id].stage), old(clients[id].authstack), clients[id])
      decreases Rank(id), s.depth(clients[id].authstack), 3, 1
    {
      hide Stepped, Progressed, Level, Waiting, Setup.Verdict, Setup.Stack, Setup.After, Setup.Entry, Setup.Reached,
        Setup.Accepted;
      ghost var st, want := View(), From(id, clients[id].authstack);
      var auth := s.nodes[clients[id].authstack].auth;
      AuthAddref(auth);
      ghost var st1 := View();
      BorrowAuth(s, st, id, auth);
      AuthAddClient(id, auth);
      ReturnAuth(s, st, st1, View(), id, auth, want);
      AuthRelease(Some(auth));
    }

    /** auth_add_client */
    method AuthAddClient(id: nat, auth: nat)
      requires Ready(s, View(), id) && clients[id].authstack in s.nodes && s.nodes[clients[id].authstack].auth == auth
      modifies this
      ensures Progressed(s, old(View()), View(), id, old(From(id, clients[id].authstack)))
      ensures |old(queues[auth])| > 100 ==> clients[id] == old(clients[id]).(where := Refused)
      ensures |old(queues[auth])| <= 100 && old(clients[id].req.verb) in s.auths[auth].verbs
              && !s.auths[auth].immediate ==>
        clients[id] == old(clients[id]).(auth := Some(auth), where := Queued(auth))
      ensures Behind(s, old(clients[id].stage), old(clients[id].authstack), clients[id])
      decreases Rank(id), s.depth(clients[id].authstack), 3, 0
    {
      hide Stepped, Progressed, Level, Waiting, Setup.Verdict, Setup.Stack, Setup.After, Setup.Entry, Setup.Reached,
        Setup.Accepted;
      ghost var st, want := View(), From(id, clients[id].authstack);
      if |queues[auth]| > MAX_PENDING {
        clients := clients[id := clients[id].(where := Refused)];
        TurnedAway(s, st, id, auth, want);
        return;
      }
      if clients[id].req.verb !in s.auths[auth].verbs {
        MoveForward(id);
        return;
      }
      SetAuth(id, Some(auth));
      ghost var st1 := View();
      SteppedReady(s, st, st1, id);
      if s.auths[auth].immediate {
        HandleAuthClient(id, auth);
      } else {
        queues := queues[auth := queues[auth] + [id]];
        clients := clients[id := clients[id].(where := Queued(auth))];
        Enqueued(s, st1, id, auth);
      }
      Then(s, st, st1, View(), id, want);
    }

    /** The on_no_match callback: on to the next authenticator, or the stack has no match. */
    method MoveForward(id: nat)
      requires Ready(s, View(), id) && clients[id].authstack in s.nodes
      requires s.Asked(clients[id].authstack) && !s.Decides(clients[id].req, clients[id].stage, clients[id].authstack)
      modifies this
      ensures Progressed(s, old(View()), View(), id, old(From(id, clients[id].authstack)))
      ensures Behind(s, old(clients[id].stage), s.nodes[old(clients[id]).authstack].next, clients[id])
      decreases Rank(id), s.depth(clients[id].authstack), 0
    {
      hide Stepped, Progressed, Level, Setup.Verdict, Setup.Stack, Setup.Reached, Setup.Accepted;
      ghost var st, want := View(), From(id, clients[id].authstack);
      s.AtNode(clients[id].req, clients[id].stage, clients[id].authstack);
      AuthStackNext(id);
      ghost var st1 := View();
      SteppedReady(s, st, st1, id);
      if clients[id].authstack != NULL {
        AuthStackAddClient(id, clients[id].authstack);
      } else {
        OnResult(id, NoMatch);
      }
      Then(s, st, st1, View(), id, want);
    }

    /** __handle_auth_client with auth_new_client: the authenticator is asked. Unless it accepts the client it is let
        go of. */
    method HandleAuthClient(id: nat, auth: nat)
      requires Ready(s, View(), id) && clients[id].auth == Some(auth)
      requires clients[id].authstack in s.nodes && s.nodes[clients[id].authstack].auth == auth
      requires clients[id].req.verb in s.auths[auth].verbs
      modifies this
      ensures Progressed(s, old(View()), View(), id, old(From(id, clients[id].authstack)))
      ensures Behind(s, old(clients[id].stage), s.nodes[old(clients[id]).authstack].next, clients[id])
      decreases Rank(id), s.depth(clients[id].authstack), 2
    {
      hide Stepped, Progressed, Level, Setup.Verdict, Setup.Stack, Setup.Reached, Setup.Accepted;
      ghost var st, want := View(), From(id, clients[id].authstack);
      s.AtNode(clients[id].req, clients[id].stage, clients[id].authstack);
      var result := Failed;
      if s.auths[auth].capable {
        result := s.answer(id, clients[id].stage, clients[id].authstack);
        if result != Ok {
          SetAuth(id, None);
        } else {
          StandStill(s, st, id);
        }
      } else {
        StandStill(s, st, id);
      }
      ghost var st1 := View();
      SteppedReady(s, st, st1, id);
      if result == Ok {
        s.AcceptedAt(clients[id].req, clients[id].stage, clients[id].authstack);
        clients := clients[id := clients[id].(acl := Some(s.auths[auth].acl))];
        AclSet(s, st, st1, View(), id);
      }
      ghost var st2 := View();
      SteppedReady(s, st, st2, id);
      if result == NoMatch {
        MoveForward(id);
      } else {
        OnResult(id, result);
      }
      Then(s, st, st2, View(), id, want);
    }

    /** The on_result callback of the stage the client is at: _handle_authentication_mount_default for the mount's own
        stack, _handle_authentication_global for the default mount's, _handle_authed_client for the global one. */
    method OnResult(id: nat, result: Result)
      requires Ready(s, View(), id)
      requires result == Ok ==> clients[id].acl.Some? && s.Accepted(clients[id].req, clients[id].stage, clients[id].acl)
      modifies this
      ensures Progressed(s, old(View()), View(), id,
        old(s.After(clients[id].req, clients[id].stage, result, if result == Ok then clients[id].acl else None)))
      ensures clients[id].where.Queued? ==> s.Rank(clients[id].stage) < old(Rank(id))
      decreases Rank(id), 0, 5
    {
      hide Stepped, Progressed, Level, Setup.Verdict, Setup.Stack, Setup.Reached, Setup.Accepted;
      if clients[id].stage == Global {
        HandleAuthedClient(id, result);
        return;
      }
      ghost var st := View();
      DropStack(id);
      ghost var st1 := View();
      SteppedReady(s, st, st1, id);
      var c := clients[id];
      ghost var want := s.After(c.req, c.stage, result, if result == Ok then c.acl else None);
      if result != NoMatch && !(result == Ok && c.req.admin.Some? && s.denied(c.acl.value, c.req.admin.value)) {
        HandleAuthedClient(id, result);
      } else if c.stage == Normal {
        TryMount(id, Default);
      } else {
        TryGlobal(id);
      }
      Then(s, st, st1, View(), id, want);
    }

    /** The server's own stack, the last resort. */
    method TryGlobal(id: nat)
      requires Ready(s, View(), id) && clients[id].authstack == NULL
      modifies this
      ensures Progressed(s, old(View()), View(), id, old(s.Entry(clients[id].req, Global)))
      ensures clients[id].where.Queued? ==> s.Rank(clients[id].stage) <= s.Rank(Global)
      decreases s.Rank(Global), s.height + 1, 0
    {
      hide Stepped, Progressed, Level, Setup.Verdict, Setup.Stack, Setup.After, Setup.Entry, Setup.Reached,
        Setup.Accepted;
      ghost var st, want := View(), s.Entry(clients[id].req, Global);
      clients := clients[id := clients[id].(stage := Global)];
      StageSet(s, st, id, Global);
      if s.stackOf(id, Global) != NULL {
        s.ReachedTop(clients[id].req, Global);
      }
      s.AtEntry(clients[id].req, Global);
      ghost var st1 := View();
      AuthStackAddClient(id, s.stackOf(id, Global));
      Then(s, st, st1, View(), id, want);
    }

    /** _handle_authentication_mount_generic: the stack of a mount, if there is one. */
    method TryMount(id: nat, stage: Stage)
      requires Ready(s, View(), id) && clients[id].authstack == NULL && stage != Global
      modifies this
      ensures Progressed(s, old(View()), View(), id, old(s.Entry(clients[id].req, stage)))
      ensures clients[id].where.Queued? ==> s.Rank(clients[id].stage) <= s.Rank(stage)
      decreases s.Rank(stage), s.height + 1, 0
    {
      hide Stepped, Progressed, Level, Setup.Verdict, Setup.Stack, Setup.After, Setup.Entry, Setup.Reached,
        Setup.Accepted;
      ghost var st, want := View(), s.Entry(clients[id].req, stage);
      clients := clients[id := clients[id].(stage := stage)];
      StageSet(s, st, id, stage);
      s.AtEntry(clients[id].req, stage);
      ghost var st1 := View();
      var stack := s.stackOf(id, stage);
      if stack != NULL {
        s.ReachedTop(clients[id].req, stage);
        OfferStack(id, stack);
      } else {
        OnResult(id, NoMatch);
      }
      Then(s, st, st1, View(), id, want);
    }

    /** A reference to the stack is held while the client is put on it. */
    method OfferStack(id: nat, stack: Ptr)
      requires Ready(s, View(), id) && clients[id].authstack == NULL && stack in s.nodes
      requires s.Reached(clients[id].req, clients[id].stage, stack)
      modifies this
      ensures Progressed(s, old(View()), View(), id, old(From(id, stack)))
      ensures Behind(s, old(clients[id].stage), stack, clients[id])
      decreases Rank(id), s.depth(stack), 5
    {
      hide Stepped, Progressed, Level, Setup.Verdict, Setup.Stack, Setup.After, Setup.Entry, Setup.Reached,
        Setup.Accepted;
      ghost var st, want := View(), From(id, stack);
      AuthStackAddref(stack);
      ghost var st1 := View();
      BorrowNode(s, st, id, stack);
      AuthStackAddClient(id, stack);
      ReturnNode(s, st, st1, View(), id, stack, want);
      AuthStackRelease(stack);
    }

    /** _handle_authed_client: the client has arrived. */
    method HandleAuthedClient(id: nat, result: Result)
      requires Ready(s, View(), id) && (result == Ok ==> Granted(s, clients[id]))
      modifies this`nodeRefs, this`clients
      ensures Progressed(s, old(View()), View(), id, Some(result))
      ensures clients[id].where.Arrived?
    {
      DropStack(id);
      clients := clients[id := clients[id].(where := Arrived(result), arrivals := clients[id].arrivals + 1)];
    }

    // ----- what happens, in any order

    /** A client begins to authenticate: _handle_authentication. */
    method Authenticate(id: nat, verb: nat, admin: Option<nat>)
      requires Valid() && id !in clients
      modifies this
      ensures Valid() && clients.Keys == old(clients.Keys) + {id}
      ensures clients[id].req == Request(id, verb, admin)
      ensures forall d :: d in old(clients) ==> clients[d] == old(clients[d])
    {
      hide Inv, InvBut, Progressed, Ready, Setup.Verdict, Setup.Stack, Setup.After, Setup.Entry, Setup.Reached,
        Setup.Accepted;
      ghost var st := View();
      var c := Client(Request(id, verb, admin), Normal, NULL, None, None, Running, 0);
      clients := clients[id := c];
      ghost var st1 := View();
      Begins(s, nodeBase, authBase, st, id, c);
      TryMount(id, Normal);
      OthersKept(s, st1, View(), id, s.Entry(c.req, Normal));
      Goes(s, nodeBase, authBase, st1, View(), id);
    }

    /** An iteration of auth_run_thread: the client that has waited longest is seen to. It moves on in its stacks, or is
        done with. */
    method RunThread(a: nat)
      requires Valid() && a in queues
      modifies this
      ensures Valid() && clients.Keys == old(clients.Keys)
      ensures old(queues[a]) == [] ==> View() == old(View())
      ensures old(queues[a]) != [] ==>
        var id := old(queues[a][0]); id in clients && var c, c' := old(clients[id]), clients[id];
        && c'.req == c.req && (forall d :: d in clients && d != id ==> clients[d] == old(clients[d]))
        && (c'.where.Queued? ==> s.Rank(c'.stage) < s.Rank(c.stage)
                                 || (c'.stage == c.stage && s.depth(c'.authstack) < s.depth(c.authstack)))
    {
      hide Inv, InvBut, Progressed, Ready, Waiting, Setup.Verdict, Setup.Stack, Setup.After, Setup.Entry, Setup.Reached,
        Setup.Accepted;
      if queues[a] == [] {
        return;
      }
      ghost var st := View();
      Taken(s, nodeBase, authBase, st, a);
      var id := queues[a][0];
      queues := queues[a := queues[a][1..]];
      ghost var c := clients[id];
      clients := clients[id := clients[id].(where := Running)];
      ghost var st1 := View();
      HandleAuthClient(id, a);
      OthersKept(s, st1, View(), id, s.Entry(c.req, Normal));
      Goes(s, nodeBase, authBase, st1, View(), id);
    }

    /** A client that has arrived has done so once, with the verdict of the configuration. One that is neither waiting
        nor turned away has arrived, unless there was no global stack to go to and no verdict before it. */
    lemma ArrivesOnce(id: nat)
      requires Valid() && id in clients
      ensures var c := clients[id]; var verdict := s.Entry(c.req, Normal);
        && c.arrivals == (if c.where.Arrived? then 1 else 0)
        && (c.where.Arrived? ==> verdict == Some(c.where.result) && c.authstack == NULL)
        && (c.where.Lost? ==> verdict == None)
        && !c.where.Running?
        && (c.where.Queued? ==> c.where.auth in s.auths && !s.auths[c.where.auth].immediate)
        && (c.where.Queued? <==> exists a, i :: a in queues && 0 <= i < |queues[a]| && queues[a][i] == id)
    {
      if clients[id].where.Queued? {
        var a := clients[id].where.auth;
        var i :| 0 <= i < |queues[a]| && queues[a][i] == id;
      }
    }

    /** A client that has arrived accepted holds the access list of the authenticator that accepted it: the first in the
        stack of its stage that is for its method and knows it. Unless that was the server's own stack, the list does
        not deny the command the client asks for. */
    lemma AccessKept(id: nat) returns (list: seq<Ptr>, i: nat)
      requires Valid() && id in clients && clients[id].where == Arrived(Ok)
      ensures var c := clients[id];
        && s.Valid() && s.IsStack(c.req, c.stage, list) && i < |list|
        && (forall k :: 0 <= k < i ==> s.Passed(c.req, c.stage, list[k]))
        && var a := s.auths[s.nodes[list[i]].auth];
        && c.req.verb in a.verbs && a.capable && s.answer(id, c.stage, list[i]) == Ok && c.acl == Some(a.acl)
        && (c.stage != Global && c.req.admin.Some? ==> !s.denied(a.acl, c.req.admin.value))
    {
      assert AtRest(s, id, clients[id]);
      hide AtRest, Counted, Lined, Setup.Verdict, Setup.Entry, Setup.After, Setup.Stack, Setup.IsStack, Setup.Valid;
      var c := clients[id];
      list := s.Stack(s.stackOf(id, c.stage));
      i :| s.First(c.req, c.stage, list, i) && s.Says(c.req, c.stage, list[i]) == Ok
        && c.acl == Some(s.AuthAt(list[i]).acl);
      NotEmpty(s, s.stackOf(id, c.stage), i);
      s.StackExists(c.req, c.stage);
      StackNodes(s, c.req, c.stage, list);
    }

    /** The references to a stack node, beyond those of the configuration, are those of the clients that wait there and
        of those that were turned away there: these are never given back. */
    lemma StackRefs(p: Ptr)
      requires Valid() && p in s.nodes
      ensures nodeRefs[p] == nodeBase[p] + |WaitingAt(clients, p)| + |Stranded(clients, p)|
    {
      NoNullNode(s);
      AtNode(s, clients, p);
    }

    /** When nobody is waiting any longer, a stack node has all its references back exactly if no client was turned away
        there. */
    lemma AllGivenBack(p: Ptr)
      requires Valid() && p in s.nodes && forall id :: id in clients ==> !clients[id].where.Queued?
      ensures nodeRefs[p] == nodeBase[p] + |Stranded(clients, p)|
      ensures nodeRefs[p] == nodeBase[p] <==>
        forall id :: id in clients && clients[id].where.Refused? ==> clients[id].authstack != p
    {
      StackRefs(p);
      assert WaitingAt(clients, p) == {};
      if nodeRefs[p] == nodeBase[p] {
        forall id | id in clients && clients[id].where.Refused?
          ensures clients[id].authstack != p
        {
          assert id !in Stranded(clients, p);
        }
      } else {
        var id :| id in Stranded(clients, p);
      }
    }
  }

  lemma NotEmpty(s: Setup, p: Ptr, i: nat)
    requires s.Valid() && s.Stacked(p) && i < |s.Stack(p)|
    ensures p != NULL
  {
  }

  lemma StackNodes(s: Setup, r: Request, stage: Stage, list: seq<Ptr>)
    requires s.IsStack(r, stage, list)
    ensures forall i :: 0 <= i < |list| ==> list[i] in s.nodes && s.nodes[list[i]].auth in s.auths
  {
  }

  /** Clients waiting for an authenticator, with the stack node `p`. */
  ghost function WaitingAt(clients: map<nat, Client>, p: Ptr): set<nat> {
    set id | id in clients && clients[id].where.Queued? && clients[id].authstack == p
  }

  /** Clients turned away with the stack node `p` in their hands. */
  ghost function Stranded(clients: map<nat, Client>, p: Ptr): set<nat> {
    set id | id in clients && clients[id].where.Refused? && clients[id].authstack == p
  }

  lemma AtNode(s: Setup, clients: map<nat, Client>, p: Ptr)
    requires p != NULL && forall id :: id in clients ==> AtRest(s, id, clients[id])
    ensures |OnNode(clients, p)| == |WaitingAt(clients, p)| + |Stranded(clients, p)|
  {
    hide Setup.Valid, Setup.Verdict, Setup.Stack, Setup.After, Setup.Entry, Waiting;
    assert OnNode(clients, p) == WaitingAt(clients, p) + Stranded(clients, p);
  }

  // ----- the invariant

  ghost function OnNode(clients: map<nat, Client>, p: Ptr): set<nat> {
    set id | id in clients && clients[id].authstack == p
  }

  ghost function OnAuth(clients: map<nat, Client>, a: nat): set<nat> {
    set id | id in clients && clients[id].auth == Some(a)
  }

  /** Reference counts: what configuration holds, and each client at the node or with the authenticator. */
  ghost predicate Counted(s: Setup, nodeBase: map<Ptr, nat>, authBase: map<nat, nat>, st: State) {
    && st.nodeRefs.Keys == s.nodes.Keys == nodeBase.Keys && st.authRefs.Keys == s.auths.Keys == authBase.Keys
    && (forall p :: p in s.nodes ==> nodeBase[p] >= 1 && st.nodeRefs[p] == nodeBase[p] + |OnNode(st.clients, p)|)
    && (forall a :: a in s.auths ==> authBase[a] >= 1 && st.authRefs[a] == authBase[a] + |OnAuth(st.clients, a)|)
  }

  /** A client at rest. */
  ghost predicate AtRest(s: Setup, id: nat, c: Client) {
    && s.Valid() && c.req.id == id && s.Stacked(c.authstack) && (c.auth.Some? ==> c.auth.value in s.auths)
    && match c.where
       case Running => false
       case Queued(a) => c.arrivals == 0 && Waiting(s, c, a, s.Entry(c.req, Normal))
       case Arrived(r) =>
         c.arrivals == 1 && s.Entry(c.req, Normal) == Some(r) && c.authstack == NULL && (r == Ok ==> Granted(s, c))
       case Refused => c.arrivals == 0 && c.authstack in s.nodes
       case Lost => c.arrivals == 0 && s.Entry(c.req, Normal) == None && c.authstack == NULL
  }

  /** Who waits is in the queue of the authenticator it waits for, once, and nobody else is in any queue. */
  ghost predicate Lined(queues: map<nat, seq<nat>>, clients: map<nat, Client>) {
    && (forall a, i :: a in queues && 0 <= i < |queues[a]| ==>
          queues[a][i] in clients && clients[queues[a][i]].where == Queued(a))
    && (forall a, i, j :: a in queues && 0 <= i < j < |queues[a]| ==> queues[a][i] != queues[a][j])
    && (forall id :: id in clients && clients[id].where.Queued? ==>
          clients[id].where.auth in queues && id in queues[clients[id].where.auth])
  }

  ghost predicate Inv(s: Setup, nodeBase: map<Ptr, nat>, authBase: map<nat, nat>, st: State) {
    && s.Valid() && st.queues.Keys == s.auths.Keys
    && Counted(s, nodeBase, authBase, st) && Lined(st.queues, st.clients)
    && forall id :: id in st.clients ==> AtRest(s, id, st.clients[id])
  }

  /** The same but for client `id`, which is being handled. */
  ghost predicate InvBut(s: Setup, nodeBase: map<Ptr, nat>, authBase: map<nat, nat>, st: State, id: nat) {
    && s.Valid() && st.queues.Keys == s.auths.Keys
    && Counted(s, nodeBase, authBase, st) && Lined(st.queues, st.clients)
    && id in st.clients && st.clients[id].where == Running && st.clients[id].arrivals == 0
    && forall d :: d in st.clients && d != id ==> AtRest(s, d, st.clients[d])
  }

  lemma InvButReady(s: Setup, nodeBase: map<Ptr, nat>, authBase: map<nat, nat>, st: State, id: nat)
    requires InvBut(s, nodeBase, authBase, st, id) && st.clients[id].req.id == id
    requires s.Stacked(st.clients[id].authstack) && (st.clients[id].auth.Some? ==> st.clients[id].auth.value in s.auths)
    requires var c := st.clients[id]; c.authstack != NULL ==> s.Reached(c.req, c.stage, c.authstack)
    ensures Ready(s, st, id)
  {
    var c := st.clients[id];
    assert c.authstack in s.nodes ==> id in OnNode(st.clients, c.authstack);
    assert c.auth.Some? ==> id in OnAuth(st.clients, c.auth.value);
  }

  lemma Begins(s: Setup, nodeBase: map<Ptr, nat>, authBase: map<nat, nat>, st: State, id: nat, c: Client)
    requires Inv(s, nodeBase, authBase, st) && id !in st.clients
    requires c.req.id == id && c == Client(c.req, Normal, NULL, None, None, Running, 0)
    ensures var st' := st.(clients := st.clients[id := c]);
      s.Valid() && InvBut(s, nodeBase, authBase, st', id) && Ready(s, st', id)
  {
    var st' := st.(clients := st.clients[id := c]);
    BeginsCounted(s, nodeBase, authBase, st, id, c);
    LinedNew(st.queues, st.clients, id, c);
    hide Lined, Setup.Verdict, Setup.Stack, Setup.Entry, Setup.After, Setup.Valid, Waiting, Counted, Ready, AtRest;
    InvButReady(s, nodeBase, authBase, st', id);
  }

  lemma LinedNew(queues: map<nat, seq<nat>>, clients: map<nat, Client>, id: nat, c: Client)
    requires Lined(queues, clients) && id !in clients && c.where == Running
    ensures Lined(queues, clients[id := c])
  {
  }

  lemma NoNullNode(s: Setup)
    requires s.Valid()
    ensures NULL !in s.nodes
  {
  }

  lemma BeginsCounted(s: Setup, nodeBase: map<Ptr, nat>, authBase: map<nat, nat>, st: State, id: nat, c: Client)
    requires s.Valid() && Counted(s, nodeBase, authBase, st)
    requires id !in st.clients && c.authstack == NULL && c.auth == None
    ensures Counted(s, nodeBase, authBase, st.(clients := st.clients[id := c]))
  {
    hide Setup.Valid, Setup.Reached;
    NoNullNode(s);
    forall p | p in s.nodes
      ensures OnNode(st.clients[id := c], p) == OnNode(st.clients, p)
    {
    }
    forall a | a in s.auths
      ensures OnAuth(st.clients[id := c], a) == OnAuth(st.clients, a)
    {
    }
  }

  lemma Taken(s: Setup, nodeBase: map<Ptr, nat>, authBase: map<nat, nat>, st: State, a: nat)
    requires Inv(s, nodeBase, authBase, st) && a in st.queues && st.queues[a] != []
    ensures var id := st.queues[a][0];
      s.Valid() && id in st.clients && var c := st.clients[id];
      var st' := st.(queues := st.queues[a := st.queues[a][1..]], clients := st.clients[id := c.(where := Running)]);
      && InvBut(s, nodeBase, authBase, st', id) && Ready(s, st', id)
      && c.authstack in s.nodes && s.nodes[c.authstack].auth == a && c.auth == Some(a) && c.req.verb in s.auths[a].verbs
      && s.depth(s.nodes[c.authstack].next) < s.depth(c.authstack)
      && s.Verdict(c.req, c.stage, s.Stack(c.authstack)) == s.Entry(c.req, Normal)
  {
    hide Setup.Verdict, Setup.Stack, Setup.Entry, Setup.After, Counted, Waiting, Ready;
    TakenWaits(s, st, a);
    hide Lined;
    var id := st.queues[a][0];
    var c := st.clients[id];
    var st' := st.(queues := st.queues[a := st.queues[a][1..]], clients := st.clients[id := c.(where := Running)]);
    CountsKept(s, nodeBase, authBase, st, st', id);
    LinedTaken(st.queues, st.clients, a, c.(where := Running));
    InvButReady(s, nodeBase, authBase, st', id);
  }

  lemma TakenWaits(s: Setup, st: State, a: nat)
    requires s.Valid() && Lined(st.queues, st.clients) && a in st.queues && st.queues[a] != []
    requires forall id :: id in st.clients ==> AtRest(s, id, st.clients[id])
    ensures var id := st.queues[a][0];
      id in st.clients && var c := st.clients[id];
      && c.arrivals == 0 && c.req.id == id && c.where == Queued(a) && s.Stacked(c.authstack)
      && c.authstack in s.nodes && s.nodes[c.authstack].auth == a && a in s.auths && c.auth == Some(a)
      && c.req.verb in s.auths[a].verbs && s.depth(s.nodes[c.authstack].next) < s.depth(c.authstack)
      && s.Verdict(c.req, c.stage, s.Stack(c.authstack)) == s.Entry(c.req, Normal)
      && s.Reached(c.req, c.stage, c.authstack)
  {
    hide Setup.Verdict, Setup.Stack, Setup.Entry, Setup.After, Setup.Reached;
    var id := st.queues[a][0];
    assert AtRest(s, id, st.clients[id]);
  }

  lemma LinedTaken(queues: map<nat, seq<nat>>, clients: map<nat, Client>, a: nat, c: Client)
    requires Lined(queues, clients) && a in queues && queues[a] != [] && c.where == Running
    ensures Lined(queues[a := queues[a][1..]], clients[queues[a][0] := c])
  {
    var id := queues[a][0];
    var queues', clients' := queues[a := queues[a][1..]], clients[id := c];
    forall d | d in clients' && clients'[d].where.Queued?
      ensures clients'[d].where.auth in queues' && d in queues'[clients'[d].where.auth]
    {
      var b := clients[d].where.auth;
      var i :| 0 <= i < |queues[b]| && queues[b][i] == d;
      if b == a {
        assert queues'[a][i - 1] == d;
      }
    }
  }

  lemma LinedQueued(queues: map<nat, seq<nat>>, clients: map<nat, Client>, id: nat, a: nat, c: Client)
    requires Lined(queues, clients) && a in queues && id in clients
    requires clients[id].where == Running && c.where == Queued(a)
    ensures Lined(queues[a := queues[a] + [id]], clients[id := c])
  {
    var queues', clients' := queues[a := queues[a] + [id]], clients[id := c];
    forall d | d in clients' && clients'[d].where.Queued?
      ensures clients'[d].where.auth in queues' && d in queues'[clients'[d].where.auth]
    {
      if d == id {
        assert queues'[a][|queues[a]|] == id;
      } else {
        var b := clients[d].where.auth;
        var i :| 0 <= i < |queues[b]| && queues[b][i] == d;
        assert queues'[b][i] == d;
      }
    }
  }

  lemma LinedDone(queues: map<nat, seq<nat>>, clients: map<nat, Client>, id: nat, c: Client)
    requires Lined(queues, clients) && id in clients && clients[id].where == Running && !c.where.Queued?
    ensures Lined(queues, clients[id := c])
  {
  }

  lemma NodeHoldersMove(clients: map<nat, Client>, id: nat, c: Client, p: Ptr)
    requires id in clients
    ensures |OnNode(clients[id := c], p)| ==
      |OnNode(clients, p)| - One(clients[id].authstack == p) + One(c.authstack == p)
  {
    var rest := OnNode(clients, p) - {id};
    assert OnNode(clients, p) == if clients[id].authstack == p then rest + {id} else rest;
    assert OnNode(clients[id := c], p) == if c.authstack == p then rest + {id} else rest;
  }

  lemma AuthHoldersMove(clients: map<nat, Client>, id: nat, c: Client, a: nat)
    requires id in clients
    ensures |OnAuth(clients[id := c], a)| ==
      |OnAuth(clients, a)| - One(clients[id].auth == Some(a)) + One(c.auth == Some(a))
  {
    var rest := OnAuth(clients, a) - {id};
    assert OnAuth(clients, a) == if clients[id].auth == Some(a) then rest + {id} else rest;
    assert OnAuth(clients[id := c], a) == if c.auth == Some(a) then rest + {id} else rest;
  }

  lemma OthersKept(s: Setup, st: State, st': State, id: nat, want: Option<Result>)
    requires Progressed(s, st, st', id, want)
    ensures id in st.clients && id in st'.clients && st'.clients == st.clients[id := st'.clients[id]]
    ensures st'.clients[id].req == st.clients[id].req
  {
  }

  lemma CountsKept(s: Setup, nodeBase: map<Ptr, nat>, authBase: map<nat, nat>, st: State, st': State, id: nat)
    requires Counted(s, nodeBase, authBase, st) && id in st.clients && id in st'.clients
    requires st'.clients == st.clients[id := st'.clients[id]] && Level(st, st', id)
    ensures Counted(s, nodeBase, authBase, st')
  {
    forall p | p in s.nodes
      ensures st'.nodeRefs[p] == nodeBase[p] + |OnNode(st'.clients, p)|
    {
      NodeHoldersMove(st.clients, id, st'.clients[id], p);
    }
    forall a | a in s.auths
      ensures st'.authRefs[a] == authBase[a] + |OnAuth(st'.clients, a)|
    {
      AuthHoldersMove(st.clients, id, st'.clients[id], a);
    }
  }

  lemma Goes(s: Setup, nodeBase: map<Ptr, nat>, authBase: map<nat, nat>, st: State, st': State, id: nat)
    requires InvBut(s, nodeBase, authBase, st, id)
    requires Progressed(s, st, st', id, s.Entry(st.clients[id].req, Normal))
    ensures Inv(s, nodeBase, authBase, st')
  {
    hide Setup.Verdict, Setup.Stack, Setup.Entry, Setup.After, Counted, Lined, Level, Waiting, Setup.Valid;
    OthersKept(s, st, st', id, s.Entry(st.clients[id].req, Normal));
    CountsKept(s, nodeBase, authBase, st, st', id);
    var c := st'.clients[id];
    if c.where.Queued? {
      LinedQueued(st.queues, st.clients, id, c.where.auth, c);
    } else {
      LinedDone(st.queues, st.clients, id, c);
    }
  }

  // ----- how the steps fit together

  lemma SteppedReady(s: Setup, st: State, st': State, id: nat)
    requires Stepped(s, st, st', id)
    ensures Ready(s, st', id) && st'.queues == st.queues && st'.clients[id].req == st.clients[id].req
  {
  }

  lemma StandStill(s: Setup, st: State, id: nat)
    requires Ready(s, st, id)
    ensures Stepped(s, st, st, id)
  {
  }

  lemma AclSet(s: Setup, st: State, st1: State, st2: State, id: nat)
    requires Stepped(s, st, st1, id) && id in st1.clients
    requires exists acl :: st2 == st1.(clients := st1.clients[id := st1.clients[id].(acl := acl)])
    ensures Stepped(s, st, st2, id)
  {
  }

  lemma StageSet(s: Setup, st: State, id: nat, stage: Stage)
    requires Ready(s, st, id) && st.clients[id].authstack == NULL
    ensures Stepped(s, st, st.(clients := st.clients[id := st.clients[id].(stage := stage)]), id)
    ensures Ready(s, st.(clients := st.clients[id := st.clients[id].(stage := stage)]), id)
  {
  }

  lemma Forgotten(s: Setup, st: State, id: nat)
    requires Ready(s, st, id) && st.clients[id].authstack == NULL
    ensures Progressed(s, st, st.(clients := st.clients[id := st.clients[id].(where := Lost)]), id, None)
  {
  }

  lemma TurnedAway(s: Setup, st: State, id: nat, auth: nat, want: Option<Result>)
    requires Ready(s, st, id) && auth in st.queues && |st.queues[auth]| > MAX_PENDING
    requires st.clients[id].authstack in s.nodes && s.nodes[st.clients[id].authstack].auth == auth
    ensures Progressed(s, st, st.(clients := st.clients[id := st.clients[id].(where := Refused)]), id, want)
  {
  }

  lemma Enqueued(s: Setup, st: State, id: nat, a: nat)
    requires Ready(s, st, id) && st.clients[id].auth == Some(a)
    requires a in s.auths && st.clients[id].req.verb in s.auths[a].verbs && !s.auths[a].immediate
    requires st.clients[id].authstack in s.nodes && s.nodes[st.clients[id].authstack].auth == a
    ensures var c := st.clients[id];
      Progressed(s, st, st.(queues := st.queues[a := st.queues[a] + [id]],
                            clients := st.clients[id := c.(where := Queued(a))]),
                 id, s.Verdict(c.req, c.stage, s.Stack(c.authstack)))
  {
  }

  /** While a reference is borrowed the client is as ready as before... */
  lemma BorrowAuth(s: Setup, st: State, id: nat, a: nat)
    requires Ready(s, st, id) && a in s.auths
    ensures Ready(s, st.(authRefs := st.authRefs[a := st.authRefs[a] + 1]), id)
  {
  }

  /** ...and it can be given back afterwards. */
  lemma ReturnAuth(s: Setup, st: State, st1: State, st2: State, id: nat, a: nat, want: Option<Result>)
    requires Ready(s, st, id) && a in s.auths && st1 == st.(authRefs := st.authRefs[a := st.authRefs[a] + 1])
    requires Progressed(s, st1, st2, id, want)
    ensures a in st2.authRefs && st2.authRefs[a] > 1
    ensures Progressed(s, st, st2.(authRefs := st2.authRefs[a := st2.authRefs[a] - 1]), id, want)
  {
    AuthLevelReturned(s, st, st1, st2, id, a);
    hide Waiting, Setup.Valid, Setup.Verdict, Setup.Stack, Level, Ready;
  }

  lemma AuthLevelReturned(s: Setup, st: State, st1: State, st2: State, id: nat, a: nat)
    requires Ready(s, st, id) && a in s.auths && st1 == st.(authRefs := st.authRefs[a := st.authRefs[a] + 1])
    requires id in st2.clients && Level(st1, st2, id)
    ensures a in st2.authRefs && st2.authRefs[a] > 1
    ensures Level(st, st2.(authRefs := st2.authRefs[a := st2.authRefs[a] - 1]), id)
  {
    hide Setup.Valid, Setup.Reached;
  }

  lemma BorrowNode(s: Setup, st: State, id: nat, p: Ptr)
    requires Ready(s, st, id) && p in s.nodes
    ensures Ready(s, st.(nodeRefs := st.nodeRefs[p := st.nodeRefs[p] + 1]), id)
  {
  }

  lemma ReturnNode(s: Setup, st: State, st1: State, st2: State, id: nat, p: Ptr, want: Option<Result>)
    requires Ready(s, st, id) && p in s.nodes && st1 == st.(nodeRefs := st.nodeRefs[p := st.nodeRefs[p] + 1])
    requires Progressed(s, st1, st2, id, want)
    ensures p in st2.nodeRefs && st2.nodeRefs[p] > 1
    ensures Progressed(s, st, st2.(nodeRefs := st2.nodeRefs[p := st2.nodeRefs[p] - 1]), id, want)
  {
    NodeLevelReturned(s, st, st1, st2, id, p);
    hide Waiting, Setup.Valid, Setup.Verdict, Setup.Stack, Level, Ready;
  }

  lemma NodeLevelReturned(s: Setup, st: State, st1: State, st2: State, id: nat, p: Ptr)
    requires Ready(s, st, id) && p in s.nodes && st1 == st.(nodeRefs := st.nodeRefs[p := st.nodeRefs[p] + 1])
    requires id in st2.clients && Level(st1, st2, id)
    ensures p in st2.nodeRefs && st2.nodeRefs[p] > 1
    ensures Level(st, st2.(nodeRefs := st2.nodeRefs[p := st2.nodeRefs[p] - 1]), id)
  {
    hide Setup.Valid, Setup.Reached;
  }
}
