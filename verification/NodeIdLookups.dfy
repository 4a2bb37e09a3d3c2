/**
 Finding connections by their peer id. The index of node ids holds one connection per id, so when two pooled connections
 share an id and one is closed, its entry goes and the other is no longer found.
 */
module NodeIdLookups {

  import opened Basics
  import opened ConnectionPools

  /** The peer id under which a connection should be found; an empty one counts as none. */
  predicate Named(d: Desc) {
    d.peerId.Some? && d.peerId.value != ""
  }

  /** The id of every pooled connection that has one leads to a pooled connection. */
  ghost predicate AllListed<C>(s: State<C>)
    requires Members(s.pool.byFileno) <= s.looks.Keys
  {
    forall c :: c in Members(s.pool.byFileno) && Named(s.looks[c]) ==> s.looks[c].peerId.value in s.pool.byNodeId
  }

  // ----- One operation -----

  lemma OpenedPool<C>(s: State<C>, conn: C)
    requires Sound(s) && Allowed(s, Opened(conn)) && (s.looks[conn].ip, s.looks[conn].port) !in s.pool.byIpPort
    ensures s.pool.byIpPort.Values <= s.looks.Keys
    ensures var after := Step(s, Opened(conn));
            && Members(after.pool.byFileno) == Members(s.pool.byFileno) + {conn}
            && after.pool.byNodeId == s.pool.byNodeId && after.looks == s.looks
  {
    AddKeepsConsistent(s.pool, s.looks, Members(s.pool.byFileno), conn);
  }

  lemma ClosedPool<C>(s: State<C>, conn: C)
    requires Sound(s) && Allowed(s, Closed(conn))
    ensures s.pool.byIpPort.Values <= s.looks.Keys
    ensures var after := Step(s, Closed(conn));
            && Members(after.pool.byFileno) == Members(s.pool.byFileno) - {conn}
            && after.pool.byNodeId == ForgetNodeId(s.pool.byNodeId, s.looks[conn].peerId) && after.looks == s.looks
  {
    var m := Members(s.pool.byFileno);
    DeleteKeeps(s.pool, s.looks, m, conn);
    FilesAgreeHasMembers(Delete(s.pool, s.looks, conn).pool.byFileno, s.looks, m - {conn});
  }

  lemma RetypedIndex<C>(p: Pool<C>, known: map<C, Desc>, conn: C, id: string, kind: ConnectionType)
    requires Consistent(p, known) && conn in Members(p.byFileno) && known[conn].peerId == Some(id)
    ensures p.byIpPort.Values <= known.Keys
    ensures IndexNodeId(UpdateType(p, known, conn, kind).pool, id, conn).byNodeId == p.byNodeId[id := conn]
  {
    UpdateTypeKeeps(p, known, conn, kind);
  }

  lemma AuthenticatedIndex<C>(s: State<C>, conn: C, id: string, kind: ConnectionType)
    requires Sound(s) && Allowed(s, Authenticated(conn, id, kind)) && s.pool.byIpPort.Values <= s.looks.Keys
    ensures Authenticate(s, conn, id, kind).pool.byNodeId == s.pool.byNodeId[id := conn]
    ensures Authenticate(s, conn, id, kind).looks == WithKind(WithPeerId(s.looks, conn, Some(id)), conn, kind)
  {
    var known := WithPeerId(s.looks, conn, Some(id));
    if known[conn].kind == kind {
      assert WithKind(known, conn, kind) == known;
    } else {
      PeerIdKeepsIff(s.pool, s.looks, conn, Some(id));
      RetypedIndex(s.pool, known, conn, id, kind);
    }
  }

  lemma AuthenticatedPool<C>(s: State<C>, conn: C, id: string, kind: ConnectionType)
    requires Sound(s) && Allowed(s, Authenticated(conn, id, kind))
    ensures s.pool.byIpPort.Values <= s.looks.Keys
    ensures var after := Step(s, Authenticated(conn, id, kind));
            && Members(after.pool.byFileno) == Members(s.pool.byFileno)
            && after.pool.byNodeId == s.pool.byNodeId[id := conn]
            && after.looks == WithKind(WithPeerId(s.looks, conn, Some(id)), conn, kind)
  {
    AuthenticateKeeps(s, conn, id, kind);
    AuthenticatedIndex(s, conn, id, kind);
  }

  /** What a lookup by id needs of an operation: nobody arrives under an unlisted id or leaves a namesake behind. */
  ghost predicate KeepsListed<C>(s: State<C>, op: Op<C>)
    requires op.conn in s.looks && Members(s.pool.byFileno) <= s.looks.Keys
  {
    match op
    case Opened(conn) =>
      (s.looks[conn].ip, s.looks[conn].port) !in s.pool.byIpPort && Named(s.looks[conn]) ==>
        s.looks[conn].peerId.value in s.pool.byNodeId
    case Authenticated(_, _, _) => true
    case Closed(conn) =>
      Named(s.looks[conn]) ==>
        forall c :: c in Members(s.pool.byFileno) && c != conn ==> s.looks[c].peerId != s.looks[conn].peerId
  }

  lemma OpenedListedIff<C>(s: State<C>, conn: C)
    requires Sound(s) && Allowed(s, Opened(conn)) && AllListed(s)
    ensures s.pool.byIpPort.Values <= s.looks.Keys && Sound(Step(s, Opened(conn)))
    ensures AllListed(Step(s, Opened(conn))) <==> KeepsListed(s, Opened(conn))
  {
    StepKeeps(s, Opened(conn));
    if (s.looks[conn].ip, s.looks[conn].port) !in s.pool.byIpPort {
      OpenedPool(s, conn);
      assert conn in Members(Step(s, Opened(conn)).pool.byFileno);
    }
  }

  lemma ClosedListedIff<C>(s: State<C>, conn: C)
    requires Sound(s) && Allowed(s, Closed(conn)) && AllListed(s)
    ensures s.pool.byIpPort.Values <= s.looks.Keys && Sound(Step(s, Closed(conn)))
    ensures AllListed(Step(s, Closed(conn))) <==> KeepsListed(s, Closed(conn))
  {
    StepKeeps(s, Closed(conn));
    ClosedPool(s, conn);
    var after := Step(s, Closed(conn));
    if AllListed(after) && Named(s.looks[conn]) {
      forall c | c in Members(s.pool.byFileno) && c != conn ensures s.looks[c].peerId != s.looks[conn].peerId {
        assert c in Members(after.pool.byFileno);
      }
    }
  }

  lemma AuthenticatedListed<C>(s: State<C>, conn: C, id: string, kind: ConnectionType)
    requires Sound(s) && Allowed(s, Authenticated(conn, id, kind)) && AllListed(s)
    ensures s.pool.byIpPort.Values <= s.looks.Keys && Sound(Step(s, Authenticated(conn, id, kind)))
    ensures AllListed(Step(s, Authenticated(conn, id, kind)))
  {
    StepKeeps(s, Authenticated(conn, id, kind));
    AuthenticatedPool(s, conn, id, kind);
  }

  /**
   An operation leaves every named connection's id in the index if and only if it neither opens one under an unlisted
   id nor closes one whose id another shares; authenticating always does.
   */
  lemma StepListedIff<C>(s: State<C>, op: Op<C>)
    requires Sound(s) && Allowed(s, op) && AllListed(s)
    ensures s.pool.byIpPort.Values <= s.looks.Keys && Sound(Step(s, op))
    ensures AllListed(Step(s, op)) <==> KeepsListed(s, op)
  {
    match op
    case Opened(conn) => OpenedListedIff(s, conn);
    case Authenticated(conn, id, kind) => AuthenticatedListed(s, conn, id, kind);
    case Closed(conn) => ClosedListedIff(s, conn);
  }

  // ----- Whole runs -----

  /** Throughout the run, from its start to its end, every named connection's id is in the index. */
  ghost predicate AlwaysListed<C>(s: State<C>, ops: seq<Op<C>>)
    requires Sound(s) && AllAllowed(s, ops)
    decreases |ops|
  {
    AllListed(s) && (ops != [] ==> (StepKeeps(s, ops[0]); AlwaysListed(Step(s, ops[0]), ops[1..])))
  }

  ghost predicate AllKeepListed<C>(s: State<C>, ops: seq<Op<C>>)
    requires Sound(s) && AllAllowed(s, ops)
    decreases |ops|
  {
    ops != [] ==> KeepsListed(s, ops[0]) && (StepKeeps(s, ops[0]); AllKeepListed(Step(s, ops[0]), ops[1..]))
  }

  /** A lookup by id finds someone throughout a run if and only if no operation of it loses an id in use. */
  lemma {:induction false} AlwaysListedIff<C>(s: State<C>, ops: seq<Op<C>>)
    requires Sound(s) && AllAllowed(s, ops) && AllListed(s)
    ensures AlwaysListed(s, ops) <==> AllKeepListed(s, ops)
    decreases |ops|
  {
    if ops != [] {
      StepListedIff(s, ops[0]);
      if AllListed(Step(s, ops[0])) {
        AlwaysListedIff(Step(s, ops[0]), ops[1..]);
      }
    }
  }

  lemma RunStarts<C>(s: State<C>, op: Op<C>, ops: seq<Op<C>>)
    requires Sound(s) && Allowed(s, op)
    requires s.pool.byIpPort.Values <= s.looks.Keys && Sound(Step(s, op)) && AllAllowed(Step(s, op), ops)
    ensures AllAllowed(s, [op] + ops) && Run(s, [op] + ops) == Run(Step(s, op), ops)
  {
    assert ([op] + ops)[1..] == ops;
  }

  /** The addresses and file numbers of two connections do not clash. */
  predicate Apart(a: Desc, b: Desc) {
    a.fileNo != b.fileNo && (a.ip, a.port) != (b.ip, b.port)
  }

  /** A connection apart from those pooled is opened. */
  lemma Opens<C>(s: State<C>, conn: C) returns (next: State<C>)
    requires Sound(s) && conn in s.looks
    requires forall c :: c in Members(s.pool.byFileno) ==> Apart(s.looks[c], s.looks[conn])
    ensures Allowed(s, Opened(conn)) && s.pool.byIpPort.Values <= s.looks.Keys
    ensures next == Step(s, Opened(conn)) && Sound(next)
    ensures Members(next.pool.byFileno) == Members(s.pool.byFileno) + {conn}
    ensures next.pool.byNodeId == s.pool.byNodeId && next.looks == s.looks
  {
    StepKeeps(s, Opened(conn));
    OpenedPool(s, conn);
    next := Step(s, Opened(conn));
  }

  /** The pooled connection authenticates under the id, keeping its type. */
  lemma TakesId<C>(s: State<C>, conn: C, id: string, kind: ConnectionType) returns (next: State<C>)
    requires Sound(s) && conn in Members(s.pool.byFileno) && id != "" && s.looks[conn].kind == kind
    requires forall i :: i in s.pool.byNodeId && s.pool.byNodeId[i] == conn ==> i == id
    ensures Allowed(s, Authenticated(conn, id, kind)) && s.pool.byIpPort.Values <= s.looks.Keys
    ensures next == Step(s, Authenticated(conn, id, kind)) && Sound(next)
    ensures Members(next.pool.byFileno) == Members(s.pool.byFileno)
    ensures next.pool.byNodeId == s.pool.byNodeId[id := conn]
    ensures next.looks == s.looks[conn := s.looks[conn].(peerId := Some(id))]
  {
    StepKeeps(s, Authenticated(conn, id, kind));
    AuthenticatedPool(s, conn, id, kind);
    next := Step(s, Authenticated(conn, id, kind));
  }

  /** A pooled connection that bears the id and is not found under it. */
  ghost predicate Lost<C>(s: State<C>, conn: C, id: string) {
    && conn in Members(s.pool.byFileno) && conn in s.looks
    && s.looks[conn].peerId == Some(id) && id !in s.pool.byNodeId
  }

  ghost predicate RunLoses<C>(s: State<C>, ops: seq<Op<C>>, conn: C, id: string) {
    Sound(s) && AllAllowed(s, ops) && Lost(Run(s, ops), conn, id)
  }

  lemma LosesLater<C>(s: State<C>, op: Op<C>, ops: seq<Op<C>>, conn: C, id: string)
    requires Sound(s) && Allowed(s, op) && s.pool.byIpPort.Values <= s.looks.Keys
    requires RunLoses(Step(s, op), ops, conn, id)
    ensures RunLoses(s, [op] + ops, conn, id)
  {
    RunStarts(s, op, ops);
  }

  lemma ClosingLoses<C>(s: State<C>, a: C, b: C, id: string) returns (ops: seq<Op<C>>)
    requires Sound(s) && Members(s.pool.byFileno) == {a, b} && s.pool.byNodeId == map[id := b] && a != b && id != ""
    requires s.looks[a].peerId == s.looks[b].peerId == Some(id)
    ensures ops == [Closed(a)] + [] && RunLoses(s, ops, b, id)
  {
    ops := [];
    StepKeeps(s, Closed(a));
    ClosedPool(s, a);
    LosesLater(s, Closed(a), ops, b, id);
    ops := [Closed(a)] + ops;
  }

  lemma Overwritten<K, V>(k: K, v: V, w: V)
    ensures map[k := v][k := w] == map[k := w]
  {
  }

  lemma SecondTakesId<C>(s: State<C>, a: C, b: C, id: string, kind: ConnectionType) returns (ops: seq<Op<C>>)
    requires Sound(s) && Members(s.pool.byFileno) == {a, b} && s.pool.byNodeId == map[id := a] && a != b && id != ""
    requires s.looks[a].peerId == Some(id) && s.looks[b].kind == kind
    ensures ops == [Authenticated(b, id, kind)] + ([Closed(a)] + []) && RunLoses(s, ops, b, id)
  {
    var next := TakesId(s, b, id, kind);
    Overwritten(id, a, b);
    ops := ClosingLoses(next, a, b, id);
    LosesLater(s, Authenticated(b, id, kind), ops, b, id);
    ops := [Authenticated(b, id, kind)] + ops;
  }

  lemma FirstTakesId<C>(s: State<C>, a: C, b: C, id: string, kindA: ConnectionType, kindB: ConnectionType)
      returns (ops: seq<Op<C>>)
    requires Sound(s) && Members(s.pool.byFileno) == {a, b} && s.pool.byNodeId == map[] && a != b && id != ""
    requires s.looks[a].kind == kindA && s.looks[b].kind == kindB
    ensures ops == [Authenticated(a, id, kindA)] + ([Authenticated(b, id, kindB)] + ([Closed(a)] + []))
    ensures RunLoses(s, ops, b, id)
  {
    var next := TakesId(s, a, id, kindA);
    ops := SecondTakesId(next, a, b, id, kindB);
    LosesLater(s, Authenticated(a, id, kindA), ops, b, id);
    ops := [Authenticated(a, id, kindA)] + ops;
  }

  lemma SecondOpens<C>(s: State<C>, a: C, b: C, id: string) returns (ops: seq<Op<C>>)
    requires Sound(s) && Members(s.pool.byFileno) == {a} && s.pool.byNodeId == map[] && a != b && id != ""
    requires b in s.looks && Apart(s.looks[a], s.looks[b])
    ensures ops == [Opened(b)] + ([Authenticated(a, id, s.looks[a].kind)]
                   + ([Authenticated(b, id, s.looks[b].kind)] + ([Closed(a)] + [])))
    ensures RunLoses(s, ops, b, id)
  {
    var next := Opens(s, b);
    ops := FirstTakesId(next, a, b, id, s.looks[a].kind, s.looks[b].kind);
    LosesLater(s, Opened(b), ops, b, id);
    ops := [Opened(b)] + ops;
  }

  /**
   Two connections open, authenticate under one id, and the first is closed: the second is still pooled, under that
   id, and the index no longer knows it.
   */
  lemma SharedIdIsLost<C>(looks: map<C, Desc>, a: C, b: C, id: string) returns (ops: seq<Op<C>>)
    requires a in looks && b in looks && a != b && Apart(looks[a], looks[b]) && id != ""
    ensures ops == [Opened(a)] + ([Opened(b)] + ([Authenticated(a, id, looks[a].kind)]
                   + ([Authenticated(b, id, looks[b].kind)] + ([Closed(a)] + []))))
    ensures RunLoses(State(EmptyPool(), looks), ops, b, id)
  {
    EmptyIsSound(looks);
    var first := State(EmptyPool<C>(), looks);
    assert Members(first.pool.byFileno) == {};
    var next := Opens(first, a);
    ops := SecondOpens(next, a, b, id);
    LosesLater(first, Opened(a), ops, b, id);
    ops := [Opened(a)] + ops;
  }
}
