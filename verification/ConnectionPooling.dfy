/** The pool of connections as the node keeps it: five indexes that every method changes in place. */
module ConnectionPooling {

  import opened Basics
  import opened ConnectionPools
  import opened OrderedDicts

  /** What the pool reads of a connection; it changes the type itself, and the node the peer id. */
  class Connection {
    const fileNo: nat
    const ip: string
    const port: int
    var kind: ConnectionType
    var peerId: Option<string>

    constructor (fileNo: nat, ip: string, port: int, kind: ConnectionType)
      ensures Look() == Desc(fileNo, ip, port, kind, None)
    {
      this.fileNo, this.ip, this.port, this.kind, this.peerId := fileNo, ip, port, kind, None;
    }

    function Look(): Desc
      reads this
    {
      Desc(fileNo, ip, port, kind, peerId)
    }
  }

  ghost function Looks(conns: set<Connection>): map<Connection, Desc>
    reads conns
  {
    map c | c in conns :: c.Look()
  }

  class ConnectionPool {
    var byFileno: Slots<Connection>
    var byIpPort: map<(string, int), Connection>
    var byType: OrderedDict<ConnectionType, seq<Connection>>
    var byNodeId: map<string, Connection>
    var countByIp: map<string, int>
    var lenFileno: nat
    /** Every connection the pool was handed. */
    ghost var conns: set<Connection>

    constructor ()
      ensures Valid() && View() == EmptyPool() && conns == {}
    {
      byFileno, byIpPort, byType, byNodeId, countByIp := Vacant(INITIAL_FILENO), map[], EmptyDict(), map[], map[];
      lenFileno, conns := INITIAL_FILENO, {};
    }

    ghost predicate Valid()
      reads this
    {
      && lenFileno == |byFileno|
      && byIpPort.Values <= conns
    }

    function View(): Pool<Connection>
      reads this
    {
      Pool(byFileno, byIpPort, byType, byNodeId, countByIp)
    }

    method Add(fileno: nat, ip: string, port: int, conn: Connection) returns (raised: bool)
      requires Valid()
      modifies this
      ensures Valid() && conns == old(conns) + {conn}
      ensures Outcome(View(), raised) == ConnectionPools.Add(old(View()), fileno, ip, port, conn.kind, conn)
    {
      conns := conns + {conn};
      if (ip, port) in byIpPort {
        return true;
      }
      while fileno >= lenFileno
        invariant lenFileno == |byFileno| && Grow(byFileno, fileno) == Grow(old(byFileno), fileno)
        invariant byIpPort == old(byIpPort) && byType == old(byType) && byNodeId == old(byNodeId)
        invariant countByIp == old(countByIp) && conns == old(conns) + {conn}
      {
        byFileno := byFileno + Vacant(INITIAL_FILENO);
        lenFileno := lenFileno + INITIAL_FILENO;
      }
      byFileno := byFileno[fileno := Some(conn)];
      byIpPort := byIpPort[(ip, port) := conn];
      byType := byType.Set(conn.kind, ListOf(byType, conn.kind) + [conn]);
      countByIp := countByIp[ip := CountOf(countByIp, ip) + 1];
      raised := false;
    }

    method Delete(conn: Connection) returns (raised: bool)
      requires Valid()
      modifies this
      ensures Valid() && conns == old(conns) + {conn}
      ensures old(byIpPort.Values) <= old(Looks(conns + {conn})).Keys
      ensures Outcome(View(), raised) == ConnectionPools.Delete(old(View()), old(Looks(conns + {conn})), conn)
    {
      ghost var looks := Looks(conns + {conn});
      assert looks[conn] == conn.Look();
      conns := conns + {conn};
      if conn.fileNo >= |byFileno| {
        return true;
      }
      byFileno := byFileno[conn.fileNo := None];
      RemoveAddress(conn, looks);
      raised := RemoveFromTypeList(conn);
      if raised { return; }
      if CountOf(countByIp, conn.ip) == 1 {
        countByIp := countByIp - {conn.ip};
      } else {
        countByIp := countByIp[conn.ip := CountOf(countByIp, conn.ip) - 1];
      }
      RemovePeerId(conn);
    }

    /** The address may meanwhile belong to another connection, which then keeps it. */
    method RemoveAddress(conn: Connection, ghost looks: map<Connection, Desc>)
      requires byIpPort.Values <= looks.Keys && conn in looks
      requires forall c :: c in looks ==> looks[c] == c.Look()
      modifies this`byIpPort
      ensures byIpPort == ForgetIpPort(old(byIpPort), looks, looks[conn])
      ensures byIpPort.Values <= old(byIpPort.Values)
    {
      var address := (conn.ip, conn.port);
      if address in byIpPort && byIpPort[address].fileNo == conn.fileNo {
        byIpPort := byIpPort - {address};
      }
    }

    method RemovePeerId(conn: Connection)
      modifies this`byNodeId
      ensures byNodeId == ForgetNodeId(old(byNodeId), conn.peerId)
    {
      if conn.peerId.Some? && conn.peerId.value != "" && conn.peerId.value in byNodeId {
        byNodeId := byNodeId - {conn.peerId.value};
      }
    }

    /** The last connection of a type takes the list along. */
    method RemoveFromTypeList(conn: Connection) returns (raised: bool)
      modifies this`byType
      ensures raised <==> TypeListLacks(old(byType), conn.kind, conn)
      ensures byType == if raised then old(byType) else ForgetType(old(byType), conn.kind, conn)
    {
      raised := false;
      if conn.kind in byType.vals {
        var peers := byType.vals[conn.kind];
        if |peers| == 1 {
          byType := byType.Delete(conn.kind);
        } else if conn !in peers {
          raised := true;
        } else {
          byType := byType.Set(conn.kind, Remove(peers, conn));
        }
      }
    }

    method UpdateConnectionType(conn: Connection, kind: ConnectionType) returns (raised: bool)
      requires Valid()
      modifies this, conn`kind
      ensures Valid() && conns == old(conns) + {conn}
      ensures old(byIpPort.Values) <= old(Looks(conns + {conn})).Keys
      ensures Outcome(View(), raised) == UpdateType(old(View()), old(Looks(conns + {conn})), conn, kind)
      ensures conn.kind == kind || (raised && conn.kind == old(conn.kind))
    {
      ghost var looks := Looks(conns + {conn});
      assert looks[conn] == conn.Look();
      raised := Delete(conn);
      if raised { return; }
      conn.kind := kind;
      raised := Add(conn.fileNo, conn.ip, conn.port, conn);
      if raised || conn.peerId.None? {
        return true;
      }
      IndexConnNodeId(conn.peerId.value, conn);
    }

    method IndexConnNodeId(nodeId: string, conn: Connection)
      modifies this`byNodeId
      ensures View() == IndexNodeId(old(View()), nodeId, conn)
    {
      byNodeId := byNodeId[nodeId := conn];
    }

    /** Goes through the lists by type in their order and keeps those that match. */
    method GetByConnectionTypes(types: seq<ConnectionType>) returns (found: seq<Connection>)
      requires forall i :: 0 <= i < |byType.order| ==> byType.order[i] in byType.vals
      ensures found == Collected(byType.order, byType.vals, types)
    {
      found := [];
      var i := 0;
      var order, vals := byType.order, byType.vals;
      while i < |order|
        invariant 0 <= i <= |order|
        invariant found + Collected(order[i..], vals, types) == Collected(order, vals, types)
      {
        CollectedNext(order, i, vals, types, found);
        var matches := MatchesAny(order[i], types);
        if matches {
          found := found + vals[order[i]];
        }
        i := i + 1;
      }
    }
  }

  lemma CollectedNext<C>(order: seq<ConnectionType>, i: nat, vals: map<ConnectionType, seq<C>>,
                         types: seq<ConnectionType>, found: seq<C>)
    requires i < |order| && forall j :: 0 <= j < |order| ==> order[j] in vals
    ensures Matches(order[i], types) ==>
              found + Collected(order[i..], vals, types)
              == found + vals[order[i]] + Collected(order[i + 1..], vals, types)
    ensures !Matches(order[i], types) ==> Collected(order[i..], vals, types) == Collected(order[i + 1..], vals, types)
  {
    assert order[i..][0] == order[i] && order[i..][1..] == order[i + 1..];
  }

  method MatchesAny(kind: ConnectionType, types: seq<ConnectionType>) returns (matches: bool)
    ensures matches <==> Matches(kind, types)
  {
    for i := 0 to |types|
      invariant forall j :: 0 <= j < i ==> kind * types[j] == {}
    {
      if kind * types[i] != {} {
        return true;
      }
    }
    return false;
  }
}
