/**
 The pool of connections and its five indexes, as values. A connection is any identity `C`; `k` says what the
 connections look like, since their type and peer id change while they are in the pool.
 */
module ConnectionPools {

  import opened Basics
  import opened OrderedDicts

  const INITIAL_FILENO: nat := 100

  /** A connection type is a set of flags. */
  datatype Flag = Sdn | BlockchainNode | RemoteBlockchainNode | ExternalGateway | RelayTransaction | RelayBlock
                | InternalGateway | RelayProxy

  type ConnectionType = set<Flag>

  datatype Desc = Desc(fileNo: nat, ip: string, port: int, kind: ConnectionType, peerId: Option<string>)

  type Slots<+C> = seq<Option<C>>

  datatype Pool<C> = Pool(
    byFileno: Slots<C>,
    byIpPort: map<(string, int), C>,
    byType: OrderedDict<ConnectionType, seq<C>>,
    byNodeId: map<string, C>,
    countByIp: map<string, int>)

  /** The pool after an operation, and whether it raised. */
  datatype Outcome<C> = Outcome(pool: Pool<C>, raised: bool)

  // ----- Operations -----

  function Vacant<C>(n: nat): Slots<C> {
    seq(n, i => None)
  }

  function EmptyPool<C>(): Pool<C> {
    Pool(Vacant(INITIAL_FILENO), map[], EmptyDict(), map[], map[])
  }

  /** The list of slots grows by whole chunks. */
  function Grow<C>(s: Slots<C>, fileno: nat): (r: Slots<C>)
    ensures fileno < |r| && s <= r
    ensures forall i :: |s| <= i < |r| ==> r[i] == None
    decreases fileno - |s|
  {
    if fileno < |s| then s else Grow(s + Vacant(INITIAL_FILENO), fileno)
  }

  function ListOf<C>(d: OrderedDict<ConnectionType, seq<C>>, kind: ConnectionType): seq<C> {
    if kind in d.vals then d.vals[kind] else []
  }

  function CountOf(counts: map<string, int>, ip: string): int {
    if ip in counts then counts[ip] else 0
  }

  function Append<C>(d: OrderedDict<ConnectionType, seq<C>>, kind: ConnectionType, conn: C)
    : OrderedDict<ConnectionType, seq<C>>
  {
    d.Set(kind, ListOf(d, kind) + [conn])
  }

  /** `add`; it refuses an address pair that is taken. */
  function Add<C>(p: Pool<C>, fileno: nat, ip: string, port: int, kind: ConnectionType, conn: C): Outcome<C> {
    if (ip, port) in p.byIpPort then Outcome(p, true)
    else
      Outcome(
        Pool(Grow(p.byFileno, fileno)[fileno := Some(conn)], p.byIpPort[(ip, port) := conn],
             Append(p.byType, kind, conn), p.byNodeId, p.countByIp[ip := CountOf(p.countByIp, ip) + 1]),
        false)
  }

  /** `list.remove` of a present element. */
  function Remove<C(==)>(s: seq<C>, conn: C): seq<C> {
    if s == [] then [] else if s[0] == conn then s[1..] else [s[0]] + Remove(s[1..], conn)
  }

  function ForgetIpPort<C>(byIpPort: map<(string, int), C>, k: map<C, Desc>, d: Desc): map<(string, int), C>
    requires byIpPort.Values <= k.Keys
  {
    if (d.ip, d.port) in byIpPort && k[byIpPort[(d.ip, d.port)]].fileNo == d.fileNo
    then byIpPort - {(d.ip, d.port)} else byIpPort
  }

  /** Whether removing the connection from the list of its type raises. */
  predicate TypeListLacks<C(==)>(d: OrderedDict<ConnectionType, seq<C>>, kind: ConnectionType, conn: C) {
    kind in d.vals && |d.vals[kind]| != 1 && conn !in d.vals[kind]
  }

  function ForgetType<C(==)>(d: OrderedDict<ConnectionType, seq<C>>, kind: ConnectionType, conn: C)
    : OrderedDict<ConnectionType, seq<C>>
  {
    if kind !in d.vals then d
    else if |d.vals[kind]| == 1 then d.Delete(kind)
    else d.Set(kind, Remove(d.vals[kind], conn))
  }

  function ForgetIp(counts: map<string, int>, ip: string): map<string, int> {
    if CountOf(counts, ip) == 1 then counts - {ip} else counts[ip := CountOf(counts, ip) - 1]
  }

  function ForgetNodeId<C>(byNodeId: map<string, C>, peerId: Option<string>): map<string, C> {
    if peerId.Some? && peerId.value != "" then byNodeId - {peerId.value} else byNodeId
  }

  /** `delete`. */
  function Delete<C(==)>(p: Pool<C>, k: map<C, Desc>, conn: C): Outcome<C>
    requires conn in k && p.byIpPort.Values <= k.Keys
  {
    var d := k[conn];
    if d.fileNo >= |p.byFileno| then Outcome(p, true)
    else
      var cut := p.(byFileno := p.byFileno[d.fileNo := None], byIpPort := ForgetIpPort(p.byIpPort, k, d));
      if TypeListLacks(p.byType, d.kind, conn) then Outcome(cut, true)
      else
        Outcome(
          Pool(cut.byFileno, cut.byIpPort, ForgetType(p.byType, d.kind, conn), ForgetNodeId(p.byNodeId, d.peerId),
               ForgetIp(p.countByIp, d.ip)),
          false)
  }

  function IndexNodeId<C>(p: Pool<C>, id: string, conn: C): Pool<C> {
    p.(byNodeId := p.byNodeId[id := conn])
  }

  function WithKind<C>(k: map<C, Desc>, conn: C, kind: ConnectionType): map<C, Desc>
    requires conn in k
  {
    k[conn := k[conn].(kind := kind)]
  }

  function WithPeerId<C>(k: map<C, Desc>, conn: C, id: Option<string>): map<C, Desc>
    requires conn in k
  {
    k[conn := k[conn].(peerId := id)]
  }

  /** Deleted, and added again as a connection of type `kind`. */
  function Moved<C(==)>(p: Pool<C>, k: map<C, Desc>, conn: C, kind: ConnectionType): Outcome<C>
    requires conn in k && p.byIpPort.Values <= k.Keys
  {
    Add(Delete(p, k, conn).pool, k[conn].fileNo, k[conn].ip, k[conn].port, kind, conn)
  }

  /** `update_connection_type`, in a pool where the connection changes to `kind` once it is deleted. */
  function UpdateType<C(==)>(p: Pool<C>, k: map<C, Desc>, conn: C, kind: ConnectionType): Outcome<C>
    requires conn in k && p.byIpPort.Values <= k.Keys
  {
    var deleted := Delete(p, k, conn);
    if deleted.raised then deleted
    else
      var moved := Moved(p, k, conn, kind);
      if moved.raised || k[conn].peerId.None? then Outcome(moved.pool, true)
      else Outcome(IndexNodeId(moved.pool, k[conn].peerId.value, conn), false)
  }

  // ----- What the two operations do to any pool -----

  /** r is d but for the list of one type. */
  ghost predicate OnlyList<C>(d: OrderedDict<ConnectionType, seq<C>>, r: OrderedDict<ConnectionType, seq<C>>,
      kind: ConnectionType) {
    forall t :: t != kind ==> (t in r.vals <==> t in d.vals) && (t in d.vals ==> r.vals[t] == d.vals[t])
  }

  /**
   A taken address pair is refused and nothing changes. Otherwise the connection gets its slot, whoever held it, its
   address pair and the last place in the list of its type, and one more is counted at its address; the slots grow by
   hundreds, and only if they must.
   */
  lemma AddDoes<C>(p: Pool<C>, fileno: nat, ip: string, port: int, kind: ConnectionType, conn: C)
    ensures var r := Add(p, fileno, ip, port, kind, conn);
            if (ip, port) in p.byIpPort then r == Outcome(p, true)
            else
              && !r.raised && r.pool.byNodeId == p.byNodeId
              && fileno < |r.pool.byFileno| && (fileno < |p.byFileno| ==> |r.pool.byFileno| == |p.byFileno|)
              && (fileno >= |p.byFileno| ==>
                    |r.pool.byFileno| <= fileno + 100 && (|r.pool.byFileno| - |p.byFileno|) % 100 == 0)
              && (forall i :: 0 <= i < |r.pool.byFileno| ==>
                    r.pool.byFileno[i]
                    == if i == fileno then Some(conn) else if i < |p.byFileno| then p.byFileno[i] else None)
              && r.pool.byIpPort == p.byIpPort[(ip, port) := conn]
              && OnlyList(p.byType, r.pool.byType, kind) && kind in r.pool.byType.vals
              && r.pool.byType.vals[kind] == (if kind in p.byType.vals then p.byType.vals[kind] else []) + [conn]
              && r.pool.byType.order == p.byType.order + (if kind in p.byType.vals then [] else [kind])
              && r.pool.countByIp == p.countByIp[ip := 1 + (if ip in p.countByIp then p.countByIp[ip] else 0)]
  {
    GrowsByHundreds(p.byFileno, fileno);
  }

  lemma {:induction false} GrowsByHundreds<C>(s: Slots<C>, fileno: nat)
    ensures fileno >= |s| ==> |Grow(s, fileno)| <= fileno + 100
    ensures (|Grow(s, fileno)| - |s|) % 100 == 0
    decreases fileno - |s|
  {
    if fileno >= |s| {
      GrowsByHundreds(s + Vacant(INITIAL_FILENO), fileno);
    }
  }

  /** s with the first occurrence of `conn` taken out. */
  ghost predicate TakenOut<C>(s: seq<C>, r: seq<C>, conn: C) {
    exists i :: 0 <= i < |s| && s[i] == conn && conn !in s[..i] && r == s[..i] + s[i + 1..]
  }

  lemma {:induction false} RemoveTakesOut<C>(s: seq<C>, conn: C) returns (i: nat)
    requires conn in s
    ensures i < |s| && s[i] == conn && conn !in s[..i] && Remove(s, conn) == s[..i] + s[i + 1..]
  {
    if s[0] == conn {
      i := 0;
    } else {
      var j := RemoveTakesOut(s[1..], conn);
      i := j + 1;
      assert s[..i] == [s[0]] + s[1..][..j] && s[i + 1..] == s[1..][j + 1..];
    }
  }

  /** The list of a type after one of its connections left: gone if it had one element, else without that connection. */
  ghost predicate ListForgets<C>(d: OrderedDict<ConnectionType, seq<C>>, r: OrderedDict<ConnectionType, seq<C>>,
      kind: ConnectionType, conn: C) {
    && OnlyList(d, r, kind)
    && (kind in r.vals <==> kind in d.vals && |d.vals[kind]| != 1)
    && (kind in r.vals ==> TakenOut(d.vals[kind], r.vals[kind], conn))
  }

  lemma ForgetTypeDoes<C>(d: OrderedDict<ConnectionType, seq<C>>, kind: ConnectionType, conn: C)
    requires !TypeListLacks(d, kind, conn)
    ensures ListForgets(d, ForgetType(d, kind, conn), kind, conn)
  {
    if kind in d.vals && |d.vals[kind]| != 1 {
      var i := RemoveTakesOut(d.vals[kind], conn);
    }
  }

  /**
   Deleting empties the slot of the connection and frees its address pair unless a connection with another slot holds
   it now. It raises before that for a slot that does not exist, and after that for a list of several that lacks the
   connection; if not, the connection leaves its list, its peer id is free, whoever holds it, and one less is counted.
   */
  lemma DeleteDoes<C>(p: Pool<C>, k: map<C, Desc>, conn: C)
    requires conn in k && p.byIpPort.Values <= k.Keys
    ensures var r, d := Delete(p, k, conn), k[conn];
            if d.fileNo >= |p.byFileno| then r == Outcome(p, true)
            else
              && r.pool.byFileno == p.byFileno[d.fileNo := None]
              && (forall a :: a in r.pool.byIpPort <==>
                    a in p.byIpPort && (a == (d.ip, d.port) ==> k[p.byIpPort[a]].fileNo != d.fileNo))
              && (forall a :: a in r.pool.byIpPort ==> r.pool.byIpPort[a] == p.byIpPort[a])
              && (r.raised <==>
                    d.kind in p.byType.vals && |p.byType.vals[d.kind]| != 1 && conn !in p.byType.vals[d.kind])
              && if r.raised
                 then r.pool.byType == p.byType && r.pool.byNodeId == p.byNodeId && r.pool.countByIp == p.countByIp
                 else
                   && ListForgets(p.byType, r.pool.byType, d.kind, conn)
                   && (forall id :: id in r.pool.byNodeId <==> id in p.byNodeId && (id == "" || Some(id) != d.peerId))
                   && (forall id :: id in r.pool.byNodeId ==> r.pool.byNodeId[id] == p.byNodeId[id])
                   && (forall ip :: CountOf(r.pool.countByIp, ip)
                                    == CountOf(p.countByIp, ip) - if ip == d.ip then 1 else 0)
  {
    if k[conn].fileNo < |p.byFileno| && !TypeListLacks(p.byType, k[conn].kind, conn) {
      ForgetTypeDoes(p.byType, k[conn].kind, conn);
    }
  }

  // ----- Agreement of the indexes -----

  function Members<C>(s: Slots<C>): set<C> {
    set i | 0 <= i < |s| && s[i].Some? :: s[i].value
  }

  ghost predicate FilesAgree<C>(s: Slots<C>, k: map<C, Desc>, m: set<C>)
    requires m <= k.Keys
  {
    && (forall i :: 0 <= i < |s| && s[i].Some? ==> s[i].value in m && k[s[i].value].fileNo == i)
    && (forall c :: c in m ==> k[c].fileNo < |s| && s[k[c].fileNo] == Some(c))
  }

  ghost predicate IpPortsAgree<C>(byIpPort: map<(string, int), C>, k: map<C, Desc>, m: set<C>)
    requires m <= k.Keys
  {
    && (forall a :: a in byIpPort ==> byIpPort[a] in m && (k[byIpPort[a]].ip, k[byIpPort[a]].port) == a)
    && (forall c :: c in m ==> (k[c].ip, k[c].port) in byIpPort && byIpPort[(k[c].ip, k[c].port)] == c)
  }

  /** Each connection is in the list of its own type, once, and in no other; no list is empty. */
  ghost predicate TypesAgree<C>(d: OrderedDict<ConnectionType, seq<C>>, k: map<C, Desc>, m: set<C>)
    requires m <= k.Keys
  {
    && d.Valid()
    && (forall t :: t in d.vals ==>
          d.vals[t] != [] && NoDup(d.vals[t]) && forall c :: c in d.vals[t] ==> c in m && k[c].kind == t)
    && (forall c :: c in m ==> c in ListOf(d, k[c].kind))
  }

  /** No entry dangles: each names a pooled connection with that peer id. */
  ghost predicate NodeIdsAgree<C>(byNodeId: map<string, C>, k: map<C, Desc>, m: set<C>)
    requires m <= k.Keys
  {
    forall id :: id in byNodeId ==> id != "" && byNodeId[id] in m && k[byNodeId[id]].peerId == Some(id)
  }

  ghost function AtIp<C>(k: map<C, Desc>, m: set<C>, ip: string): set<C>
    requires m <= k.Keys
  {
    set c | c in m && k[c].ip == ip
  }

  /** The per-address counts are exact, and there is none of zero. */
  ghost predicate CountsAgree<C>(counts: map<string, int>, k: map<C, Desc>, m: set<C>)
    requires m <= k.Keys
  {
    forall ip :: CountOf(counts, ip) == |AtIp(k, m, ip)| && (ip in counts ==> counts[ip] > 0)
  }

  ghost predicate Agree<C>(p: Pool<C>, k: map<C, Desc>, m: set<C>)
    requires m <= k.Keys
  {
    && FilesAgree(p.byFileno, k, m)
    && IpPortsAgree(p.byIpPort, k, m)
    && TypesAgree(p.byType, k, m)
    && NodeIdsAgree(p.byNodeId, k, m)
    && CountsAgree(p.countByIp, k, m)
  }

  /** All five indexes hold the same connections. */
  ghost predicate Consistent<C>(p: Pool<C>, k: map<C, Desc>) {
    Members(p.byFileno) <= k.Keys && Agree(p, k, Members(p.byFileno))
  }

  // ----- Adding -----

  lemma FilesAgreeHasMembers<C>(s: Slots<C>, k: map<C, Desc>, m: set<C>)
    requires m <= k.Keys && FilesAgree(s, k, m)
    ensures Members(s) == m
  {
  }

  lemma AddFiles<C>(s: Slots<C>, k: map<C, Desc>, m: set<C>, conn: C)
    requires conn in k && m <= k.Keys && conn !in m && FilesAgree(s, k, m)
    requires k[conn].fileNo >= |s| || s[k[conn].fileNo].None?
    ensures FilesAgree(Grow(s, k[conn].fileNo)[k[conn].fileNo := Some(conn)], k, m + {conn})
  {
    AddToGrown(s, Grow(s, k[conn].fileNo), k, m, conn, k[conn].fileNo);
  }

  lemma AddToGrown<C>(s: Slots<C>, grown: Slots<C>, k: map<C, Desc>, m: set<C>, conn: C, fileno: nat)
    requires conn in k && m <= k.Keys && conn !in m && FilesAgree(s, k, m) && fileno == k[conn].fileNo
    requires fileno < |grown| && s <= grown && grown[fileno].None?
    requires forall i :: |s| <= i < |grown| ==> grown[i] == None
    ensures FilesAgree(grown[fileno := Some(conn)], k, m + {conn})
  {
    var r := grown[fileno := Some(conn)];
    forall i | 0 <= i < |r| && r[i].Some? ensures r[i].value in m + {conn} && k[r[i].value].fileNo == i {
      if i != fileno {
        assert i < |s| && r[i] == s[i];
      }
    }
    forall c | c in m + {conn} ensures k[c].fileNo < |r| && r[k[c].fileNo] == Some(c) {
      if c != conn {
        assert k[c].fileNo < |s| && s[k[c].fileNo] == Some(c) == grown[k[c].fileNo];
      }
    }
  }

  lemma AddIpPorts<C>(byIpPort: map<(string, int), C>, k: map<C, Desc>, m: set<C>, conn: C)
    requires conn in k && m <= k.Keys && conn !in m && IpPortsAgree(byIpPort, k, m)
    requires (k[conn].ip, k[conn].port) !in byIpPort
    ensures IpPortsAgree(byIpPort[(k[conn].ip, k[conn].port) := conn], k, m + {conn})
  {
  }

  lemma AddTypes<C>(d: OrderedDict<ConnectionType, seq<C>>, k: map<C, Desc>, m: set<C>, conn: C)
    requires conn in k && m <= k.Keys && conn !in m && TypesAgree(d, k, m)
    ensures TypesAgree(Append(d, k[conn].kind, conn), k, m + {conn})
  {
    var kind := k[conn].kind;
    var r := Append(d, kind, conn);
    assert r.vals[kind] == ListOf(d, kind) + [conn];
    assert forall c :: c in m ==> c in ListOf(d, k[c].kind);
  }

  lemma AtIpWith<C>(k: map<C, Desc>, m: set<C>, conn: C, ip: string)
    requires conn in k && m <= k.Keys && conn !in m
    ensures |AtIp(k, m + {conn}, ip)| == |AtIp(k, m, ip)| + if k[conn].ip == ip then 1 else 0
  {
    if ip == k[conn].ip {
      assert AtIp(k, m + {conn}, ip) == AtIp(k, m, ip) + {conn};
    } else {
      assert AtIp(k, m + {conn}, ip) == AtIp(k, m, ip);
    }
  }

  lemma AddCounts<C>(counts: map<string, int>, k: map<C, Desc>, m: set<C>, conn: C)
    requires conn in k && m <= k.Keys && conn !in m && CountsAgree(counts, k, m)
    ensures CountsAgree(counts[k[conn].ip := CountOf(counts, k[conn].ip) + 1], k, m + {conn})
  {
    var after := counts[k[conn].ip := CountOf(counts, k[conn].ip) + 1];
    forall ip ensures CountOf(after, ip) == |AtIp(k, m + {conn}, ip)| && (ip in after ==> after[ip] > 0) {
      assert CountOf(counts, ip) == |AtIp(k, m, ip)|;
      AtIpWith(k, m, conn, ip);
    }
  }

  lemma AddKeeps<C>(p: Pool<C>, k: map<C, Desc>, m: set<C>, conn: C)
    requires conn in k && m <= k.Keys && Agree(p, k, m)
    requires (k[conn].ip, k[conn].port) !in p.byIpPort
    requires k[conn].fileNo >= |p.byFileno| || p.byFileno[k[conn].fileNo].None?
    ensures conn !in m
    ensures Agree(Add(p, k[conn].fileNo, k[conn].ip, k[conn].port, k[conn].kind, conn).pool, k, m + {conn})
  {
    AddFiles(p.byFileno, k, m, conn);
    AddIpPorts(p.byIpPort, k, m, conn);
    AddTypes(p.byType, k, m, conn);
    AddCounts(p.countByIp, k, m, conn);
  }

  lemma AddKeepsConsistent<C>(p: Pool<C>, k: map<C, Desc>, m: set<C>, conn: C)
    requires conn in k && m <= k.Keys && Agree(p, k, m)
    requires (k[conn].ip, k[conn].port) !in p.byIpPort
    requires k[conn].fileNo >= |p.byFileno| || p.byFileno[k[conn].fileNo].None?
    ensures var after := Add(p, k[conn].fileNo, k[conn].ip, k[conn].port, k[conn].kind, conn).pool;
            Consistent(after, k) && Members(after.byFileno) == m + {conn}
  {
    AddKeeps(p, k, m, conn);
    AddFiles(p.byFileno, k, m, conn);
    FilesAgreeHasMembers(Grow(p.byFileno, k[conn].fileNo)[k[conn].fileNo := Some(conn)], k, m + {conn});
  }

  /** What `add` needs of its caller: the connection's own numbers, and a slot nobody holds. */
  predicate AddFits<C>(p: Pool<C>, d: Desc, fileno: nat, ip: string, port: int) {
    && fileno == d.fileNo && ip == d.ip && port == d.port
    && (fileno >= |p.byFileno| || p.byFileno[fileno].None?)
  }

  lemma AddMustFit<C>(p: Pool<C>, k: map<C, Desc>, m: set<C>, conn: C, fileno: nat, ip: string, port: int,
      after: set<C>)
    requires conn in k && m <= k.Keys && after <= k.Keys && (ip, port) !in p.byIpPort
    requires FilesAgree(p.byFileno, k, m) && IpPortsAgree(p.byIpPort, k, m)
    requires FilesAgree(Grow(p.byFileno, fileno)[fileno := Some(conn)], k, after)
    requires IpPortsAgree(p.byIpPort[(ip, port) := conn], k, after)
    ensures AddFits(p, k[conn], fileno, ip, port)
  {
    var s, b := Grow(p.byFileno, fileno)[fileno := Some(conn)], p.byIpPort[(ip, port) := conn];
    assert s[fileno] == Some(conn) && b[(ip, port)] == conn;
    forall c | c in m ensures k[c].fileNo != fileno {
      assert b[(k[c].ip, k[c].port)] == c;
    }
  }

  /** An accepted `add` keeps the indexes consistent exactly when its arguments fit. */
  lemma AddKeepsIff<C>(p: Pool<C>, k: map<C, Desc>, conn: C, fileno: nat, ip: string, port: int)
    requires conn in k && Consistent(p, k)
    requires (ip, port) !in p.byIpPort
    ensures Consistent(Add(p, fileno, ip, port, k[conn].kind, conn).pool, k) <==> AddFits(p, k[conn], fileno, ip, port)
  {
    var m := Members(p.byFileno);
    var after := Add(p, fileno, ip, port, k[conn].kind, conn).pool;
    if AddFits(p, k[conn], fileno, ip, port) {
      AddKeepsConsistent(p, k, m, conn);
    } else if Members(after.byFileno) <= k.Keys && Agree(after, k, Members(after.byFileno)) {
      AddMustFit(p, k, m, conn, fileno, ip, port, Members(after.byFileno));
    }
  }

  // ----- Deleting -----

  lemma {:induction false} RemoveDrops<C>(s: seq<C>, conn: C)
    requires NoDup(s) && conn in s
    ensures NoDup(Remove(s, conn)) && |Remove(s, conn)| == |s| - 1
    ensures forall c :: c in s && c != conn ==> c in Remove(s, conn)
    ensures forall c :: c in Remove(s, conn) ==> c in s && c != conn
  {
    assert forall i, j :: 0 <= i < j < |s[1..]| ==> s[1..][i] == s[i + 1] && s[1..][j] == s[j + 1];
    if s[0] != conn {
      RemoveDrops(s[1..], conn);
      var rest := Remove(s[1..], conn);
      assert Remove(s, conn) == [s[0]] + rest;
      forall c | c in rest ensures c in s && c != conn && c != s[0] {
        var i :| 0 <= i < |s[1..]| && s[1..][i] == c;
      }
      assert forall i :: 0 <= i < |rest| ==> rest[i] in rest;
    } else {
      assert forall c :: c in s && c != conn ==> c in s[1..];
    }
  }

  lemma DeleteFiles<C>(s: Slots<C>, k: map<C, Desc>, m: set<C>, conn: C)
    requires m <= k.Keys && conn in m && FilesAgree(s, k, m)
    ensures k[conn].fileNo < |s| && FilesAgree(s[k[conn].fileNo := None], k, m - {conn})
  {
  }

  lemma DeleteIpPorts<C>(byIpPort: map<(string, int), C>, k: map<C, Desc>, m: set<C>, conn: C)
    requires m <= k.Keys && conn in m && IpPortsAgree(byIpPort, k, m)
    ensures byIpPort.Values <= k.Keys
    ensures ForgetIpPort(byIpPort, k, k[conn]) == byIpPort - {(k[conn].ip, k[conn].port)}
    ensures IpPortsAgree(ForgetIpPort(byIpPort, k, k[conn]), k, m - {conn})
  {
  }

  lemma DeleteTypes<C>(d: OrderedDict<ConnectionType, seq<C>>, k: map<C, Desc>, m: set<C>, conn: C)
    requires m <= k.Keys && conn in m && TypesAgree(d, k, m)
    ensures !TypeListLacks(d, k[conn].kind, conn)
    ensures TypesAgree(ForgetType(d, k[conn].kind, conn), k, m - {conn})
  {
    var kind := k[conn].kind;
    var r := ForgetType(d, kind, conn);
    assert conn in ListOf(d, kind);
    if |d.vals[kind]| == 1 {
      assert forall c :: c in d.vals[kind] ==> c == conn;
    } else {
      RemoveDrops(d.vals[kind], conn);
    }
    forall c | c in m - {conn} ensures c in ListOf(r, k[c].kind) {
      assert c in ListOf(d, k[c].kind);
    }
    forall t | t in r.vals
      ensures r.vals[t] != [] && NoDup(r.vals[t]) && forall c :: c in r.vals[t] ==> c in m - {conn} && k[c].kind == t
    {
      assert t in d.vals;
    }
  }

  lemma DeleteCounts<C>(counts: map<string, int>, k: map<C, Desc>, m: set<C>, conn: C)
    requires m <= k.Keys && conn in m && CountsAgree(counts, k, m)
    ensures CountsAgree(ForgetIp(counts, k[conn].ip), k, m - {conn})
  {
    var after := ForgetIp(counts, k[conn].ip);
    forall ip ensures CountOf(after, ip) == |AtIp(k, m - {conn}, ip)| && (ip in after ==> after[ip] > 0) {
      assert CountOf(counts, ip) == |AtIp(k, m, ip)|;
      if ip == k[conn].ip {
        assert conn in AtIp(k, m, ip);
        assert AtIp(k, m - {conn}, ip) == AtIp(k, m, ip) - {conn};
      } else {
        assert AtIp(k, m - {conn}, ip) == AtIp(k, m, ip);
      }
    }
  }

  lemma DeleteNodeIds<C>(byNodeId: map<string, C>, k: map<C, Desc>, m: set<C>, conn: C)
    requires m <= k.Keys && conn in m && NodeIdsAgree(byNodeId, k, m)
    ensures NodeIdsAgree(ForgetNodeId(byNodeId, k[conn].peerId), k, m - {conn})
  {
  }

  /** Deleting a pooled connection never raises and takes it, and nothing else, out of every index. */
  lemma DeleteKeeps<C>(p: Pool<C>, k: map<C, Desc>, m: set<C>, conn: C)
    requires m <= k.Keys && conn in m && Agree(p, k, m)
    ensures p.byIpPort.Values <= k.Keys && !Delete(p, k, conn).raised
    ensures Agree(Delete(p, k, conn).pool, k, m - {conn})
    ensures Delete(p, k, conn).pool.byIpPort == p.byIpPort - {(k[conn].ip, k[conn].port)}
    ensures k[conn].fileNo < |p.byFileno| && Delete(p, k, conn).pool.byFileno == p.byFileno[k[conn].fileNo := None]
  {
    DeleteFiles(p.byFileno, k, m, conn);
    DeleteIpPorts(p.byIpPort, k, m, conn);
    DeleteTypes(p.byType, k, m, conn);
    DeleteNodeIds(p.byNodeId, k, m, conn);
    DeleteCounts(p.countByIp, k, m, conn);
  }

  // ----- Changing what a connection looks like -----

  /** What the connections outside the pool look like does not matter. */
  lemma AgreeIgnoresOthers<C>(p: Pool<C>, k: map<C, Desc>, j: map<C, Desc>, m: set<C>)
    requires m <= k.Keys && m <= j.Keys && Agree(p, k, m)
    requires forall c :: c in m ==> k[c] == j[c]
    ensures Agree(p, j, m)
  {
    forall ip ensures CountOf(p.countByIp, ip) == |AtIp(j, m, ip)| {
      assert CountOf(p.countByIp, ip) == |AtIp(k, m, ip)|;
      assert AtIp(j, m, ip) == AtIp(k, m, ip);
    }
    TypesIgnoreOthers(p.byType, k, j, m);
  }

  lemma TypesIgnoreOthers<C>(d: OrderedDict<ConnectionType, seq<C>>, k: map<C, Desc>, j: map<C, Desc>, m: set<C>)
    requires m <= k.Keys && m <= j.Keys && TypesAgree(d, k, m)
    requires forall c :: c in m ==> k[c].kind == j[c].kind
    ensures TypesAgree(d, j, m)
  {
    assert forall c :: c in m ==> c in ListOf(d, k[c].kind);
  }

  /** Indexing keeps the indexes consistent exactly when the connection is pooled and bears that, non-empty, id. */
  lemma IndexKeepsIff<C>(p: Pool<C>, k: map<C, Desc>, id: string, conn: C)
    requires conn in k && Consistent(p, k)
    ensures Consistent(IndexNodeId(p, id, conn), k)
       <==> conn in Members(p.byFileno) && id != "" && k[conn].peerId == Some(id)
  {
    NodeIdsIndexIff(p.byNodeId, k, Members(p.byFileno), id, conn);
  }

  lemma NodeIdsIndexIff<C>(byNodeId: map<string, C>, k: map<C, Desc>, m: set<C>, id: string, conn: C)
    requires conn in k && m <= k.Keys && NodeIdsAgree(byNodeId, k, m)
    ensures NodeIdsAgree(byNodeId[id := conn], k, m) <==> conn in m && id != "" && k[conn].peerId == Some(id)
  {
    assert byNodeId[id := conn][id] == conn;
  }

  /** A connection may take a peer id exactly when the pool does not already list it under another one. */
  lemma PeerIdKeepsIff<C>(p: Pool<C>, k: map<C, Desc>, conn: C, id: Option<string>)
    requires conn in k && Consistent(p, k)
    ensures Consistent(p, WithPeerId(k, conn, id))
       <==> forall i :: i in p.byNodeId && p.byNodeId[i] == conn ==> id == Some(i)
  {
    var m, j := Members(p.byFileno), WithPeerId(k, conn, id);
    RestIgnoresPeerIds(p, k, j, m);
    NodeIdsAllowIff(p.byNodeId, k, m, conn, id);
  }

  lemma RestIgnoresPeerIds<C>(p: Pool<C>, k: map<C, Desc>, j: map<C, Desc>, m: set<C>)
    requires m <= k.Keys && m <= j.Keys && Agree(p, k, m)
    requires forall c :: c in m ==> j[c] == k[c].(peerId := j[c].peerId)
    ensures Agree(p, j, m) <==> NodeIdsAgree(p.byNodeId, j, m)
  {
    TypesIgnoreOthers(p.byType, k, j, m);
    NumbersIgnorePeerIds(p.byFileno, p.byIpPort, k, j, m);
    CountsIgnorePeerIds(p.countByIp, k, j, m);
  }

  lemma NumbersIgnorePeerIds<C>(s: Slots<C>, byIpPort: map<(string, int), C>, k: map<C, Desc>, j: map<C, Desc>,
      m: set<C>)
    requires m <= k.Keys && m <= j.Keys && FilesAgree(s, k, m) && IpPortsAgree(byIpPort, k, m)
    requires forall c :: c in m ==> j[c].fileNo == k[c].fileNo && j[c].ip == k[c].ip && j[c].port == k[c].port
    ensures FilesAgree(s, j, m) && IpPortsAgree(byIpPort, j, m)
  {
  }

  lemma CountsIgnorePeerIds<C>(counts: map<string, int>, k: map<C, Desc>, j: map<C, Desc>, m: set<C>)
    requires m <= k.Keys && m <= j.Keys && CountsAgree(counts, k, m)
    requires forall c :: c in m ==> j[c].ip == k[c].ip
    ensures CountsAgree(counts, j, m)
  {
    forall ip ensures CountOf(counts, ip) == |AtIp(j, m, ip)| {
      assert CountOf(counts, ip) == |AtIp(k, m, ip)|;
      assert AtIp(j, m, ip) == AtIp(k, m, ip);
    }
  }

  lemma NodeIdsAllowIff<C>(byNodeId: map<string, C>, k: map<C, Desc>, m: set<C>, conn: C, id: Option<string>)
    requires conn in k && m <= k.Keys && NodeIdsAgree(byNodeId, k, m)
    ensures NodeIdsAgree(byNodeId, WithPeerId(k, conn, id), m)
       <==> forall i :: i in byNodeId && byNodeId[i] == conn ==> id == Some(i)
  {
  }

  lemma DeletedReadyToAdd<C>(p: Pool<C>, k: map<C, Desc>, m: set<C>, conn: C, j: map<C, Desc>)
    requires m <= k.Keys && conn in m && Agree(p, k, m)
    requires j.Keys == k.Keys && forall c :: c in m - {conn} ==> j[c] == k[c]
    ensures p.byIpPort.Values <= k.Keys && !Delete(p, k, conn).raised
    ensures var cut := Delete(p, k, conn).pool;
            && Agree(cut, j, m - {conn})
            && (k[conn].ip, k[conn].port) !in cut.byIpPort
            && k[conn].fileNo < |cut.byFileno| && cut.byFileno[k[conn].fileNo].None?
            && cut.byNodeId == ForgetNodeId(p.byNodeId, k[conn].peerId)
  {
    DeleteKeeps(p, k, m, conn);
    AgreeIgnoresOthers(Delete(p, k, conn).pool, k, j, m - {conn});
  }

  /** Deleted and added again under its new type, a connection is back in every index but that of the node ids. */
  lemma MovedIsConsistent<C>(p: Pool<C>, k: map<C, Desc>, conn: C, kind: ConnectionType)
    requires Consistent(p, k) && conn in Members(p.byFileno)
    ensures p.byIpPort.Values <= k.Keys && !Delete(p, k, conn).raised
    ensures var back := Moved(p, k, conn, kind).pool;
            Consistent(back, WithKind(k, conn, kind)) && Members(back.byFileno) == Members(p.byFileno)
  {
    var m, j := Members(p.byFileno), WithKind(k, conn, kind);
    DeletedReadyToAdd(p, k, m, conn, j);
    AddedBack(Delete(p, k, conn).pool, j, m, conn);
  }

  lemma AddedBack<C>(cut: Pool<C>, k: map<C, Desc>, m: set<C>, conn: C)
    requires conn in m && m <= k.Keys && Agree(cut, k, m - {conn})
    requires (k[conn].ip, k[conn].port) !in cut.byIpPort
    requires k[conn].fileNo >= |cut.byFileno| || cut.byFileno[k[conn].fileNo].None?
    ensures var after := Add(cut, k[conn].fileNo, k[conn].ip, k[conn].port, k[conn].kind, conn).pool;
            Consistent(after, k) && Members(after.byFileno) == m
  {
    AddKeepsConsistent(cut, k, m - {conn}, conn);
    assert m - {conn} + {conn} == m;
  }

  lemma MovedOnlyForgetsId<C>(p: Pool<C>, k: map<C, Desc>, conn: C, kind: ConnectionType)
    requires Consistent(p, k) && conn in Members(p.byFileno)
    ensures p.byIpPort.Values <= k.Keys && !Moved(p, k, conn, kind).raised
    ensures Moved(p, k, conn, kind).pool.byNodeId == ForgetNodeId(p.byNodeId, k[conn].peerId)
  {
    DeletedReadyToAdd(p, k, Members(p.byFileno), conn, k);
  }

  /** How `update_connection_type` ends once the connection is back. */
  lemma UpdateTypeIs<C>(p: Pool<C>, k: map<C, Desc>, conn: C, kind: ConnectionType)
    requires conn in k && p.byIpPort.Values <= k.Keys && !Delete(p, k, conn).raised && !Moved(p, k, conn, kind).raised
    ensures UpdateType(p, k, conn, kind)
         == match k[conn].peerId
            case None => Outcome(Moved(p, k, conn, kind).pool, true)
            case Some(id) => Outcome(IndexNodeId(Moved(p, k, conn, kind).pool, id, conn), false)
  {
  }

  lemma ReindexedAnyway<C>(byNodeId: map<string, C>, id: string, conn: C)
    ensures ForgetNodeId(byNodeId, Some(id))[id := conn] == byNodeId[id := conn]
  {
  }

  /**
   A pooled connection that changes its type stays in the pool, under its new type and its peer id; that the type
   is changed between the deletion and the addition is what keeps the lists by type right.
   */
  lemma UpdateTypeKeeps<C>(p: Pool<C>, k: map<C, Desc>, conn: C, kind: ConnectionType)
    requires Consistent(p, k) && conn in Members(p.byFileno)
    ensures p.byIpPort.Values <= k.Keys
    ensures UpdateType(p, k, conn, kind).raised <==> k[conn].peerId.None?
    ensures Members(UpdateType(p, k, conn, kind).pool.byFileno) == Members(p.byFileno)
    ensures k[conn].peerId != Some("") ==> Consistent(UpdateType(p, k, conn, kind).pool, WithKind(k, conn, kind))
    ensures k[conn].peerId.Some? ==>
              UpdateType(p, k, conn, kind).pool.byNodeId == p.byNodeId[k[conn].peerId.value := conn]
  {
    MovedIsConsistent(p, k, conn, kind);
    MovedOnlyForgetsId(p, k, conn, kind);
    UpdateTypeIs(p, k, conn, kind);
    var back := Moved(p, k, conn, kind).pool;
    match k[conn].peerId
    case None =>
    case Some(id) =>
      ReindexedAnyway(p.byNodeId, id, conn);
      IndexKeepsIff(back, WithKind(k, conn, kind), id, conn);
  }

  // ----- Lookup by type -----

  predicate Matches(kind: ConnectionType, types: seq<ConnectionType>) {
    exists i :: 0 <= i < |types| && kind * types[i] != {}
  }

  ghost predicate AllKeys<C>(order: seq<ConnectionType>, vals: map<ConnectionType, seq<C>>) {
    forall i :: 0 <= i < |order| ==> order[i] in vals
  }

  /** The lists of the matching types, one after the other. */
  function Collected<C>(order: seq<ConnectionType>, vals: map<ConnectionType, seq<C>>,
      types: seq<ConnectionType>): seq<C>
    requires AllKeys(order, vals)
  {
    if order == [] then []
    else (if Matches(order[0], types) then vals[order[0]] else []) + Collected(order[1..], vals, types)
  }

  lemma {:induction false} CollectedHolds<C>(order: seq<ConnectionType>, vals: map<ConnectionType, seq<C>>,
                                             types: seq<ConnectionType>, k: map<C, Desc>)
    requires NoDup(order)
    requires forall i :: 0 <= i < |order| ==> order[i] in vals && NoDup(vals[order[i]])
    requires forall i :: 0 <= i < |order| ==> forall c :: c in vals[order[i]] ==> c in k && k[c].kind == order[i]
    ensures NoDup(Collected(order, vals, types))
    ensures forall c :: c in Collected(order, vals, types) ==>
              c in k && k[c].kind in order && c in vals[k[c].kind] && Matches(k[c].kind, types)
    ensures forall t :: t in order && Matches(t, types) ==>
              forall c :: c in vals[t] ==> c in Collected(order, vals, types)
  {
    if order != [] {
      var t, rest := order[0], Collected(order[1..], vals, types);
      CollectedHolds(order[1..], vals, types, k);
      assert t !in order[1..];
      var first := if Matches(t, types) then vals[t] else [];
      forall i, j | 0 <= i < |first| && 0 <= j < |rest| ensures first[i] != rest[j] {
        assert rest[j] in rest;
        assert k[rest[j]].kind in order[1..];
        assert first[i] in vals[order[0]];
      }
    }
  }

  lemma CollectedFirst<C>(first: ConnectionType, rest: seq<ConnectionType>, vals: map<ConnectionType, seq<C>>,
                          types: seq<ConnectionType>)
    requires first in vals && AllKeys(rest, vals)
    ensures AllKeys([first] + rest, vals)
    ensures Collected([first] + rest, vals, types)
            == (if Matches(first, types) then vals[first] else []) + Collected(rest, vals, types)
  {
    assert ([first] + rest)[1..] == rest;
  }

  lemma AllKeysBoth<C>(a: seq<ConnectionType>, b: seq<ConnectionType>, vals: map<ConnectionType, seq<C>>)
    requires AllKeys(a, vals) && AllKeys(b, vals)
    ensures AllKeys(a + b, vals)
  {
  }

  /** The lists come in the order of their types. */
  lemma {:induction false} CollectedInOrder<C>(a: seq<ConnectionType>, b: seq<ConnectionType>,
                                               vals: map<ConnectionType, seq<C>>, types: seq<ConnectionType>)
    requires AllKeys(a, vals) && AllKeys(b, vals)
    ensures AllKeys(a + b, vals)
    ensures Collected(a + b, vals, types) == Collected(a, vals, types) + Collected(b, vals, types)
  {
    AllKeysBoth(a, b, vals);
    if a == [] {
      assert a + b == b;
    } else {
      var first, rest := a[0], a[1..];
      assert a == [first] + rest && a + b == [first] + (rest + b);
      CollectedInOrder(rest, b, vals, types);
      CollectedFirst(first, rest + b, vals, types);
      CollectedFirst(first, rest, vals, types);
    }
  }

  lemma CollectedOne<C>(t: ConnectionType, vals: map<ConnectionType, seq<C>>, types: seq<ConnectionType>)
    requires t in vals
    ensures Collected([t], vals, types)
            == if exists i :: 0 <= i < |types| && t * types[i] != {} then vals[t] else []
  {
    CollectedFirst(t, [], vals, types);
    assert [t] + [] == [t];
  }

  /** Looking up types yields every pooled connection whose type shares a flag with one of them, and none twice. */
  lemma LookupIsExact<C>(p: Pool<C>, k: map<C, Desc>, types: seq<ConnectionType>)
    requires Consistent(p, k)
    ensures forall i :: 0 <= i < |p.byType.order| ==> p.byType.order[i] in p.byType.vals
    ensures var r := Collected(p.byType.order, p.byType.vals, types);
            && NoDup(r)
            && (forall c :: c in r <==>
                  c in Members(p.byFileno) && exists i :: 0 <= i < |types| && k[c].kind * types[i] != {})
  {
    var d := p.byType;
    CollectedHolds(d.order, d.vals, types, k);
    forall c | c in Members(p.byFileno) && Matches(k[c].kind, types)
      ensures c in Collected(d.order, d.vals, types)
    {
      assert c in ListOf(d, k[c].kind);
      assert k[c].kind in d.order;
    }
  }

  // ----- Whole runs -----

  /** What the node does with the pool; a connection that authenticates may also turn out to be of another type. */
  datatype Op<C> = Opened(conn: C) | Authenticated(conn: C, id: string, kind: ConnectionType) | Closed(conn: C)

  datatype State<C> = State(pool: Pool<C>, looks: map<C, Desc>)

  ghost predicate Sound<C>(s: State<C>) {
    Consistent(s.pool, s.looks)
  }

  /**
   The file number of a new connection is not in use; only pooled connections are closed or authenticate, and the
   latter under a non-empty id and not under a second one.
   */
  predicate Allowed<C(==)>(s: State<C>, op: Op<C>) {
    && op.conn in s.looks
    && match op
       case Opened(conn) =>
         s.looks[conn].fileNo >= |s.pool.byFileno| || s.pool.byFileno[s.looks[conn].fileNo].None?
       case Authenticated(conn, id, _) =>
         && conn in Members(s.pool.byFileno) && id != ""
         && forall i :: i in s.pool.byNodeId && s.pool.byNodeId[i] == conn ==> i == id
       case Closed(conn) => conn in Members(s.pool.byFileno)
  }

  function Authenticate<C(==)>(s: State<C>, conn: C, id: string, kind: ConnectionType): State<C>
    requires conn in s.looks && s.pool.byIpPort.Values <= s.looks.Keys
  {
    var known := WithPeerId(s.looks, conn, Some(id));
    if known[conn].kind == kind then State(IndexNodeId(s.pool, id, conn), known)
    else State(IndexNodeId(UpdateType(s.pool, known, conn, kind).pool, id, conn), WithKind(known, conn, kind))
  }

  function Step<C(==)>(s: State<C>, op: Op<C>): State<C>
    requires op.conn in s.looks && s.pool.byIpPort.Values <= s.looks.Keys
  {
    match op
    case Opened(conn) =>
      var d := s.looks[conn];
      s.(pool := Add(s.pool, d.fileNo, d.ip, d.port, d.kind, conn).pool)
    case Authenticated(conn, id, kind) => Authenticate(s, conn, id, kind)
    case Closed(conn) => s.(pool := Delete(s.pool, s.looks, conn).pool)
  }

  lemma AuthenticateKeeps<C>(s: State<C>, conn: C, id: string, kind: ConnectionType)
    requires Sound(s) && Allowed(s, Authenticated(conn, id, kind))
    ensures s.pool.byIpPort.Values <= s.looks.Keys && Sound(Authenticate(s, conn, id, kind))
    ensures Members(Authenticate(s, conn, id, kind).pool.byFileno) == Members(s.pool.byFileno)
  {
    var known := WithPeerId(s.looks, conn, Some(id));
    PeerIdKeepsIff(s.pool, s.looks, conn, Some(id));
    if known[conn].kind == kind {
      IndexKeepsIff(s.pool, known, id, conn);
    } else {
      UpdateTypeKeeps(s.pool, known, conn, kind);
      IndexKeepsIff(UpdateType(s.pool, known, conn, kind).pool, WithKind(known, conn, kind), id, conn);
    }
  }

  /** Every allowed operation keeps the five indexes in step. */
  lemma StepKeeps<C>(s: State<C>, op: Op<C>)
    requires Sound(s) && Allowed(s, op)
    ensures s.pool.byIpPort.Values <= s.looks.Keys && Sound(Step(s, op))
  {
    var m := Members(s.pool.byFileno);
    match op {
      case Opened(conn) =>
        var d := s.looks[conn];
        if (d.ip, d.port) !in s.pool.byIpPort {
          AddKeepsIff(s.pool, s.looks, conn, d.fileNo, d.ip, d.port);
        }
      case Authenticated(conn, id, kind) => AuthenticateKeeps(s, conn, id, kind);
      case Closed(conn) =>
        DeleteKeeps(s.pool, s.looks, m, conn);
        FilesAgreeHasMembers(Step(s, op).pool.byFileno, s.looks, m - {conn});
    }
  }

  ghost predicate AllAllowed<C>(s: State<C>, ops: seq<Op<C>>)
    requires Sound(s)
    decreases |ops|
  {
    ops != [] ==>
      && Allowed(s, ops[0])
      && (StepKeeps(s, ops[0]); AllAllowed(Step(s, ops[0]), ops[1..]))
  }

  ghost function Run<C>(s: State<C>, ops: seq<Op<C>>): (r: State<C>)
    requires Sound(s) && AllAllowed(s, ops)
    ensures Sound(r)
    decreases |ops|
  {
    if ops == [] then s
    else
      StepKeeps(s, ops[0]);
      Run(Step(s, ops[0]), ops[1..])
  }

  lemma EmptyIsSound<C>(looks: map<C, Desc>)
    ensures Sound(State(EmptyPool(), looks))
  {
    var s := State(EmptyPool(), looks);
    assert Members(s.pool.byFileno) == {};
    forall ip ensures |AtIp(looks, {}, ip)| == 0 {
      assert AtIp(looks, {}, ip) == {};
    }
  }

  /** In every run from an empty pool a lookup by types yields no connection twice and misses none. */
  lemma EveryRunLooksUpExactly<C>(looks: map<C, Desc>, ops: seq<Op<C>>, types: seq<ConnectionType>)
    requires Sound(State(EmptyPool(), looks)) && AllAllowed(State(EmptyPool(), looks), ops)
    ensures var s := Run(State(EmptyPool(), looks), ops);
            && (forall i :: 0 <= i < |s.pool.byType.order| ==> s.pool.byType.order[i] in s.pool.byType.vals)
            && var r := Collected(s.pool.byType.order, s.pool.byType.vals, types);
               && NoDup(r)
               && (forall c :: c in r <==>
                     c in Members(s.pool.byFileno) && exists i :: 0 <= i < |types| && s.looks[c].kind * types[i] != {})
  {
    var s := Run(State(EmptyPool(), looks), ops);
    LookupIsExact(s.pool, s.looks, types);
  }
}
