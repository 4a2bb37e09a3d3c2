/**
 Every operation of the transaction cache keeps its invariant, hence every run from an empty cache does,
 provided the network never assigns one short id to two live transactions.
 */
module TransactionRuns {
  import opened Basics
  import opened OrderedDicts
  import opened TransactionCache
  import opened ExpirationQueues
  import opened TransactionEvictions

  // ----- Assigning a short id -----

  /** What the network guarantees of an assignment. */
  predicate Fresh(c: Cache, key: Key, sid: Sid) {
    sid == NULL_TX_SID || sid !in c.sidTx || c.sidTx[sid] == key
  }

  lemma AssignInverse(sidTx: map<Sid, Key>, txSids: map<Key, set<Sid>>, key: Key, sid: Sid)
    requires Inverse(sidTx, txSids) && (sid !in sidTx || sidTx[sid] == key)
    ensures Inverse(sidTx[sid := key], txSids[key := (if key in txSids then txSids[key] else {}) + {sid}])
  {
    var r := txSids[key := (if key in txSids then txSids[key] else {}) + {sid}];
    forall k, s | k in r && s in r[k] ensures s in sidTx[sid := key] && sidTx[sid := key][s] == k {
      if k == key {
        assert s == sid || s in txSids[key];
      } else {
        assert s in txSids[k];
      }
    }
  }

  lemma AwaitContentKept(c: Cache, key: Key, now: int)
    requires Kept(c)
    ensures Kept(AwaitContent(c, key, now))
  {
  }

  /** After `AwaitContent`, so that `key` is covered; the alarm for the assignment queue comes next. */
  lemma LinkFiled(c: Cache, key: Key, sid: Sid, now: int)
    requires QueuesValid(c) && AssignedExact(c) && NoLeak(c) && (key in c.contents || key in c.noContentQ.vals)
    ensures var r := Link(c, key, sid, now); QueuesValid(r) && AssignedExact(r) && NoLeak(r)
  {
    var q := c.assignQ.Set(sid, now);
    assert q.vals == c.assignQ.vals[sid := now];
    assert c.txSids[key := SidsOf(c, key) + {sid}].Keys == c.txSids.Keys + {key};
  }

  lemma LinkAlarmed(c: Cache, key: Key, sid: Sid, now: int)
    requires Alarmed(c)
    ensures Alarmed(RegisterOnce(Link(c, key, sid, now), ExpireAssignments))
  {
  }

  lemma AssignKept(c: Cache, key: Key, sid: Sid, now: int)
    requires Kept(c)
    ensures Kept(Assign(c, key, sid, now)) && Assign(c, key, sid, now).total == c.total
  {
    if sid != NULL_TX_SID {
      AwaitContentKept(c, key, now);
      LinkFiled(AwaitContent(c, key, now), key, sid, now);
      LinkAlarmed(AwaitContent(c, key, now), key, sid, now);
    }
  }

  lemma AssignKeeps(c: Cache, key: Key, sid: Sid, now: int)
    requires Sound(c) && Fresh(c, key, sid)
    ensures Sound(Assign(c, key, sid, now)) && Assign(c, key, sid, now).total == c.total
  {
    AssignKept(c, key, sid, now);
    if sid != NULL_TX_SID {
      AssignInverse(c.sidTx, c.txSids, key, sid);
    }
  }

  /** Giving a short id to a second live transaction breaks the index: the first still lists it. */
  lemma AssignTakenBreaksIndex(c: Cache, key: Key, sid: Sid, now: int)
    requires Sound(c) && !Fresh(c, key, sid)
    ensures !Index(Assign(c, key, sid, now))
  {
    var r := Assign(c, key, sid, now);
    assert sid in r.txSids[c.sidTx[sid]] && r.sidTx[sid] == key;
  }

  lemma AssignKeepsIff(c: Cache, key: Key, sid: Sid, now: int)
    requires Sound(c)
    ensures Sound(Assign(c, key, sid, now)) <==> Fresh(c, key, sid)
  {
    if Fresh(c, key, sid) {
      AssignKeeps(c, key, sid, now);
    } else {
      AssignTakenBreaksIndex(c, key, sid, now);
    }
  }

  // ----- Storing contents -----

  lemma AwaitSidKept(c: Cache, key: Key, now: int)
    requires Kept(c)
    ensures Kept(AwaitSid(c, key, now))
  {
  }

  lemma StoreKept(c: Cache, key: Key, contents: Bytes)
    requires Kept(c) && (key in c.txSids || key in c.noSidQ.vals)
    ensures Kept(Store(c, key, contents))
  {
    TotalLenSet(c.contents, key, contents);
  }

  lemma PutKeeps(c: Cache, key: Key, contents: Bytes, now: int)
    requires Sound(c)
    ensures Sound(PutContents(c, key, contents, now))
  {
    AwaitSidKept(c, key, now);
    StoreKept(AwaitSid(c, key, now), key, contents);
  }

  lemma ClearKeeps(c: Cache)
    requires Sound(c)
    ensures Sound(Clear(c))
  {
  }

  lemma SetContentsKeeps(cfg: Config, c: Cache, key: Key, contents: Bytes, now: int)
    requires Sound(c)
    ensures Sound(SetContents(cfg, c, key, contents, now))
    ensures SetContents(cfg, c, key, contents, now).total <= cfg.memoryLimit
  {
    PutKeeps(c, key, contents, now);
    var p := PutContents(c, key, contents, now);
    var m := CleanUpEvictsFewestOldest(cfg, p);
    DropOldestSound(p, m);
    ClearKeeps(p);
  }

  lemma SetContentsInv(cfg: Config, c: Cache, key: Key, contents: Bytes, now: int)
    requires Inv(cfg, c)
    ensures Inv(cfg, SetContents(cfg, c, key, contents, now))
  {
    SetContentsKeeps(cfg, c, key, contents, now);
  }

  // ----- Removal -----

  lemma RemoveBySidKeeps(c: Cache, sid: Sid, related: bool, force: bool)
    requires Sound(c)
    ensures Sound(RemoveBySid(c, sid, related, force))
    ensures RemoveBySid(c, sid, related, force).total <= c.total
  {
    RemoveBySidSound(c, sid, related, force);
  }

  /** `noSidQ` may already have lost `key`, as it has when the expiry loop calls. */
  ghost predicate KeptButNoSid(c: Cache, key: Key) {
    && QueuesValid(c) && AssignedExact(c) && Accounted(c) && Alarmed(c)
    && Covered(c.contents.Keys - {key}, c.txSids.Keys, c.noSidQ)
    && Covered(c.txSids.Keys, c.contents.Keys, c.noContentQ)
  }

  lemma DropContentsKept(c: Cache, key: Key)
    requires KeptButNoSid(c, key) && key !in c.txSids
    ensures Kept(DropContents(c, key)) && DropContents(c, key).total <= c.total
  {
    if key in c.contents {
      TotalLenSplit(c.contents, key);
    }
  }

  lemma RemoveByKeyKeeps(c: Cache, key: Key, force: bool, assumeNoSid: bool)
    requires Index(c) && KeptButNoSid(c, key)
    ensures Sound(RemoveByKey(c, key, force, assumeNoSid))
    ensures RemoveByKey(c, key, force, assumeNoSid).total <= c.total
  {
    if key in c.txSids {
      if !(assumeNoSid && c.txSids[key] != {}) && !Protected(c, key, force) {
        DropKeeps(c, key);
      }
    } else {
      DropContentsKept(c, key);
    }
  }

  /** `noContentQ` may already have lost `key`, as it has when the expiry loop calls. */
  ghost predicate KeptButNoContent(c: Cache, key: Key) {
    && QueuesValid(c) && AssignedExact(c) && Accounted(c) && Alarmed(c)
    && Covered(c.contents.Keys, c.txSids.Keys, c.noSidQ)
    && Covered(c.txSids.Keys - {key}, c.contents.Keys, c.noContentQ)
  }

  lemma RemoveSidsOfKeyKept(c: Cache, key: Key)
    requires KeptButNoContent(c, key) && key in c.txSids && key !in c.contents
    ensures Kept(DropTransaction(c, key)) && DropTransaction(c, key).total == c.total
  {
    var r := DropTransaction(c, key);
    assert r.assignQ.vals.Keys == r.sidTx.Keys;
  }

  lemma RemoveSidsOfKeyKeeps(c: Cache, key: Key)
    requires Index(c) && KeptButNoContent(c, key)
    ensures Sound(RemoveSidsOfKey(c, key))
    ensures RemoveSidsOfKey(c, key).total == c.total
  {
    if key !in c.contents && key in c.txSids {
      DropIndex(c, key);
      RemoveSidsOfKeyKept(c, key);
    }
  }

  // ----- Expiry -----

  lemma ExpireAssignedKeeps(cfg: Config, c: Cache, now: int, limit: nat)
    requires Sound(c)
    ensures Sound(ExpireAssigned(cfg, c, now, limit))
    ensures ExpireAssigned(cfg, c, now, limit).total <= c.total
  {
    ExpiryDropsOldPrefix(cfg, c, now, limit);
    DropOldestSound(c, ExpiryStop(c.assignQ, now, cfg.sidExpireTime, 0, limit));
  }

  lemma PopUnassignedKeeps(c: Cache)
    requires Sound(c) && c.noSidQ.order != []
    ensures Sound(PopUnassigned(c)) && PopUnassigned(c).total <= c.total
  {
    RemoveByKeyKeeps(c.(noSidQ := c.noSidQ.DropFirst()), c.noSidQ.order[0], true, true);
  }

  lemma PopEmptyKeeps(c: Cache)
    requires Sound(c) && c.noContentQ.order != []
    ensures Sound(PopEmpty(c)) && PopEmpty(c).total == c.total
  {
    RemoveSidsOfKeyKeeps(c.(noContentQ := c.noContentQ.DropFirst()), c.noContentQ.order[0]);
  }

  lemma {:induction false} ExpireUnassignedKeeps(c: Cache, now: int, limit: nat)
    requires Sound(c)
    ensures Sound(ExpireUnassigned(c, now, limit))
    ensures ExpireUnassigned(c, now, limit).total <= c.total
    decreases limit
  {
    if limit > 0 && FrontExpired(c.noSidQ, now, TX_CONTENT_NO_SID_EXPIRE_S) {
      PopUnassignedKeeps(c);
      ExpireUnassignedKeeps(PopUnassigned(c), now, limit - 1);
    }
  }

  lemma {:induction false} ExpireEmptyKeeps(c: Cache, now: int, limit: nat)
    requires Sound(c)
    ensures Sound(ExpireEmpty(c, now, limit))
    ensures ExpireEmpty(c, now, limit).total == c.total
    decreases limit
  {
    if limit > 0 && FrontExpired(c.noContentQ, now, TX_CONTENT_NO_SID_EXPIRE_S) {
      PopEmptyKeeps(c);
      ExpireEmptyKeeps(PopEmpty(c), now, limit - 1);
    }
  }

  lemma UnscheduleKeeps(c: Cache, t: Task)
    requires Sound(c) && t in c.flagged
    requires t == ExpireAssignments ==> c.assignQ.order == []
    requires t == ExpireContent ==> c.noSidQ.order == []
    requires t == ExpireSids ==> c.noContentQ.order == []
    ensures Sound(c.(flagged := c.flagged - {t}, scheduled := c.scheduled - multiset{t}))
  {
    assert c.scheduled[t] == 1;
  }

  /** A fired clean-up task stays pending exactly as long as its queue is non-empty. */
  lemma FireKeeps(cfg: Config, c: Cache, t: Task, now: int)
    requires Sound(c)
    ensures Sound(Fire(cfg, c, t, now)) && Fire(cfg, c, t, now).total <= c.total
    ensures Fire(cfg, c, t, now).seen == c.seen
  {
    if t in c.scheduled {
      ExpireAssignedKeeps(cfg, c, now, MAX_EXPIRED_TXS_TO_REMOVE);
      ExpireUnassignedKeeps(c, now, MAX_EXPIRED_TXS_TO_REMOVE);
      ExpireEmptyKeeps(c, now, MAX_EXPIRED_TXS_TO_REMOVE);
      var e := match t
        case ExpireAssignments => ExpireAssigned(cfg, c, now, MAX_EXPIRED_TXS_TO_REMOVE)
        case ExpireContent => ExpireUnassigned(c, now, MAX_EXPIRED_TXS_TO_REMOVE)
        case ExpireSids => ExpireEmpty(c, now, MAX_EXPIRED_TXS_TO_REMOVE);
      if Expire(cfg, c, t, now).1 <= 0 {
        UnscheduleKeeps(e, t);
      }
    }
  }

  // ----- Blocks -----

  lemma {:induction false} RetireAllKeeps(c: Cache, sids: seq<Sid>)
    requires Sound(c)
    ensures Sound(RetireAll(c, sids)) && RetireAll(c, sids).total <= c.total
    ensures RetireAll(c, sids).seen == c.seen
    decreases |sids|
  {
    if sids != [] {
      RemoveBySidKeeps(c, sids[0], true, true);
      RetireAllKeeps(RemoveBySid(c, sids[0], true, true), sids[1..]);
    }
  }

  lemma TrackKeeps(cfg: Config, c: Cache, block: Block, sids: seq<Sid>)
    requires Inv(cfg, c)
    ensures Inv(cfg, Track(cfg, c, block, sids))
  {
    var c1 := c.(seen := c.seen.Set(block, sids));
    if |c1.seen.order| >= cfg.confirmations {
      RetireAllKeeps(c1.(seen := c1.seen.DropFirst()), c1.seen.vals[c1.seen.order[0]]);
    }
  }

  lemma SeenKeeps(c: Cache, seen: OrderedDict<Block, seq<Sid>>)
    requires Sound(c) && seen.Valid()
    ensures Sound(c.(seen := seen))
  {
  }

  lemma RetireWithSeen(c: Cache, seen: OrderedDict<Block, seq<Sid>>, sids: seq<Sid>)
    requires Sound(c) && seen.Valid()
    ensures RetireAll(c.(seen := seen), sids) == WithoutTxs(c, TxsOf(c, sids)).(seen := seen)
  {
    var d := c.(seen := seen);
    SeenKeeps(c, seen);
    RetireAllIsWithout(d, sids);
    assert TxsOf(d, sids) == TxsOf(c, sids);
    assert SidsOfAny(d, TxsOf(c, sids)) == SidsOfAny(c, TxsOf(c, sids));
  }

  /** When the confirmation count is reached, the transactions the oldest tracked block named go, and only they. */
  lemma TrackRetiresOldestBlock(cfg: Config, c: Cache, block: Block, sids: seq<Sid>)
    requires Inv(cfg, c) && |c.seen.Set(block, sids).order| >= cfg.confirmations
    ensures var tracked := c.seen.Set(block, sids);
            tracked.order != [] &&
            Track(cfg, c, block, sids)
            == WithoutTxs(c, TxsOf(c, tracked.vals[tracked.order[0]])).(seen := tracked.DropFirst())
  {
    var tracked := c.seen.Set(block, sids);
    assert block in tracked.order;
    RetireWithSeen(c, tracked.DropFirst(), tracked.vals[tracked.order[0]]);
  }

  /**
   A removed transaction is gone completely: all its short ids, their assignment entries and its content. Its
   entries in the two waiting queues stay, and nothing of another transaction changes.
   */
  lemma RemovedCompletely(c: Cache, keys: set<Key>, key: Key, sid: Sid)
    requires Sound(c)
    ensures var r := WithoutTxs(c, keys);
            && (key in keys ==> key !in r.txSids && key !in r.contents && SidsOf(c, key) !! r.assignQ.vals.Keys)
            && (key !in keys ==> SidsOf(r, key) == SidsOf(c, key) && (key in r.contents <==> key in c.contents))
            && (sid in r.sidTx <==> sid in c.sidTx && c.sidTx[sid] !in keys)
            && (sid in r.assignQ.vals <==> sid in r.sidTx)
            && r.noSidQ == c.noSidQ && r.noContentQ == c.noContentQ
  {
    assert sid in c.assignQ.vals.Keys <==> sid in c.sidTx.Keys;
    if key in keys {
      forall s | s in SidsOf(c, key) ensures s in SidsOfAny(c, keys) {
      }
    }
  }

  // ----- Whole runs -----

  datatype Op =
    | OpAssign(key: Key, sid: Sid, now: int)
    | OpSetContents(key: Key, contents: Bytes, now: int)
    | OpMarkPaid(sid: Sid)
    | OpRemoveBySid(sid: Sid, related: bool, force: bool)
    | OpRemoveByKey(key: Key, force: bool, assumeNoSid: bool)
    | OpRemoveSidsOfKey(key: Key)
    | OpFire(task: Task, now: int)
    | OpTrack(block: Block, sids: seq<Sid>)
    | OpBlockCleaned(block: Block)
    | OpClear

  function Step(cfg: Config, c: Cache, op: Op): Cache
    requires QueuesValid(c)
  {
    match op
    case OpAssign(key, sid, now) => Assign(c, key, sid, now)
    case OpSetContents(key, contents, now) => SetContents(cfg, c, key, contents, now)
    case OpMarkPaid(sid) => MarkPaid(c, sid)
    case OpRemoveBySid(sid, related, force) => RemoveBySid(c, sid, related, force)
    case OpRemoveByKey(key, force, assumeNoSid) => RemoveByKey(c, key, force, assumeNoSid)
    case OpRemoveSidsOfKey(key) => RemoveSidsOfKey(c, key)
    case OpFire(task, now) => Fire(cfg, c, task, now)
    case OpTrack(block, sids) => Track(cfg, c, block, sids)
    case OpBlockCleaned(block) => BlockCleaned(c, block)
    case OpClear => Clear(c)
  }

  /** The only thing asked of the outside world: an assigned short id is not in use for another transaction. */
  predicate Allowed(c: Cache, op: Op) {
    op.OpAssign? ==> Fresh(c, op.key, op.sid)
  }

  lemma AssignInv(cfg: Config, c: Cache, key: Key, sid: Sid, now: int)
    requires Inv(cfg, c) && Fresh(c, key, sid)
    ensures Inv(cfg, Assign(c, key, sid, now))
  {
    AssignKeeps(c, key, sid, now);
  }

  lemma RemoveInv(cfg: Config, c: Cache, op: Op)
    requires Inv(cfg, c) && (op.OpRemoveBySid? || op.OpRemoveByKey? || op.OpRemoveSidsOfKey?)
    ensures Inv(cfg, Step(cfg, c, op))
  {
    match op
    case OpRemoveBySid(sid, related, force) => RemoveBySidKeeps(c, sid, related, force);
    case OpRemoveByKey(key, force, assumeNoSid) => RemoveByKeyKeeps(c, key, force, assumeNoSid);
    case OpRemoveSidsOfKey(key) => RemoveSidsOfKeyKeeps(c, key);
  }

  lemma FireInv(cfg: Config, c: Cache, t: Task, now: int)
    requires Inv(cfg, c)
    ensures Inv(cfg, Fire(cfg, c, t, now))
  {
    FireKeeps(cfg, c, t, now);
  }

  lemma BlockCleanedInv(cfg: Config, c: Cache, block: Block)
    requires Inv(cfg, c)
    ensures Inv(cfg, BlockCleaned(c, block))
  {
    SeenKeeps(c, c.seen.Delete(block));
  }

  lemma StepKeeps(cfg: Config, c: Cache, op: Op)
    requires Inv(cfg, c) && Allowed(c, op)
    ensures Inv(cfg, Step(cfg, c, op))
  {
    match op
    case OpAssign(key, sid, now) => AssignInv(cfg, c, key, sid, now);
    case OpSetContents(key, contents, now) => SetContentsInv(cfg, c, key, contents, now);
    case OpMarkPaid(sid) =>
    case OpRemoveBySid(sid, related, force) => RemoveInv(cfg, c, op);
    case OpRemoveByKey(key, force, assumeNoSid) => RemoveInv(cfg, c, op);
    case OpRemoveSidsOfKey(key) => RemoveInv(cfg, c, op);
    case OpFire(task, now) => FireInv(cfg, c, task, now);
    case OpTrack(block, sids) => TrackKeeps(cfg, c, block, sids);
    case OpBlockCleaned(block) => BlockCleanedInv(cfg, c, block);
    case OpClear => ClearKeeps(c);
  }

  /** In the run of `ops` from the empty cache, every operation is allowed when it is made. */
  ghost predicate AllAllowed(cfg: Config, ops: seq<Op>)
    decreases |ops|, 0
  {
    ops == [] ||
    var n := |ops| - 1;
    AllAllowed(cfg, ops[..n]) && Allowed(Run(cfg, ops[..n]), ops[n])
  }

  /** The cache after `ops`: every reachable cache satisfies the invariant. */
  ghost function Run(cfg: Config, ops: seq<Op>): (c: Cache)
    requires AllAllowed(cfg, ops)
    ensures Inv(cfg, c)
    decreases |ops|, 1
  {
    if ops == [] then EMPTY_CACHE
    else
      var n := |ops| - 1;
      var before := Run(cfg, ops[..n]);
      StepKeeps(cfg, before, ops[n]);
      Step(cfg, before, ops[n])
  }

  lemma RunOneMore(cfg: Config, ops: seq<Op>, op: Op, c: Cache)
    requires AllAllowed(cfg, ops) && Run(cfg, ops) == c && Allowed(c, op)
    ensures AllAllowed(cfg, ops + [op]) && Run(cfg, ops + [op]) == Step(cfg, c, op)
  {
    assert (ops + [op])[..|ops|] == ops;
  }

  // ----- An old transaction behind a renewed one -----

  lemma AssignWaits(c: Cache, key: Key, sid: Sid, now: int)
    requires key !in c.contents && sid != NULL_TX_SID
    ensures Assign(c, key, sid, now).noContentQ == c.noContentQ.Set(key, now)
    ensures Assign(c, key, sid, now).contents == c.contents
    ensures Assign(c, key, sid, now).sidTx == c.sidTx[sid := key]
  {
    var d := AwaitContent(c, key, now);
    var e := Link(d, key, sid, now);
    assert d.noContentQ == c.noContentQ.Set(key, now) && d.contents == c.contents && d.sidTx == c.sidTx;
    assert e.noContentQ == d.noContentQ && e.contents == d.contents && e.sidTx == d.sidTx[sid := key];
    assert Assign(c, key, sid, now) == RegisterOnce(e, ExpireAssignments);
  }

  /** A firing that finds nothing old in front changes nothing and comes again after the delay it returns. */
  lemma FireIdle(cfg: Config, c: Cache, now: int)
    requires QueuesValid(c) && c.noContentQ.order != [] && !FrontExpired(c.noContentQ, now, TX_CONTENT_NO_SID_EXPIRE_S)
    ensures Fire(cfg, c, ExpireSids, now) == c
    ensures Expire(cfg, c, ExpireSids, now).1 == NextDelay(c.noContentQ, now, TX_CONTENT_NO_SID_EXPIRE_S)
  {
    assert ExpireEmpty(c, now, MAX_EXPIRED_TXS_TO_REMOVE) == c;
  }

  /** What the run below looks at: the queue of transactions without content, of which there is none, and the index. */
  ghost predicate Waits(cfg: Config, ops: seq<Op>, q: OrderedDict<Key, int>, sidTx: map<Sid, Key>) {
    && AllAllowed(cfg, ops)
    && Run(cfg, ops).contents == map[] && Run(cfg, ops).noContentQ == q && Run(cfg, ops).sidTx == sidTx
  }

  lemma AssignRun(cfg: Config, ops: seq<Op>, q: OrderedDict<Key, int>, sidTx: map<Sid, Key>,
                  key: Key, sid: Sid, now: int) returns (more: seq<Op>)
    requires Waits(cfg, ops, q, sidTx) && sid !in sidTx && sid != NULL_TX_SID
    ensures more == ops + [OpAssign(key, sid, now)] && Waits(cfg, more, q.Set(key, now), sidTx[sid := key])
  {
    more := ops + [OpAssign(key, sid, now)];
    RunOneMore(cfg, ops, OpAssign(key, sid, now), Run(cfg, ops));
    AssignWaits(Run(cfg, ops), key, sid, now);
  }

  lemma IdleStep(cfg: Config, c: Cache, now: int)
    requires Sound(c) && c.noContentQ.order != [] && !FrontExpired(c.noContentQ, now, TX_CONTENT_NO_SID_EXPIRE_S)
    ensures Step(cfg, c, OpFire(ExpireSids, now)) == c && ExpireSids in c.scheduled
    ensures Expire(cfg, c, ExpireSids, now).1 == NextDelay(c.noContentQ, now, TX_CONTENT_NO_SID_EXPIRE_S)
  {
    FireIdle(cfg, c, now);
    assert c.scheduled[ExpireSids] == 1;
  }

  lemma IdleRun(cfg: Config, ops: seq<Op>, q: OrderedDict<Key, int>, sidTx: map<Sid, Key>, now: int)
      returns (more: seq<Op>)
    requires Waits(cfg, ops, q, sidTx)
    requires q.Valid() && q.order != [] && !FrontExpired(q, now, TX_CONTENT_NO_SID_EXPIRE_S)
    ensures more == ops + [OpFire(ExpireSids, now)] && Waits(cfg, more, q, sidTx)
    ensures ExpireSids in Run(cfg, ops).scheduled
    ensures Expire(cfg, Run(cfg, ops), ExpireSids, now).1 == NextDelay(q, now, TX_CONTENT_NO_SID_EXPIRE_S)
  {
    more := ops + [OpFire(ExpireSids, now)];
    IdleStep(cfg, Run(cfg, ops), now);
    RunOneMore(cfg, ops, OpFire(ExpireSids, now), Run(cfg, ops));
  }

  lemma NothingWaits(cfg: Config, ops: seq<Op>)
    requires ops == []
    ensures Waits(cfg, ops, EmptyDict(), map[])
  {
  }

  function Queue2(a: Key, b: Key, timeA: int, timeB: int): OrderedDict<Key, int> {
    OrderedDict([a, b], map[a := timeA, b := timeB])
  }

  lemma FirstWaits(cfg: Config, a: Key, q: OrderedDict<Key, int>) returns (ops: seq<Op>)
    requires q == OrderedDict([a], map[a := 0])
    ensures ops == [] + [OpAssign(a, 1, 0)] && Waits(cfg, ops, q, map[][1 := a])
  {
    ops := [];
    NothingWaits(cfg, ops);
    ops := AssignRun(cfg, ops, EmptyDict(), map[], a, 1, 0);
    assert EmptyDict().Set(a, 0) == q;
  }

  lemma BothWait(cfg: Config, a: Key, b: Key, q: OrderedDict<Key, int>) returns (ops: seq<Op>)
    requires a != b && q == Queue2(a, b, 0, 0)
    ensures ops == [] + [OpAssign(a, 1, 0)] + [OpAssign(b, 2, 0)] && Waits(cfg, ops, q, map[][1 := a][2 := b])
  {
    var first := OrderedDict([a], map[a := 0]);
    ops := FirstWaits(cfg, a, first);
    ops := AssignRun(cfg, ops, first, map[][1 := a], b, 2, 0);
    SecondAdded(first, a, b);
  }

  lemma SecondAdded(q: OrderedDict<Key, int>, a: Key, b: Key)
    requires a != b && q == OrderedDict([a], map[a := 0])
    ensures q.Set(b, 0) == Queue2(a, b, 0, 0)
  {
    assert q.vals[b := 0] == map[a := 0, b := 0];
  }

  lemma FirstRenewed(q: OrderedDict<Key, int>, a: Key, b: Key)
    requires a != b && q == Queue2(a, b, 0, 0)
    ensures q.Set(a, 800) == Queue2(a, b, 800, 0)
  {
    assert q.vals[a := 800] == map[a := 800, b := 0];
  }

  lemma AssignedAgain(cfg: Config, a: Key, b: Key) returns (ops: seq<Op>)
    requires a != b
    ensures ops == [] + [OpAssign(a, 1, 0)] + [OpAssign(b, 2, 0)] + [OpAssign(a, 3, 800)]
    ensures Waits(cfg, ops, Queue2(a, b, 800, 0), map[][1 := a][2 := b][3 := a])
  {
    var q := Queue2(a, b, 0, 0);
    FirstRenewed(q, a, b);
    ops := BothWait(cfg, a, b, q);
    ops := AssignRun(cfg, ops, q, map[][1 := a][2 := b], a, 3, 800);
  }

  lemma FiredTwice(cfg: Config, ops: seq<Op>, q: OrderedDict<Key, int>, sidTx: map<Sid, Key>) returns (fired: seq<Op>)
    requires Waits(cfg, ops, q, sidTx) && q.Valid() && q.order != [] && q.vals[q.order[0]] == 800
    ensures fired == ops + [OpFire(ExpireSids, 900)] + [OpFire(ExpireSids, 1700)]
    ensures Waits(cfg, fired, q, sidTx)
    ensures ExpireSids in Run(cfg, ops).scheduled && Expire(cfg, Run(cfg, ops), ExpireSids, 900).1 == 800
  {
    fired := IdleRun(cfg, ops, q, sidTx, 900);
    fired := IdleRun(cfg, fired, q, sidTx, 1700);
  }

  /**
   Two transactions wait for content from time 0; the first is assigned again at 800. The expiry task fires at 900,
   asks to be called after 800, and at 1700 still leaves the second, 1700 s old, in the cache.
   */
  lemma RenewedTransactionHidesOldOne(cfg: Config, a: Key, b: Key) returns (ops: seq<Op>, fired: seq<Op>)
    requires a != b
    ensures ops == [] + [OpAssign(a, 1, 0)] + [OpAssign(b, 2, 0)] + [OpAssign(a, 3, 800)]
    ensures fired == ops + [OpFire(ExpireSids, 900)] + [OpFire(ExpireSids, 1700)]
    ensures AllAllowed(cfg, ops) && ExpireSids in Run(cfg, ops).scheduled
    ensures Expire(cfg, Run(cfg, ops), ExpireSids, 900).1 == 800
    ensures AllAllowed(cfg, fired) && 2 in Run(cfg, fired).sidTx && Run(cfg, fired).sidTx[2] == b
    ensures b in Run(cfg, fired).noContentQ.vals && 1700 - Run(cfg, fired).noContentQ.vals[b] == 1700
  {
    var q := Queue2(a, b, 800, 0);
    ops := AssignedAgain(cfg, a, b);
    fired := FiredTwice(cfg, ops, q, map[][1 := a][2 := b][3 := a]);
  }
}
