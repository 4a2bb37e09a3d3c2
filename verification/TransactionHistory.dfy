/**
 What the cache holds after a run of operations, told from the operations alone: each content is the one stored
 last, each short id stands for what it was assigned to last, and each queue knows since when.
 */
module TransactionHistory {
  import opened Basics
  import opened OrderedDicts
  import opened TransactionCache
  import opened TransactionEvictions
  import opened TransactionRuns
  import opened TransactionEffects

  // ----- The latest operations -----

  predicate Stores(op: Op, key: Key) {
    op.OpSetContents? && op.key == key
  }

  predicate AssignsTo(op: Op, key: Key) {
    op.OpAssign? && op.key == key && op.sid != NULL_TX_SID
  }

  predicate Assigns(op: Op, sid: Sid) {
    op.OpAssign? && op.sid == sid && op.sid != NULL_TX_SID
  }

  /** The latest operation that stored a content of the transaction. */
  ghost function LastStored(ops: seq<Op>, key: Key): (r: Option<Op>)
    ensures r.Some? ==> Stores(r.value, key)
  {
    if ops == [] then None
    else if Stores(ops[|ops| - 1], key) then Some(ops[|ops| - 1])
    else LastStored(ops[..|ops| - 1], key)
  }

  /** The latest operation that assigned a short id to the transaction. */
  ghost function LastAssignedTo(ops: seq<Op>, key: Key): (r: Option<Op>)
    ensures r.Some? ==> AssignsTo(r.value, key)
  {
    if ops == [] then None
    else if AssignsTo(ops[|ops| - 1], key) then Some(ops[|ops| - 1])
    else LastAssignedTo(ops[..|ops| - 1], key)
  }

  /** The latest operation that assigned the short id. */
  ghost function LastAssigned(ops: seq<Op>, sid: Sid): (r: Option<Op>)
    ensures r.Some? ==> Assigns(r.value, sid)
  {
    if ops == [] then None
    else if Assigns(ops[|ops| - 1], sid) then Some(ops[|ops| - 1])
    else LastAssigned(ops[..|ops| - 1], sid)
  }

  lemma LastOf(ops: seq<Op>, op: Op, key: Key, sid: Sid)
    ensures LastStored(ops + [op], key) == if Stores(op, key) then Some(op) else LastStored(ops, key)
    ensures LastAssignedTo(ops + [op], key) == if AssignsTo(op, key) then Some(op) else LastAssignedTo(ops, key)
    ensures LastAssigned(ops + [op], sid) == if Assigns(op, sid) then Some(op) else LastAssigned(ops, sid)
  {
    assert (ops + [op])[..|ops|] == ops;
  }

  // ----- What the operations tell -----

  ghost predicate ContentTold(ops: seq<Op>, c: Cache, key: Key) {
    key in c.contents ==> LastStored(ops, key).Some? && c.contents[key] == LastStored(ops, key).value.contents
  }

  ghost predicate SidTold(ops: seq<Op>, c: Cache, sid: Sid) {
    && (sid in c.sidTx ==> LastAssigned(ops, sid).Some? && c.sidTx[sid] == LastAssigned(ops, sid).value.key)
    && (sid in c.assignQ.vals ==>
          LastAssigned(ops, sid).Some? && c.assignQ.vals[sid] == LastAssigned(ops, sid).value.now)
  }

  /** What waits for a short id has none and has waited since it was stored; what waits for a content likewise. */
  ghost predicate WaitTold(ops: seq<Op>, c: Cache, key: Key) {
    && (key in c.noSidQ.vals ==>
          key !in c.txSids && LastStored(ops, key).Some? && c.noSidQ.vals[key] == LastStored(ops, key).value.now)
    && (key in c.noContentQ.vals ==>
          key !in c.contents && LastAssignedTo(ops, key).Some? &&
          c.noContentQ.vals[key] == LastAssignedTo(ops, key).value.now)
  }

  ghost predicate Told(ops: seq<Op>, c: Cache) {
    (forall k :: ContentTold(ops, c, k) && WaitTold(ops, c, k)) && forall s :: SidTold(ops, c, s)
  }

  // ----- Operations that only take away -----

  ghost predicate Sub<K(!new), V>(a: map<K, V>, b: map<K, V>) {
    forall k :: k in a ==> k in b && a[k] == b[k]
  }

  /** Whatever r holds, c held as well. */
  ghost predicate Within(c: Cache, r: Cache) {
    && Sub(r.contents, c.contents) && Sub(r.sidTx, c.sidTx) && r.txSids.Keys <= c.txSids.Keys
    && Sub(r.assignQ.vals, c.assignQ.vals) && Sub(r.noSidQ.vals, c.noSidQ.vals)
    && Sub(r.noContentQ.vals, c.noContentQ.vals)
  }

  lemma OldestGoneWithin(c: Cache, r: Cache, n: nat)
    requires n <= |c.assignQ.order| && OldestGone(c, r, n)
    ensures Within(c, r)
  {
  }

  lemma FireWithin(cfg: Config, c: Cache, t: Task, now: int)
    requires Sound(c)
    ensures Within(c, Fire(cfg, c, t, now))
  {
    if t !in c.flagged {
      FireNothing(cfg, c, t, now);
    } else {
      match t
      case ExpireAssignments => var _, _ := FireAssignmentsDoes(cfg, c, now);
      case ExpireContent => var _, _ := FireContentDoes(cfg, c, now);
      case ExpireSids => var _, _ := FireSidsDoes(cfg, c, now);
    }
  }

  lemma TxsGoneWithin(c: Cache, r: Cache, keys: set<Key>)
    requires TxsGone(c, r, keys)
    ensures Within(c, r)
  {
  }

  lemma RemoveBySidWithin(c: Cache, sid: Sid, related: bool, force: bool)
    requires Sound(c)
    ensures Within(c, RemoveBySid(c, sid, related, force))
  {
    var r := RemoveBySid(c, sid, related, force);
    RemoveBySidDoes(c, sid, related, force);
    if sid in c.sidTx && TxsGone(c, r, {c.sidTx[sid]}) {
      TxsGoneWithin(c, r, {c.sidTx[sid]});
    }
  }

  lemma RemoveByKeyWithin(c: Cache, key: Key, force: bool, assumeNoSid: bool)
    requires Sound(c)
    ensures Within(c, RemoveByKey(c, key, force, assumeNoSid))
  {
    var r := RemoveByKey(c, key, force, assumeNoSid);
    RemoveByKeyDoes(c, key, force, assumeNoSid);
    if TxsGone(c, r, {key}) {
      TxsGoneWithin(c, r, {key});
    }
  }

  lemma RemoveWithin(cfg: Config, c: Cache, op: Op)
    requires Sound(c) && (op.OpRemoveBySid? || op.OpRemoveByKey? || op.OpRemoveSidsOfKey?)
    ensures Within(c, Step(cfg, c, op))
  {
    match op
    case OpRemoveBySid(sid, related, force) => RemoveBySidWithin(c, sid, related, force);
    case OpRemoveByKey(key, force, assumeNoSid) => RemoveByKeyWithin(c, key, force, assumeNoSid);
    case OpRemoveSidsOfKey(key) => RemoveSidsOfKeyDoes(c, key);
  }

  lemma TrackWithin(cfg: Config, c: Cache, block: Block, sids: seq<Sid>)
    requires Inv(cfg, c)
    ensures Within(c, Track(cfg, c, block, sids))
  {
    var tracked := TrackDoes(cfg, c, block, sids);
  }

  lemma StepWithin(cfg: Config, c: Cache, op: Op)
    requires Inv(cfg, c) && !op.OpAssign? && !op.OpSetContents?
    ensures Within(c, Step(cfg, c, op))
  {
    match op
    case OpMarkPaid(sid) =>
    case OpRemoveBySid(sid, related, force) => RemoveWithin(cfg, c, op);
    case OpRemoveByKey(key, force, assumeNoSid) => RemoveWithin(cfg, c, op);
    case OpRemoveSidsOfKey(key) => RemoveWithin(cfg, c, op);
    case OpFire(task, now) => FireWithin(cfg, c, task, now);
    case OpTrack(block, sids) => TrackWithin(cfg, c, block, sids);
    case OpBlockCleaned(block) => BlockCleanedDoes(c, block);
    case OpClear => ClearDoes(c);
  }

  // ----- Whole runs -----

  lemma ToldWithin(ops: seq<Op>, c: Cache, r: Cache)
    requires Told(ops, c) && Within(c, r)
    ensures Told(ops, r)
  {
    forall k ensures ContentTold(ops, r, k) && WaitTold(ops, r, k) {
      assert ContentTold(ops, c, k) && WaitTold(ops, c, k);
    }
    forall s ensures SidTold(ops, r, s) {
      assert SidTold(ops, c, s);
    }
  }

  lemma ToldLater(ops: seq<Op>, op: Op, c: Cache)
    requires Told(ops, c) && !op.OpAssign? && !op.OpSetContents?
    ensures Told(ops + [op], c)
  {
    forall k ensures ContentTold(ops + [op], c, k) && WaitTold(ops + [op], c, k) {
      assert ContentTold(ops, c, k) && WaitTold(ops, c, k);
      LastOf(ops, op, k, 0);
    }
    forall s ensures SidTold(ops + [op], c, s) {
      assert SidTold(ops, c, s);
      LastOf(ops, op, "", s);
    }
  }

  lemma ToldAssigned(ops: seq<Op>, op: Op, c: Cache, r: Cache)
    requires Told(ops, c) && op.OpAssign? && op.sid != NULL_TX_SID && Assigned(c, r, op.key, op.sid, op.now)
    ensures Told(ops + [op], r)
  {
    forall k ensures ContentTold(ops + [op], r, k) && WaitTold(ops + [op], r, k) {
      assert ContentTold(ops, c, k) && WaitTold(ops, c, k);
      LastOf(ops, op, k, 0);
    }
    forall s ensures SidTold(ops + [op], r, s) {
      assert SidTold(ops, c, s);
      LastOf(ops, op, "", s);
    }
  }

  lemma ToldNullAssigned(ops: seq<Op>, op: Op, c: Cache)
    requires Told(ops, c) && op.OpAssign? && op.sid == NULL_TX_SID
    ensures Told(ops + [op], c)
  {
    forall k ensures ContentTold(ops + [op], c, k) && WaitTold(ops + [op], c, k) {
      assert ContentTold(ops, c, k) && WaitTold(ops, c, k);
      LastOf(ops, op, k, 0);
    }
    forall s ensures SidTold(ops + [op], c, s) {
      assert SidTold(ops, c, s);
      LastOf(ops, op, "", s);
    }
  }

  lemma ToldStored(ops: seq<Op>, op: Op, c: Cache, r: Cache)
    requires Told(ops, c) && op.OpSetContents? && Stored(c, r, op.key, op.contents, op.now)
    ensures Told(ops + [op], r)
  {
    forall k ensures ContentTold(ops + [op], r, k) && WaitTold(ops + [op], r, k) {
      assert ContentTold(ops, c, k) && WaitTold(ops, c, k);
      LastOf(ops, op, k, 0);
    }
    forall s ensures SidTold(ops + [op], r, s) {
      assert SidTold(ops, c, s);
      LastOf(ops, op, "", s);
    }
  }

  lemma SetContentsWithin(cfg: Config, c: Cache, key: Key, bytes: Bytes, now: int) returns (stored: Cache)
    requires Inv(cfg, c)
    ensures Stored(c, stored, key, bytes, now) && Within(stored, SetContents(cfg, c, key, bytes, now))
  {
    var n, evicted;
    stored, n, evicted := SetContentsDoes(cfg, c, key, bytes, now);
    OldestGoneWithin(stored, evicted, n);
  }

  lemma StepTold(cfg: Config, ops: seq<Op>, c: Cache, op: Op)
    requires Inv(cfg, c) && Told(ops, c)
    ensures Told(ops + [op], Step(cfg, c, op))
  {
    if op.OpAssign? {
      AssignDoes(c, op.key, op.sid, op.now);
      if op.sid == NULL_TX_SID {
        ToldNullAssigned(ops, op, c);
      } else {
        ToldAssigned(ops, op, c, Step(cfg, c, op));
      }
    } else if op.OpSetContents? {
      var stored := SetContentsWithin(cfg, c, op.key, op.contents, op.now);
      ToldStored(ops, op, c, stored);
      ToldWithin(ops + [op], stored, Step(cfg, c, op));
    } else {
      StepWithin(cfg, c, op);
      ToldLater(ops, op, c);
      ToldWithin(ops + [op], c, Step(cfg, c, op));
    }
  }

  lemma {:induction false} RunTold(cfg: Config, ops: seq<Op>)
    requires AllAllowed(cfg, ops)
    ensures Told(ops, Run(cfg, ops))
    decreases |ops|
  {
    if ops != [] {
      var n := |ops| - 1;
      RunTold(cfg, ops[..n]);
      StepTold(cfg, ops[..n], Run(cfg, ops[..n]), ops[n]);
      assert ops[..n] + [ops[n]] == ops;
    }
  }

  /** In every run the content of a transaction is the one that was stored last. */
  lemma ContentIsLastStored(cfg: Config, ops: seq<Op>, key: Key)
    requires AllAllowed(cfg, ops) && key in Run(cfg, ops).contents
    ensures LastStored(ops, key).Some? && Run(cfg, ops).contents[key] == LastStored(ops, key).value.contents
  {
    RunTold(cfg, ops);
    assert ContentTold(ops, Run(cfg, ops), key);
  }

  /** In every run a short id stands for the transaction that it was assigned to last, and is as old as that. */
  lemma SidIsLastAssigned(cfg: Config, ops: seq<Op>, sid: Sid)
    requires AllAllowed(cfg, ops) && sid in Run(cfg, ops).sidTx
    ensures sid in Run(cfg, ops).assignQ.vals && LastAssigned(ops, sid).Some?
    ensures Run(cfg, ops).sidTx[sid] == LastAssigned(ops, sid).value.key
    ensures Run(cfg, ops).assignQ.vals[sid] == LastAssigned(ops, sid).value.now
  {
    RunTold(cfg, ops);
    assert SidTold(ops, Run(cfg, ops), sid);
    assert sid in Run(cfg, ops).sidTx.Keys;
  }

  /**
   In every run a content without short ids has waited for one since it was stored last, and a transaction with short
   ids but no content since the latest of them was assigned.
   */
  lemma WaitsSinceLast(cfg: Config, ops: seq<Op>, key: Key)
    requires AllAllowed(cfg, ops)
    ensures var c := Run(cfg, ops);
            && (key in c.contents && key !in c.txSids ==>
                  key in c.noSidQ.vals && LastStored(ops, key).Some? &&
                  c.noSidQ.vals[key] == LastStored(ops, key).value.now)
            && (key in c.txSids && key !in c.contents ==>
                  key in c.noContentQ.vals && LastAssignedTo(ops, key).Some? &&
                  c.noContentQ.vals[key] == LastAssignedTo(ops, key).value.now)
            && c.noSidQ.vals.Keys !! c.txSids.Keys && c.noContentQ.vals.Keys !! c.contents.Keys
  {
    RunTold(cfg, ops);
    var c := Run(cfg, ops);
    assert WaitTold(ops, c, key);
    forall k ensures !(k in c.noSidQ.vals && k in c.txSids) && !(k in c.noContentQ.vals && k in c.contents) {
      assert WaitTold(ops, c, k);
    }
    assert key in c.contents.Keys <==> key in c.contents;
    assert key in c.txSids.Keys <==> key in c.txSids;
  }
}
