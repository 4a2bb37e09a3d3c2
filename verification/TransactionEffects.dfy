/**
 What each operation of the transaction cache does, field by field, and what a run therefore holds: a content
 is the one stored last for its transaction, and a short id stands for what it was assigned to last, since then.
 */
module TransactionEffects {
  import opened Basics
  import opened OrderedDicts
  import opened TransactionCache
  import opened ExpirationQueues
  import opened TransactionEvictions
  import opened TransactionRuns

  // ----- Queues and alarms -----

  /** r is q with `k` at `v`: in its old place, or last if it was not there. */
  ghost predicate Puts<K(!new), V>(q: OrderedDict<K, V>, r: OrderedDict<K, V>, k: K, v: V) {
    && r.vals == q.vals[k := v]
    && r.order == if k in q.vals then q.order else q.order + [k]
  }

  /** r is q without the keys in `gone`, in the old order. */
  ghost predicate Takes<K(!new), V>(q: OrderedDict<K, V>, r: OrderedDict<K, V>, gone: set<K>) {
    r.vals == q.vals - gone && r.order == Minus(q.order, gone)
  }

  /** Every task in `needed` is flagged besides those that were, and each flagged one has one pending alarm. */
  ghost predicate Flags(c: Cache, r: Cache, needed: set<Task>) {
    r.flagged == c.flagged + needed && forall t: Task :: r.scheduled[t] == if t in r.flagged then 1 else 0
  }

  // ----- Assigning -----

  /**
   The short id is mapped to the transaction and assigned now, the transaction no longer waits for a short id, and
   it waits for its content if it has none. Nothing else changes.
   */
  ghost predicate Assigned(c: Cache, r: Cache, key: Key, sid: Sid, now: int) {
    && r.sidTx == c.sidTx[sid := key]
    && r.txSids == c.txSids[key := (if key in c.txSids then c.txSids[key] else {}) + {sid}]
    && Puts(c.assignQ, r.assignQ, sid, now)
    && Takes(c.noSidQ, r.noSidQ, {key})
    && (if key in c.contents then r.noContentQ == c.noContentQ else Puts(c.noContentQ, r.noContentQ, key, now))
    && Flags(c, r, {ExpireAssignments} + if key in c.contents then {} else {ExpireSids})
    && r.contents == c.contents && r.total == c.total && r.paid == c.paid && r.seen == c.seen
  }

  lemma AwaitsContent(c: Cache, d: Cache, key: Key, now: int)
    requires Alarmed(c) && d == AwaitContent(c, key, now)
    ensures if key in c.contents then d == c
            else Puts(c.noContentQ, d.noContentQ, key, now) && Flags(c, d, {ExpireSids})
                 && d.(noContentQ := c.noContentQ, flagged := c.flagged, scheduled := c.scheduled) == c
  {
  }

  lemma Links(c: Cache, d: Cache, key: Key, sid: Sid, now: int)
    requires Alarmed(c) && d == RegisterOnce(Link(c, key, sid, now), ExpireAssignments)
    ensures d.sidTx == c.sidTx[sid := key]
    ensures d.txSids == c.txSids[key := (if key in c.txSids then c.txSids[key] else {}) + {sid}]
    ensures Puts(c.assignQ, d.assignQ, sid, now) && Takes(c.noSidQ, d.noSidQ, {key})
    ensures Flags(c, d, {ExpireAssignments})
    ensures d.noContentQ == c.noContentQ && d.contents == c.contents && d.total == c.total
    ensures d.paid == c.paid && d.seen == c.seen
  {
  }

  lemma AssignDoes(c: Cache, key: Key, sid: Sid, now: int)
    requires Alarmed(c)
    ensures if sid == 0 then Assign(c, key, sid, now) == c else Assigned(c, Assign(c, key, sid, now), key, sid, now)
  {
    if sid != 0 {
      var d := AwaitContent(c, key, now);
      AwaitsContent(c, d, key, now);
      Links(d, Assign(c, key, sid, now), key, sid, now);
    }
  }

  // ----- Storing -----

  /**
   The content is kept under its key and counted, the transaction no longer waits for it, and it waits for a short id
   if it has none. Nothing else changes.
   */
  ghost predicate Stored(c: Cache, r: Cache, key: Key, bytes: Bytes, now: int) {
    && r.contents == c.contents[key := bytes]
    && r.total == c.total + |bytes| - (if key in c.contents then |c.contents[key]| else 0)
    && Takes(c.noContentQ, r.noContentQ, {key})
    && (if key in c.txSids then r.noSidQ == c.noSidQ else Puts(c.noSidQ, r.noSidQ, key, now))
    && Flags(c, r, if key in c.txSids then {} else {ExpireContent})
    && r.sidTx == c.sidTx && r.txSids == c.txSids && r.assignQ == c.assignQ && r.paid == c.paid && r.seen == c.seen
  }

  lemma PutDoes(c: Cache, key: Key, bytes: Bytes, now: int)
    requires Alarmed(c)
    ensures Stored(c, PutContents(c, key, bytes, now), key, bytes, now)
  {
  }

  /** The n short ids at the front of the assignment queue are gone, and contents only with their last short id. */
  ghost predicate OldestGone(c: Cache, r: Cache, n: nat)
    requires n <= |c.assignQ.order|
  {
    var gone := SetOf(c.assignQ.order[..n]);
    && r.sidTx == c.sidTx - gone
    && r.assignQ.order == c.assignQ.order[n..] && r.assignQ.vals == c.assignQ.vals - gone
    && (forall k :: k in r.txSids <==> k in c.txSids && c.txSids[k] - gone != {})
    && (forall k :: k in r.txSids ==> r.txSids[k] == c.txSids[k] - gone)
    && (forall k :: k in r.contents <==> k in c.contents && (k in c.txSids ==> k in r.txSids))
    && (forall k :: k in r.contents ==> r.contents[k] == c.contents[k])
    && r.total == TotalLen(r.contents)
    && r.noSidQ == c.noSidQ && r.noContentQ == c.noContentQ && r.paid == c.paid && SameAlarms(c, r)
  }

  lemma DropOldestDoes(c: Cache, n: nat)
    requires n <= |c.assignQ.order|
    ensures OldestGone(c, DropOldest(c, n), n)
  {
    var gone := SetOf(c.assignQ.order[..n]);
    forall k | k in c.txSids ensures Orphaned(c.txSids, k, gone) <==> c.txSids[k] - gone == {} {
      if c.txSids[k] - gone == {} {
        forall s | s in c.txSids[k] ensures s in gone {
          assert s !in c.txSids[k] - gone;
        }
      }
    }
  }

  /** Nothing is left but the flags and the pending alarms. */
  ghost predicate Emptied(c: Cache, r: Cache) {
    && r.sidTx == map[] && r.txSids == map[] && r.contents == map[] && r.total == 0 && r.paid == {}
    && r.assignQ.order == [] && r.assignQ.vals == map[] && r.noSidQ.order == [] && r.noSidQ.vals == map[]
    && r.noContentQ.order == [] && r.noContentQ.vals == map[] && r.seen.order == [] && r.seen.vals == map[]
    && r.flagged == c.flagged && r.scheduled == c.scheduled
  }

  lemma ClearDoes(c: Cache)
    ensures Emptied(c, Clear(c))
  {
  }

  /**
   A content that fits is stored and nothing else happens. One that does not is stored at the cost of the oldest
   short ids, as few as suffice, or of the whole cache when they do not suffice.
   */
  lemma SetContentsDoes(cfg: Config, c: Cache, key: Key, bytes: Bytes, now: int)
      returns (stored: Cache, n: nat, evicted: Cache)
    requires Sound(c)
    ensures Stored(c, stored, key, bytes, now)
    ensures n <= |c.assignQ.order| && OldestGone(stored, evicted, n)
    ensures stored.total <= cfg.memoryLimit ==> SetContents(cfg, c, key, bytes, now) == stored
    ensures evicted.total <= cfg.memoryLimit ==> SetContents(cfg, c, key, bytes, now) == evicted
    ensures evicted.total > cfg.memoryLimit ==>
              n == |c.assignQ.order| && Emptied(stored, SetContents(cfg, c, key, bytes, now))
    ensures forall j, r :: 0 <= j < n && OldestGone(stored, r, j) ==> r.total > cfg.memoryLimit
  {
    stored := PutContents(c, key, bytes, now);
    PutDoes(c, key, bytes, now);
    PutKeeps(c, key, bytes, now);
    n := CleanUpEvictsFewestOldest(cfg, stored);
    evicted := DropOldest(stored, n);
    DropOldestDoes(stored, n);
    DropNone(stored);
    ClearDoes(stored);
    forall j, r | 0 <= j < n && OldestGone(stored, r, j) ensures r.total > cfg.memoryLimit {
      DropOldestDoes(stored, j);
      OldestGoneOnce(stored, r, DropOldest(stored, j), j);
    }
  }

  /** What `SetContents` comes to when the content fits. */
  ghost predicate StoresWhatFits(cfg: Config, c: Cache, r: Cache, key: Key, bytes: Bytes, now: int) {
    c.total + |bytes| - (if key in c.contents then |c.contents[key]| else 0) <= cfg.memoryLimit ==>
      Stored(c, r, key, bytes, now)
  }

  lemma WhatFitsIsStored(cfg: Config, c: Cache, key: Key, bytes: Bytes, now: int)
    requires Sound(c)
    ensures StoresWhatFits(cfg, c, SetContents(cfg, c, key, bytes, now), key, bytes, now)
  {
    var _, _, _ := SetContentsDoes(cfg, c, key, bytes, now);
  }

  lemma OldestGoneOnce(c: Cache, r: Cache, s: Cache, n: nat)
    requires n <= |c.assignQ.order| && OldestGone(c, r, n) && OldestGone(c, s, n)
    ensures r.contents == s.contents && r.total == s.total
  {
    assert forall k :: k in r.txSids <==> k in s.txSids;
    assert r.contents == s.contents;
  }

  // ----- Removing -----

  /** The transactions in `keys` are gone with all their short ids, and nothing else changes. */
  ghost predicate TxsGone(c: Cache, r: Cache, keys: set<Key>) {
    && r.contents == c.contents - keys && r.txSids == c.txSids - keys
    && (forall s :: s in r.sidTx <==> s in c.sidTx && c.sidTx[s] !in keys)
    && (forall s :: s in r.sidTx ==> r.sidTx[s] == c.sidTx[s])
    && Takes(c.assignQ, r.assignQ, c.sidTx.Keys - r.sidTx.Keys)
    && r.total == TotalLen(r.contents)
    && r.noSidQ == c.noSidQ && r.noContentQ == c.noContentQ && SameAlarms(c, r)
  }

  lemma WithoutDoes(c: Cache, keys: set<Key>)
    ensures TxsGone(c, WithoutTxs(c, keys), keys) && WithoutTxs(c, keys).paid == c.paid
  {
    assert c.sidTx.Keys - WithoutTxs(c, keys).sidTx.Keys == SidsOfAny(c, keys);
  }

  /** Some short id of the transaction stands for a paid one. */
  ghost predicate HasPaid(c: Cache, key: Key) {
    exists s :: s in c.paid && s in c.sidTx && c.sidTx[s] == key
  }

  lemma PaidIsProtected(c: Cache, key: Key, force: bool)
    requires Index(c)
    ensures Protected(c, key, force) <==> HasPaid(c, key) && !force
  {
    forall s ensures s in SidsOf(c, key) <==> s in c.sidTx && c.sidTx[s] == key {
    }
    if HasPaid(c, key) {
      var s :| s in c.paid && s in c.sidTx && c.sidTx[s] == key;
      assert s in SidsOf(c, key) * c.paid;
    }
    if SidsOf(c, key) * c.paid != {} {
      var s :| s in SidsOf(c, key) * c.paid;
      assert s in c.paid && c.sidTx[s] == key;
    }
  }

  lemma DropContentsIsWithout(c: Cache, key: Key)
    requires Index(c) && Accounted(c) && c.assignQ.Valid() && key !in c.txSids
    ensures DropContents(c, key) == WithoutTxs(c, {key}) && SidsOfAny(c, {key}) == {}
  {
    forall s | s in c.sidTx ensures c.sidTx[s] != key {
      assert c.sidTx[s] in c.txSids;
    }
    assert SidsOfAny(c, {key}) == {};
    DropContentsIs(c, key);
    DeleteAbsent(c.assignQ, {});
    MinusNothing(c.sidTx);
    MinusAbsent(c.txSids, key);
  }

  lemma RemoveKnownDoes(c: Cache, key: Key, force: bool, assumeNoSid: bool)
    requires Sound(c) && key in c.txSids
    ensures RemoveByKey(c, key, force, assumeNoSid)
            == if assumeNoSid || Protected(c, key, force) then c
               else WithoutTxs(c, {key}).(paid := c.paid - SidsOfAny(c, {key}))
  {
    assert SidsOfAny(c, {key}) == c.txSids[key] == c.txSids[key] * c.sidTx.Keys;
    assert c.txSids[key] != {};
    DropIsWithout(c, key);
  }

  /**
   Removal by transaction: a transaction with short ids is spared when none were assumed, or when one of them is paid
   and removal is not forced. Otherwise it goes with everything, the marks of its paid short ids included.
   */
  lemma RemoveByKeyDoes(c: Cache, key: Key, force: bool, assumeNoSid: bool)
    requires Sound(c)
    ensures var r := RemoveByKey(c, key, force, assumeNoSid);
            if key in c.txSids && (assumeNoSid || (HasPaid(c, key) && !force)) then r == c
            else TxsGone(c, r, {key}) && r.paid == c.paid - (c.sidTx.Keys - r.sidTx.Keys)
  {
    PaidIsProtected(c, key, force);
    WithoutDoes(c, {key});
    if key in c.txSids {
      RemoveKnownDoes(c, key, force, assumeNoSid);
    } else {
      DropContentsIsWithout(c, key);
    }
  }

  /** One of several short ids goes, and the transaction stays with the others. */
  ghost predicate SidGone(c: Cache, r: Cache, sid: Sid)
    requires sid in c.sidTx && c.sidTx[sid] in c.txSids
  {
    && r.sidTx == c.sidTx - {sid} && r.txSids == c.txSids[c.sidTx[sid] := c.txSids[c.sidTx[sid]] - {sid}]
    && Takes(c.assignQ, r.assignQ, {sid})
    && r.contents == c.contents && r.total == c.total
    && r.noSidQ == c.noSidQ && r.noContentQ == c.noContentQ && SameAlarms(c, r)
  }

  lemma RemoveUnmappedDoes(c: Cache, sid: Sid, related: bool, force: bool)
    requires Sound(c) && sid !in c.sidTx
    ensures RemoveBySid(c, sid, related, force) == c
  {
    assert sid !in c.assignQ.vals.Keys;
    DeleteAbsent(c.assignQ, {sid});
  }

  lemma RemoveMappedDoes(c: Cache, sid: Sid, key: Key, related: bool, force: bool)
    requires Sound(c) && sid in c.sidTx && c.sidTx[sid] == key && !Protected(c, key, force)
    ensures var r := RemoveBySid(c, sid, related, force);
            r.paid == c.paid && if related || c.txSids[key] == {sid} then TxsGone(c, r, {key}) else SidGone(c, r, sid)
  {
    Singleton(c.txSids[key], sid);
    if related || c.txSids[key] == {sid} {
      RemoveRelatedIsDrop(c, sid, key);
      assert RemoveBySid(c, sid, related, force) == RemoveBySid(c, sid, true, true);
      DropIsWithout(c, key);
      WithoutDoes(c, {key});
    }
  }

  /**
   Removal by short id: a paid transaction is spared unless forced; the last short id takes its transaction along, as
   any does together with its related ones. The marks of paid short ids stay.
   */
  lemma RemoveBySidDoes(c: Cache, sid: Sid, related: bool, force: bool)
    requires Sound(c)
    ensures var r := RemoveBySid(c, sid, related, force);
            if sid !in c.sidTx || (HasPaid(c, c.sidTx[sid]) && !force) then r == c
            else r.paid == c.paid && if related || c.txSids[c.sidTx[sid]] == {sid} then TxsGone(c, r, {c.sidTx[sid]})
                                     else SidGone(c, r, sid)
  {
    if sid in c.sidTx {
      var key := c.sidTx[sid];
      PaidIsProtected(c, key, force);
      if !Protected(c, key, force) {
        RemoveMappedDoes(c, sid, key, related, force);
      }
    } else {
      RemoveUnmappedDoes(c, sid, related, force);
    }
  }

  lemma MarkingIsSound(c: Cache, sid: Sid)
    requires Sound(c)
    ensures Sound(MarkPaid(c, sid)) && MarkPaid(c, sid).(paid := c.paid) == c
  {
  }

  /** Once a short id is marked as paid, neither it nor its transaction goes unless forced. */
  lemma PaidIsSpared(c: Cache, sid: Sid, related: bool, assumeNoSid: bool)
    requires Sound(c) && sid in c.sidTx
    ensures var paid := MarkPaid(c, sid);
            && paid.(paid := c.paid) == c
            && RemoveBySid(paid, sid, related, false) == paid
            && RemoveByKey(paid, c.sidTx[sid], false, assumeNoSid) == paid
  {
    var paid := MarkPaid(c, sid);
    MarkingIsSound(c, sid);
    assert HasPaid(paid, c.sidTx[sid]) && c.sidTx[sid] in c.txSids;
    RemoveBySidDoes(paid, sid, related, false);
    RemoveByKeyDoes(paid, c.sidTx[sid], false, assumeNoSid);
  }

  /** The short ids of a transaction go only while it has no content. */
  lemma RemoveSidsOfKeyDoes(c: Cache, key: Key)
    requires Sound(c)
    ensures var r := RemoveSidsOfKey(c, key);
            if key in c.contents || key !in c.txSids then r == c else TxsGone(c, r, {key}) && r.paid == c.paid
  {
    if key !in c.contents && key in c.txSids {
      DropIsWithout(c, key);
      WithoutDoes(c, {key});
    }
  }

  // ----- Expiring -----

  /** The first m entries are older than `ttl`, and the next one is not unless the limit is reached. */
  ghost predicate OldRun<K(!new)>(q: OrderedDict<K, int>, now: int, ttl: int, limit: nat, m: nat)
    requires q.Valid()
  {
    && m <= |q.order| && m <= limit
    && (forall i :: 0 <= i < m ==> now - q.vals[q.order[i]] > ttl)
    && (m < |q.order| && m < limit ==> now - q.vals[q.order[m]] <= ttl)
  }

  /** q without its first n entries. */
  ghost predicate Skips<K(!new)>(q: OrderedDict<K, int>, r: OrderedDict<K, int>, n: nat)
    requires n <= |q.order|
  {
    r.order == q.order[n..] && r.vals == q.vals - SetOf(q.order[..n])
  }

  /** The first n transactions waiting for a short id wait no more, and those still without one lose their content. */
  ghost predicate UnassignedGone(c: Cache, r: Cache, n: nat)
    requires n <= |c.noSidQ.order|
  {
    && Skips(c.noSidQ, r.noSidQ, n)
    && (forall k :: k in r.contents <==> k in c.contents && (k in c.noSidQ.order[..n] ==> k in c.txSids))
    && (forall k :: k in r.contents ==> r.contents[k] == c.contents[k])
    && r.total == TotalLen(r.contents)
    && r.sidTx == c.sidTx && r.txSids == c.txSids && r.assignQ == c.assignQ && r.noContentQ == c.noContentQ
    && r.paid == c.paid && SameAlarms(c, r)
  }

  /** The first n transactions waiting for a content wait no more, and those still without one lose their short ids. */
  ghost predicate EmptyGone(c: Cache, r: Cache, n: nat)
    requires n <= |c.noContentQ.order|
  {
    && Skips(c.noContentQ, r.noContentQ, n)
    && (forall k :: k in r.txSids <==> k in c.txSids && (k in c.noContentQ.order[..n] ==> k in c.contents))
    && (forall k :: k in r.txSids ==> r.txSids[k] == c.txSids[k])
    && (forall s :: s in r.sidTx <==> s in c.sidTx && c.sidTx[s] in r.txSids)
    && (forall s :: s in r.sidTx ==> r.sidTx[s] == c.sidTx[s])
    && Takes(c.assignQ, r.assignQ, c.sidTx.Keys - r.sidTx.Keys)
    && r.contents == c.contents && r.total == c.total && r.noSidQ == c.noSidQ && r.paid == c.paid && SameAlarms(c, r)
  }

  lemma DropUnassignedDoes(c: Cache, n: nat)
    requires n <= |c.noSidQ.order|
    ensures UnassignedGone(c, DropUnassigned(c, n), n)
  {
  }

  lemma DropEmptyDoes(c: Cache, n: nat)
    requires Index(c) && n <= |c.noContentQ.order|
    ensures EmptyGone(c, DropEmpty(c, n), n)
  {
    var r := DropEmpty(c, n);
    var keys := SetOf(c.noContentQ.order[..n]) - c.contents.Keys;
    assert forall k :: k in keys <==> k in c.noContentQ.order[..n] && k !in c.contents;
    assert forall k :: k in r.txSids <==> k in c.txSids && (k in c.noContentQ.order[..n] ==> k in c.contents);
    forall s | s in c.sidTx ensures c.sidTx[s] in r.txSids <==> s !in SidsOfAny(c, keys) {
      assert c.sidTx[s] in c.txSids;
    }
    assert c.sidTx.Keys - r.sidTx.Keys == SidsOfAny(c, keys);
  }

  /** A task with an empty queue returns zero; any other asks for the time its oldest entry has left, or for 15 s. */
  ghost predicate Asks<K(!new)>(q: OrderedDict<K, int>, now: int, ttl: int, delay: int)
    requires q.Valid()
  {
    if q.order == [] then delay == 0
    else delay >= 15 && delay >= q.vals[q.order[0]] + ttl - now && delay in {15, q.vals[q.order[0]] + ttl - now}
  }

  lemma DelayIs<K(!new)>(q: OrderedDict<K, int>, now: int, ttl: int)
    requires q.Valid()
    ensures Asks(q, now, ttl, NextDelay(q, now, ttl))
  {
  }

  /** The task stays flagged and pending if `stays`, and is neither otherwise. */
  ghost predicate Repeats(c: Cache, r: Cache, t: Task, stays: bool) {
    r.flagged == (if stays then c.flagged else c.flagged - {t}) &&
    forall u: Task :: r.scheduled[u] == if u in r.flagged then 1 else 0
  }

  /** Around the expired pass `e` of the cache, firing only updates the flag and the alarm of the task. */
  lemma FireIs(cfg: Config, c: Cache, e: Cache, t: Task, now: int, delay: int)
    requires QueuesValid(c) && Alarmed(c) && t in c.flagged && SameAlarms(c, e)
    requires Expire(cfg, c, t, now) == (Unflag(e, t, delay), delay)
    ensures Repeats(c, Fire(cfg, c, t, now), t, delay > 0)
    ensures Fire(cfg, c, t, now).(flagged := c.flagged, scheduled := c.scheduled) == e
  {
    assert c.scheduled[t] == 1;
  }

  /** A task that is not pending does nothing. */
  lemma FireNothing(cfg: Config, c: Cache, t: Task, now: int)
    requires QueuesValid(c) && Alarmed(c) && t !in c.flagged
    ensures Fire(cfg, c, t, now) == c
  {
    assert c.scheduled[t] == 0;
  }

  lemma StopIsOldRun<K(!new)>(q: OrderedDict<K, int>, now: int, ttl: int, limit: nat)
    requires q.Valid()
    ensures OldRun(q, now, ttl, limit, ExpiryStop(q, now, ttl, 0, limit))
  {
    var m := ExpiryStop(q, now, ttl, 0, limit);
    forall i | 0 <= i < m ensures now - q.vals[q.order[i]] > ttl {
      assert Old(q, i, now, ttl);
    }
    assert m < |q.order| && m < limit ==> !Old(q, m, now, ttl);
  }

  lemma FireAssignmentsPass(cfg: Config, c: Cache, e: Cache, now: int, delay: int)
    requires QueuesValid(c) && e == ExpireAssigned(cfg, c, now, 500)
    requires delay == NextDelay(e.assignQ, now, cfg.sidExpireTime)
    ensures Expire(cfg, c, ExpireAssignments, now) == (Unflag(e, ExpireAssignments, delay), delay)
  {
  }

  /** Expiring assignments: the leading old ones go, at most 500, and the task repeats while any is left. */
  lemma FireAssignmentsDoes(cfg: Config, c: Cache, now: int) returns (m: nat, delay: int)
    requires Sound(c) && ExpireAssignments in c.flagged
    ensures var r := Fire(cfg, c, ExpireAssignments, now);
            && OldRun(c.assignQ, now, cfg.sidExpireTime, 500, m)
            && OldestGone(c, r.(flagged := c.flagged, scheduled := c.scheduled), m)
            && delay == Expire(cfg, c, ExpireAssignments, now).1
            && r.assignQ.Valid() && Asks(r.assignQ, now, cfg.sidExpireTime, delay)
            && Repeats(c, r, ExpireAssignments, r.assignQ.order != [])
  {
    m := ExpiryStop(c.assignQ, now, cfg.sidExpireTime, 0, 500);
    StopIsOldRun(c.assignQ, now, cfg.sidExpireTime, 500);
    var e := ExpireAssigned(cfg, c, now, 500);
    ExpiryDropsOldPrefix(cfg, c, now, 500);
    DropOldestDoes(c, m);
    delay := NextDelay(e.assignQ, now, cfg.sidExpireTime);
    DelayIs(e.assignQ, now, cfg.sidExpireTime);
    FireAssignmentsPass(cfg, c, e, now, delay);
    FireIs(cfg, c, e, ExpireAssignments, now, delay);
  }

  lemma FireContentPass(cfg: Config, c: Cache, e: Cache, now: int, delay: int)
    requires QueuesValid(c) && e == ExpireUnassigned(c, now, 500)
    requires delay == NextDelay(e.noSidQ, now, 15 * 60)
    ensures Expire(cfg, c, ExpireContent, now) == (Unflag(e, ExpireContent, delay), delay)
  {
  }

  /** Expiring contents: the leading old entries stop waiting, and what still has no short id loses its content. */
  lemma FireContentDoes(cfg: Config, c: Cache, now: int) returns (m: nat, delay: int)
    requires Sound(c) && ExpireContent in c.flagged
    ensures var r := Fire(cfg, c, ExpireContent, now);
            && OldRun(c.noSidQ, now, 15 * 60, 500, m)
            && UnassignedGone(c, r.(flagged := c.flagged, scheduled := c.scheduled), m)
            && delay == Expire(cfg, c, ExpireContent, now).1
            && r.noSidQ.Valid() && Asks(r.noSidQ, now, 15 * 60, delay)
            && Repeats(c, r, ExpireContent, r.noSidQ.order != [])
  {
    m := ExpiryStop(c.noSidQ, now, 15 * 60, 0, 500);
    StopIsOldRun(c.noSidQ, now, 15 * 60, 500);
    var e := ExpireUnassigned(c, now, 500);
    ContentExpiryRemovesExactly(c, now, 500);
    DropUnassignedDoes(c, m);
    delay := NextDelay(e.noSidQ, now, 15 * 60);
    DelayIs(e.noSidQ, now, 15 * 60);
    FireContentPass(cfg, c, e, now, delay);
    FireIs(cfg, c, e, ExpireContent, now, delay);
  }

  lemma FireSidsPass(cfg: Config, c: Cache, e: Cache, now: int, delay: int)
    requires QueuesValid(c) && e == ExpireEmpty(c, now, 500)
    requires delay == NextDelay(e.noContentQ, now, 15 * 60)
    ensures Expire(cfg, c, ExpireSids, now) == (Unflag(e, ExpireSids, delay), delay)
  {
  }

  /** Expiring short ids: the leading old entries stop waiting, and what still has no content loses its short ids. */
  lemma FireSidsDoes(cfg: Config, c: Cache, now: int) returns (m: nat, delay: int)
    requires Sound(c) && ExpireSids in c.flagged
    ensures var r := Fire(cfg, c, ExpireSids, now);
            && OldRun(c.noContentQ, now, 15 * 60, 500, m)
            && EmptyGone(c, r.(flagged := c.flagged, scheduled := c.scheduled), m)
            && delay == Expire(cfg, c, ExpireSids, now).1
            && r.noContentQ.Valid() && Asks(r.noContentQ, now, 15 * 60, delay)
            && Repeats(c, r, ExpireSids, r.noContentQ.order != [])
  {
    m := ExpiryStop(c.noContentQ, now, 15 * 60, 0, 500);
    StopIsOldRun(c.noContentQ, now, 15 * 60, 500);
    var e := ExpireEmpty(c, now, 500);
    SidExpiryRemovesExactly(c, now, 500);
    DropEmptyDoes(c, m);
    delay := NextDelay(e.noContentQ, now, 15 * 60);
    DelayIs(e.noContentQ, now, 15 * 60);
    FireSidsPass(cfg, c, e, now, delay);
    FireIs(cfg, c, e, ExpireSids, now, delay);
  }

  // ----- Blocks -----

  /** The named short ids take their transactions along. */
  ghost function Named(c: Cache, sids: seq<Sid>): set<Key> {
    set s | s in sids && s in c.sidTx :: c.sidTx[s]
  }

  /**
   A block is tracked with its short ids, behind the others if it is new. When as many blocks as confirmations are
   tracked, the oldest one is forgotten and the transactions that it named are gone; below that nothing else changes.
   */
  lemma TrackDoes(cfg: Config, c: Cache, block: Block, sids: seq<Sid>) returns (tracked: OrderedDict<Block, seq<Sid>>)
    requires Inv(cfg, c)
    ensures Puts(c.seen, tracked, block, sids) && tracked.order != [] && tracked.order[0] in tracked.vals
    ensures var r := Track(cfg, c, block, sids);
            if |tracked.order| < cfg.confirmations then r == c.(seen := tracked)
            else && TxsGone(c, r.(seen := c.seen), Named(c, tracked.vals[tracked.order[0]])) && r.paid == c.paid
                 && r.seen.order == tracked.order[1..] && r.seen.vals == tracked.vals - {tracked.order[0]}
  {
    tracked := c.seen.Set(block, sids);
    assert block in tracked.order;
    if |tracked.order| >= cfg.confirmations {
      TrackRetiresOldestBlock(cfg, c, block, sids);
      WithoutDoes(c, TxsOf(c, tracked.vals[tracked.order[0]]));
    }
  }

  /** A block cleaned up elsewhere is no longer tracked, and nothing else changes. */
  lemma BlockCleanedDoes(c: Cache, block: Block)
    ensures Takes(c.seen, BlockCleaned(c, block).seen, {block})
    ensures BlockCleaned(c, block).(seen := c.seen) == c
  {
  }
}
