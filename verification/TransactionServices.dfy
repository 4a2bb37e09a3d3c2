/**
 `TransactionService`: the class whose methods update the dictionaries, queues and counters in place. Each
 method is proved to do to the whole state what the function of the same name in TransactionCache says.
 */
module TransactionServices {
  import opened Basics
  import opened OrderedDicts
  import opened ExpirationQueues
  import opened TransactionCache
  import opened TransactionEvictions
  import opened TransactionRuns
  import opened TransactionEffects

  /** `del m[k]`, which raises on a missing key. */
  function Del<K(!new), V>(m: map<K, V>, k: K): map<K, V>
    requires k in m
  {
    m - {k}
  }

  /** Forgetting the siblings before or after the short id itself makes no difference. */
  lemma ForgetInAnyOrder(q: OrderedDict<Sid, int>, sidTx: map<Sid, Key>, sids: set<Sid>, sid: Sid)
    requires sid in sids
    ensures q.DeleteAll(sids - {sid}).Delete(sid) == q.Delete(sid).DeleteAll(sids)
    ensures sidTx - {sid} - (sids - {sid}) == sidTx - sids
  {
    DeleteTwice(q, sids - {sid}, {sid});
    DeleteTwice(q, {sid}, sids);
    assert sids - {sid} + {sid} == {sid} + sids;
    MinusMore(sidTx, {sid}, sids - {sid});
    assert {sid} + (sids - {sid}) == sids;
  }

  /** The cache without a transaction, but for one of its short ids that is still queued. */
  function ForgottenBut(c: Cache, key: Key, sid: Sid): Cache {
    var sids := SidsOf(c, key);
    DropContents(
      c.(sidTx := c.sidTx - {sid} - (sids - {sid}),
         assignQ := c.assignQ.DeleteAll(sids - {sid}),
         txSids := c.txSids - {key}), key)
  }

  lemma ForgottenLast(c: Cache, key: Key, sid: Sid, d: Cache)
    requires sid in SidsOf(c, key) && d == ForgottenBut(c, key, sid)
    ensures d.(assignQ := d.assignQ.Delete(sid)) == DropTransaction(c.(assignQ := c.assignQ.Delete(sid)), key)
  {
    ForgetInAnyOrder(c.assignQ, c.sidTx, SidsOf(c, key), sid);
  }

  class TransactionService {
    const cfg: Config
    const assignQ: ExpirationQueue<Sid>
    const noSidQ: ExpirationQueue<Key>
    const noContentQ: ExpirationQueue<Key>
    var sidTx: map<Sid, Key>
    var txSids: map<Key, set<Sid>>
    var contents: map<Key, Bytes>
    var paid: set<Sid>
    var seen: OrderedDict<Block, seq<Sid>>
    var total: int
    /** The tasks whose "alarm scheduled" field is set. */
    var flagged: set<Task>
    /** The clean-up alarms registered with the node's alarm queue. */
    var scheduled: multiset<Task>

    ghost predicate Linked()
      reads this, assignQ, noSidQ, noContentQ
    {
      && noSidQ != noContentQ
      && assignQ.timeToLive == cfg.sidExpireTime
      && noSidQ.timeToLive == noContentQ.timeToLive == TX_CONTENT_NO_SID_EXPIRE_S
    }

    ghost function View(): Cache
      reads this, assignQ, noSidQ, noContentQ
    {
      Cache(sidTx, txSids, contents, paid, assignQ.queue, noSidQ.queue, noContentQ.queue, seen, total,
            flagged, scheduled)
    }

    ghost predicate Valid()
      reads this, assignQ, noSidQ, noContentQ
    {
      Linked() && Inv(cfg, View())
    }

    constructor (cfg: Config)
      ensures Valid() && View() == EMPTY_CACHE && this.cfg == cfg
      ensures fresh(assignQ) && fresh(noSidQ) && fresh(noContentQ)
    {
      this.cfg := cfg;
      assignQ := new ExpirationQueue(cfg.sidExpireTime);
      noSidQ := new ExpirationQueue(TX_CONTENT_NO_SID_EXPIRE_S);
      noContentQ := new ExpirationQueue(TX_CONTENT_NO_SID_EXPIRE_S);
      sidTx, txSids, contents, paid, seen, total := map[], map[], map[], {}, EmptyDict(), 0;
      flagged, scheduled := {}, multiset{};
    }

    /** Registers a clean-up alarm unless its flag says that it is registered already. */
    method RegisterAlarmOnce(t: Task)
      modifies this`scheduled, this`flagged
      ensures View() == RegisterOnce(old(View()), t)
    {
      if t !in flagged {
        scheduled := scheduled + multiset{t};
        flagged := flagged + {t};
      }
    }

    method AssignShortId(key: Key, sid: Sid, now: int)
      requires Linked() && QueuesValid(View())
      modifies this, assignQ, noSidQ, noContentQ
      ensures Linked() && View() == Assign(old(View()), key, sid, now)
    {
      if sid == NULL_TX_SID {
        return;
      }
      if key !in contents {
        noContentQ.Add(key, now);
        RegisterAlarmOnce(ExpireSids);
      }
      label Awaiting:
      assert View() == AwaitContent(old(View()), key, now);
      txSids := txSids[key := (if key in txSids then txSids[key] else {}) + {sid}];
      sidTx := sidTx[sid := key];
      assignQ.Add(sid, now);
      noSidQ.Remove(key);
      assert View() == Link(old@Awaiting(View()), key, sid, now);
      RegisterAlarmOnce(ExpireAssignments);
    }

    method SetShortIdPaid(sid: Sid)
      requires Linked()
      modifies this
      ensures Linked() && View() == MarkPaid(old(View()), sid)
    {
      paid := paid + {sid};
    }

    /** Unmaps a set of short ids, one at a time; each `del` finds its key. */
    method ForgetSids(sids: set<Sid>)
      requires assignQ.queue.Valid() && sids <= sidTx.Keys
      modifies this`sidTx, assignQ
      ensures sidTx == old(sidTx) - sids && assignQ.queue == old(assignQ.queue).DeleteAll(sids)
    {
      var rest := sids;
      ghost var done := {};
      DeleteAbsent(assignQ.queue, {});
      MinusNothing(sidTx);
      while rest != {}
        invariant rest !! done && rest + done == sids
        invariant assignQ.queue.Valid()
        invariant sidTx == old(sidTx) - done
        invariant assignQ.queue == old(assignQ.queue).DeleteAll(done)
        decreases rest
      {
        var sid :| sid in rest;
        sidTx := Del(sidTx, sid);
        assignQ.Remove(sid);
        DeleteTwice(old(assignQ.queue), done, {sid});
        MinusMore(old(sidTx), done, {sid});
        rest, done := rest - {sid}, done + {sid};
      }
      assert done == sids;
    }

    method ForgetContents(key: Key)
      modifies this`contents, this`total
      ensures View() == DropContents(old(View()), key)
    {
      if key in contents {
        total := total - |contents[key]|;
        contents := Del(contents, key);
      }
    }

    method RemoveSidByKey(key: Key)
      requires Linked() && QueuesValid(View()) && Index(View())
      modifies this, assignQ
      ensures Linked() && View() == RemoveSidsOfKey(old(View()), key)
    {
      if key !in contents && key in txSids {
        var sids := txSids[key];
        txSids := Del(txSids, key);
        ForgetSids(sids);
      }
    }

    /** `reduce(or, flags)` over the flags of a transaction's short ids, which raises on an empty set. */
    predicate AnyPaid(sids: set<Sid>)
      requires sids != {}
      reads this
    {
      sids * paid != {}
    }

    method RemoveTransactionByKey(key: Key, force: bool, assumeNoSid: bool) returns (removed: Option<set<Sid>>)
      requires Linked() && QueuesValid(View()) && Index(View())
      modifies this, assignQ
      ensures Linked() && View() == RemoveByKey(old(View()), key, force, assumeNoSid)
      ensures removed == if key in old(txSids) && key !in txSids then Some(old(txSids)[key]) else None
    {
      removed := None;
      if key in txSids {
        var sids := txSids[key];
        if assumeNoSid && sids != {} {
          return None;
        }
        if AnyPaid(sids) && !force {
          return None;
        }
        txSids := Del(txSids, key);
        removed := Some(sids);
        paid := paid - sids * sidTx.Keys;
        ForgetSids(sids);
      }
      ForgetContents(key);
    }

    /** The branch of a last or related removal: the transaction goes with all its short ids. */
    method ForgetTransaction(key: Key, sid: Sid)
      requires QueuesValid(View()) && Index(View()) && sid in sidTx && sidTx[sid] == key
      modifies this, assignQ
      ensures QueuesValid(View())
      ensures View() == ForgottenBut(old(View()), key, sid)
    {
      var sids := txSids[key];
      sidTx := Del(sidTx, sid);
      ForgetSids(sids - {sid});
      txSids := Del(txSids, key);
      ForgetContents(key);
    }

    method RemoveTransactionByShortId(sid: Sid, related: bool, force: bool)
      requires Linked() && QueuesValid(View()) && Index(View())
      modifies this, assignQ
      ensures Linked() && View() == RemoveBySid(old(View()), sid, related, force)
    {
      if sid in sidTx {
        var key := sidTx[sid];
        var sids := txSids[key];
        if AnyPaid(sids) && !force {
          return;
        }
        if |sids| == 1 || related {
          ForgottenLast(View(), key, sid, ForgottenBut(View(), key, sid));
          ForgetTransaction(key, sid);
        } else {
          sidTx := Del(sidTx, sid);
          txSids := txSids[key := sids - {sid}];
        }
      }
      assignQ.Remove(sid);
    }

    method ClearAll()
      requires Linked()
      modifies this, assignQ, noSidQ, noContentQ
      ensures Linked() && View() == Clear(old(View()))
    {
      contents, txSids, sidTx, seen, paid := map[], map[], map[], EmptyDict(), {};
      noContentQ.RemoveAll();
      noSidQ.RemoveAll();
      assignQ.RemoveAll();
      total := 0;
    }

    /** `remove_oldest` with the removal of a transaction by short id as its callback. */
    method EvictOldest()
      requires Linked() && Sound(View()) && assignQ.queue.order != []
      modifies this, assignQ
      ensures Linked() && View() == EvictOne(old(View()))
    {
      var sid := assignQ.PopOldest();
      RemoveTransactionByShortId(sid, false, true);
    }

    method MemoryLimitCleanUp()
      requires Linked() && Sound(View())
      modifies this, assignQ, noSidQ, noContentQ
      ensures Linked() && View() == CleanUpMemory(cfg, old(View()))
    {
      ghost var before := View();
      while total > cfg.memoryLimit && assignQ.queue.order != []
        invariant Linked() && Sound(View())
        invariant EvictWhileExceeding(cfg, View()) == EvictWhileExceeding(cfg, before)
        decreases |assignQ.queue.order|
      {
        EvictOneKeeps(View());
        EvictOldest();
      }
      if total > cfg.memoryLimit {
        ClearAll();
      }
    }

    method StoreContents(key: Key, bytes: Bytes)
      requires Linked() && noContentQ.queue.Valid()
      modifies this, noContentQ
      ensures Linked() && View() == Store(old(View()), key, bytes)
    {
      var previous := if key in contents then |contents[key]| else 0;
      noContentQ.Remove(key);
      total := total + |bytes| - previous;
      contents := contents[key := bytes];
    }

    method SetTransactionContents(key: Key, bytes: Bytes, now: int)
      requires Valid()
      modifies this, assignQ, noSidQ, noContentQ
      ensures Valid() && View() == SetContents(cfg, old(View()), key, bytes, now)
      ensures StoresWhatFits(cfg, old(View()), View(), key, bytes, now)
    {
      ghost var before := View();
      WhatFitsIsStored(cfg, before, key, bytes, now);
      SetContentsInv(cfg, before, key, bytes, now);
      if key !in txSids {
        noSidQ.Add(key, now);
        RegisterAlarmOnce(ExpireContent);
      }
      assert View() == AwaitSid(before, key, now);
      AwaitSidKept(before, key, now);
      StoreContents(key, bytes);
      PutKeeps(before, key, bytes, now);
      MemoryLimitCleanUp();
    }

    /** `remove_expired` on the assignment queue. */
    method RemoveExpiredAssignments(now: int)
      requires Linked() && Sound(View())
      modifies this, assignQ
      ensures Linked() && Sound(View())
      ensures View() == ExpireAssigned(cfg, old(View()), now, MAX_EXPIRED_TXS_TO_REMOVE)
    {
      ghost var before, v, left := View(), View(), MAX_EXPIRED_TXS_TO_REMOVE;
      var n := 0;
      while n < MAX_EXPIRED_TXS_TO_REMOVE && assignQ.IsExpiredFront(now)
        invariant left == MAX_EXPIRED_TXS_TO_REMOVE - n && Linked() && View() == v && Sound(v)
        invariant ExpireAssigned(cfg, v, now, left) == ExpireAssigned(cfg, before, now, MAX_EXPIRED_TXS_TO_REMOVE)
        decreases left
      {
        EvictOneKeeps(v);
        ExpireAssignedStep(cfg, v, EvictOne(v), now, left);
        EvictOldest();
        v, left := EvictOne(v), left - 1;
        n := n + 1;
      }
    }

    method ExpireOldAssignments(now: int) returns (delay: int)
      requires Linked() && Sound(View())
      modifies this, assignQ
      ensures Linked() && (View(), delay) == Expire(cfg, old(View()), ExpireAssignments, now)
    {
      RemoveExpiredAssignments(now);
      delay := NextDelay(assignQ.queue, now, assignQ.timeToLive);
      if delay == 0 {
        flagged := flagged - {ExpireAssignments};
      }
    }

    method ExpireOneContent()
      requires Linked() && Sound(View()) && noSidQ.queue.order != []
      modifies this, assignQ, noSidQ
      ensures Linked() && View() == PopUnassigned(old(View()))
    {
      var key := noSidQ.PopOldest();
      var _ := RemoveTransactionByKey(key, true, true);
    }

    /** `remove_expired` on the no-short-id queue. */
    method RemoveExpiredContents(now: int)
      requires Linked() && Sound(View())
      modifies this, assignQ, noSidQ
      ensures Linked() && Sound(View())
      ensures View() == ExpireUnassigned(old(View()), now, MAX_EXPIRED_TXS_TO_REMOVE)
    {
      ghost var before, v, left := View(), View(), MAX_EXPIRED_TXS_TO_REMOVE;
      var n := 0;
      while n < MAX_EXPIRED_TXS_TO_REMOVE && noSidQ.IsExpiredFront(now)
        invariant left == MAX_EXPIRED_TXS_TO_REMOVE - n && Linked() && View() == v && Sound(v)
        invariant ExpireUnassigned(v, now, left) == ExpireUnassigned(before, now, MAX_EXPIRED_TXS_TO_REMOVE)
        decreases left
      {
        PopUnassignedKeeps(v);
        ExpireUnassignedStep(v, PopUnassigned(v), now, left);
        ExpireOneContent();
        v, left := PopUnassigned(v), left - 1;
        n := n + 1;
      }
    }

    method ExpireContentWithoutSid(now: int) returns (delay: int)
      requires Linked() && Sound(View())
      modifies this, assignQ, noSidQ
      ensures Linked() && (View(), delay) == Expire(cfg, old(View()), ExpireContent, now)
    {
      RemoveExpiredContents(now);
      delay := NextDelay(noSidQ.queue, now, noSidQ.timeToLive);
      if delay == 0 {
        flagged := flagged - {ExpireContent};
      }
    }

    method ExpireOneSid()
      requires Linked() && Sound(View()) && noContentQ.queue.order != []
      modifies this, assignQ, noContentQ
      ensures Linked() && View() == PopEmpty(old(View()))
    {
      var key := noContentQ.PopOldest();
      RemoveSidByKey(key);
    }

    /** `remove_expired` on the no-content queue. */
    method RemoveExpiredSids(now: int)
      requires Linked() && Sound(View())
      modifies this, assignQ, noContentQ
      ensures Linked() && Sound(View())
      ensures View() == ExpireEmpty(old(View()), now, MAX_EXPIRED_TXS_TO_REMOVE)
    {
      ghost var before, v, left := View(), View(), MAX_EXPIRED_TXS_TO_REMOVE;
      var n := 0;
      while n < MAX_EXPIRED_TXS_TO_REMOVE && noContentQ.IsExpiredFront(now)
        invariant left == MAX_EXPIRED_TXS_TO_REMOVE - n && Linked() && View() == v && Sound(v)
        invariant ExpireEmpty(v, now, left) == ExpireEmpty(before, now, MAX_EXPIRED_TXS_TO_REMOVE)
        decreases left
      {
        PopEmptyKeeps(v);
        ExpireEmptyStep(v, PopEmpty(v), now, left);
        ExpireOneSid();
        v, left := PopEmpty(v), left - 1;
        n := n + 1;
      }
    }

    method ExpireSidWithoutContent(now: int) returns (delay: int)
      requires Linked() && Sound(View())
      modifies this, assignQ, noContentQ
      ensures Linked() && (View(), delay) == Expire(cfg, old(View()), ExpireSids, now)
    {
      RemoveExpiredSids(now);
      delay := NextDelay(noContentQ.queue, now, noContentQ.timeToLive);
      if delay == 0 {
        flagged := flagged - {ExpireSids};
      }
    }

    method TrackSeenShortIds(block: Block, sids: seq<Sid>)
      requires Valid()
      modifies this, assignQ
      ensures Valid() && View() == Track(cfg, old(View()), block, sids)
    {
      ghost var before := View();
      TrackKeeps(cfg, before, block, sids);
      seen := seen.Set(block, sids);
      if |seen.order| >= cfg.confirmations {
        assert block in seen.order;
        var final := seen.vals[seen.order[0]];
        seen := seen.DropFirst();
        ghost var popped, v := View(), View();
        for i := 0 to |final|
          invariant Linked() && View() == v && Sound(v)
          invariant RetireAll(v, final[i..]) == RetireAll(popped, final)
        {
          RemoveBySidKeeps(v, final[i], true, true);
          RemoveTransactionByShortId(final[i], true, true);
          v := View();
          assert final[i..][1..] == final[i + 1..];
        }
      }
    }

    method OnBlockCleanedUp(block: Block)
      requires Linked() && seen.Valid()
      modifies this`seen
      ensures Linked() && View() == BlockCleaned(old(View()), block)
      ensures old(Valid()) ==> Valid()
    {
      ghost var before := View();
      if Inv(cfg, before) {
        BlockCleanedInv(cfg, before, block);
      }
      if block in seen.vals {
        seen := seen.Delete(block);
      } else {
        DeleteAbsent(seen, {block});
      }
    }
  }
}
