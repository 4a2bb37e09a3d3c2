/**
 The transaction cache as a value: what every operation of `TransactionService` does to its dictionaries,
 expiration queues, byte total and clean-up alarms, and the invariant that every run keeps.
 */
module TransactionCache {
  import opened Basics
  import opened OrderedDicts
  import opened ExpirationQueues

  type Key = string
  type Sid = nat
  type Bytes = seq<bv8>
  type Block = string

  const TX_CONTENT_NO_SID_EXPIRE_S := 60 * 15
  const MAX_EXPIRED_TXS_TO_REMOVE: nat := 500
  const MIN_CLEAN_UP_EXPIRED_TXS_TASK_INTERVAL_S := 15

  /** The three periodic clean-up alarms. */
  datatype Task = ExpireAssignments | ExpireContent | ExpireSids

  datatype Config = Config(memoryLimit: nat, confirmations: int, sidExpireTime: nat)

  /**
   `paid` holds the short ids whose stored flag includes PAID_TX; `flagged` the tasks whose
   "alarm scheduled" field is set; `scheduled` the clean-up alarms pending in the node's alarm queue.
   */
  datatype Cache = Cache(
    sidTx: map<Sid, Key>,
    txSids: map<Key, set<Sid>>,
    contents: map<Key, Bytes>,
    paid: set<Sid>,
    assignQ: OrderedDict<Sid, int>,
    noSidQ: OrderedDict<Key, int>,
    noContentQ: OrderedDict<Key, int>,
    seen: OrderedDict<Block, seq<Sid>>,
    total: int,
    flagged: set<Task>,
    scheduled: multiset<Task>)

  const EMPTY_CACHE := Cache(map[], map[], map[], {}, EmptyDict(), EmptyDict(), EmptyDict(), EmptyDict(),
                            0, {}, multiset{})

  // ----- The byte total -----

  ghost function TotalLen(m: map<Key, Bytes>): nat {
    if m == map[] then 0
    else
      var k :| k in m;
      |m[k]| + TotalLen(m - {k})
  }

  lemma {:induction false} TotalLenSplit(m: map<Key, Bytes>, k: Key)
    requires k in m
    ensures TotalLen(m) == |m[k]| + TotalLen(m - {k})
    decreases |m|
  {
    var p :| p in m && TotalLen(m) == |m[p]| + TotalLen(m - {p});
    if p != k {
      TotalLenSplit(m - {p}, k);
      TotalLenSplit(m - {k}, p);
      assert m - {p} - {k} == m - {k} - {p};
    }
  }

  lemma TotalLenSet(m: map<Key, Bytes>, k: Key, b: Bytes)
    ensures TotalLen(m[k := b]) == TotalLen(m) + |b| - (if k in m then |m[k]| else 0)
  {
    TotalLenSplit(m[k := b], k);
    assert m[k := b] - {k} == m - {k};
    if k in m {
      TotalLenSplit(m, k);
    } else {
      assert m - {k} == m;
    }
  }

  // ----- The invariant -----

  /** The two indexes are inverse to each other and no transaction has an empty set of short ids. */
  ghost predicate Inverse(sidTx: map<Sid, Key>, txSids: map<Key, set<Sid>>) {
    && (forall s :: s in sidTx ==> sidTx[s] in txSids && s in txSids[sidTx[s]])
    && (forall k, s :: k in txSids && s in txSids[k] ==> s in sidTx && sidTx[s] == k)
    && (forall k :: k in txSids ==> txSids[k] != {})
  }

  ghost predicate Index(c: Cache) {
    Inverse(c.sidTx, c.txSids)
  }

  ghost predicate QueuesValid(c: Cache) {
    c.assignQ.Valid() && c.noSidQ.Valid() && c.noContentQ.Valid() && c.seen.Valid()
  }

  /** The assignment queue holds exactly the mapped short ids. */
  ghost predicate AssignedExact(c: Cache) {
    c.assignQ.vals.Keys == c.sidTx.Keys
  }

  ghost predicate Accounted(c: Cache) {
    c.total == TotalLen(c.contents)
  }

  /** A transaction lacking its short ids or its content waits in the queue that will expire it. */
  ghost predicate NoLeak(c: Cache) {
    Covered(c.contents.Keys, c.txSids.Keys, c.noSidQ) && Covered(c.txSids.Keys, c.contents.Keys, c.noContentQ)
  }

  /** Whatever is in `have` but not in `other` is queued. */
  ghost predicate Covered(have: set<Key>, other: set<Key>, q: OrderedDict<Key, int>) {
    forall k :: k in have && k !in other ==> k in q.vals
  }

  /** A non-empty queue has its flag set, and a set flag means exactly one pending alarm. */
  ghost predicate Alarmed(c: Cache) {
    && (c.assignQ.order != [] ==> ExpireAssignments in c.flagged)
    && (c.noSidQ.order != [] ==> ExpireContent in c.flagged)
    && (c.noContentQ.order != [] ==> ExpireSids in c.flagged)
    && (forall t: Task :: c.scheduled[t] == if t in c.flagged then 1 else 0)
  }

  /** The invariant apart from the two-way index. */
  ghost predicate Kept(c: Cache) {
    QueuesValid(c) && AssignedExact(c) && Accounted(c) && NoLeak(c) && Alarmed(c)
  }

  ghost predicate Sound(c: Cache) {
    Index(c) && Kept(c)
  }

  /** How many blocks may be tracked between calls. */
  function MaxTracked(cfg: Config): nat {
    if cfg.confirmations > 1 then cfg.confirmations - 1 else 0
  }

  ghost predicate Inv(cfg: Config, c: Cache) {
    && Sound(c)
    && c.total <= cfg.memoryLimit
    && |c.seen.order| <= MaxTracked(cfg)
  }

  // ----- Operations -----

  function SidsOf(c: Cache, key: Key): set<Sid> {
    if key in c.txSids then c.txSids[key] else {}
  }

  function RegisterOnce(c: Cache, t: Task): Cache {
    if t in c.flagged then c else c.(flagged := c.flagged + {t}, scheduled := c.scheduled + multiset{t})
  }

  /** A transaction without contents waits for them in the no-content queue. */
  function AwaitContent(c: Cache, key: Key, now: int): Cache {
    if key in c.contents then c
    else RegisterOnce(c.(noContentQ := c.noContentQ.Set(key, now)), ExpireSids)
  }

  function Link(c: Cache, key: Key, sid: Sid, now: int): Cache {
    c.(txSids := c.txSids[key := SidsOf(c, key) + {sid}],
       sidTx := c.sidTx[sid := key],
       assignQ := c.assignQ.Set(sid, now),
       noSidQ := c.noSidQ.Delete(key))
  }

  function Assign(c: Cache, key: Key, sid: Sid, now: int): Cache {
    if sid == NULL_TX_SID then c
    else RegisterOnce(Link(AwaitContent(c, key, now), key, sid, now), ExpireAssignments)
  }

  function MarkPaid(c: Cache, sid: Sid): Cache {
    c.(paid := c.paid + {sid})
  }

  /** A paid transaction is kept unless removal is forced. */
  predicate Protected(c: Cache, key: Key, force: bool) {
    SidsOf(c, key) * c.paid != {} && !force
  }

  /** A removal or eviction leaves the flags, the pending alarms and the tracked blocks as they are. */
  ghost predicate SameAlarms(c: Cache, d: Cache) {
    c.flagged == d.flagged && c.scheduled == d.scheduled && c.seen == d.seen
  }

  function DropContents(c: Cache, key: Key): (r: Cache)
    ensures SameAlarms(c, r)
  {
    if key in c.contents
    then c.(contents := c.contents - {key}, total := c.total - |c.contents[key]|)
    else c
  }

  /** Removes the transaction, its short ids and their queue entries; keeps the short-id flags. */
  function DropTransaction(c: Cache, key: Key): (r: Cache)
    ensures SameAlarms(c, r)
  {
    var sids := SidsOf(c, key);
    DropContents(
      c.(sidTx := c.sidTx - sids, txSids := c.txSids - {key}, assignQ := c.assignQ.DeleteAll(sids)), key)
  }

  function RemoveBySid(c: Cache, sid: Sid, related: bool, force: bool): (r: Cache)
    ensures SameAlarms(c, r)
  {
    if sid !in c.sidTx then c.(assignQ := c.assignQ.Delete(sid))
    else
      var key := c.sidTx[sid];
      var sids := SidsOf(c, key);
      if Protected(c, key, force) then c
      else if |sids| == 1 || related then
        DropTransaction(c.(assignQ := c.assignQ.Delete(sid)), key)
      else
        c.(sidTx := c.sidTx - {sid},
           txSids := c.txSids[key := sids - {sid}],
           assignQ := c.assignQ.Delete(sid))
  }

  function RemoveByKey(c: Cache, key: Key, force: bool, assumeNoSid: bool): (r: Cache)
    ensures SameAlarms(c, r)
  {
    if key in c.txSids then
      if assumeNoSid && c.txSids[key] != {} then c
      else if Protected(c, key, force) then c
      else DropTransaction(c, key).(paid := c.paid - (c.txSids[key] * c.sidTx.Keys))
    else DropContents(c, key)
  }

  function RemoveSidsOfKey(c: Cache, key: Key): (r: Cache)
    ensures SameAlarms(c, r)
  {
    if key in c.contents || key !in c.txSids then c
    else DropTransaction(c, key)
  }

  function Clear(c: Cache): Cache {
    EMPTY_CACHE.(flagged := c.flagged, scheduled := c.scheduled)
  }

  /** Pops the oldest assigned short id and removes it. */
  function EvictOne(c: Cache): (r: Cache)
    requires c.assignQ.order != []
    ensures |r.assignQ.order| < |c.assignQ.order| && SameAlarms(c, r)
    ensures c.assignQ.Valid() ==> r.assignQ.Valid()
  {
    RemoveBySid(c.(assignQ := c.assignQ.DropFirst()), c.assignQ.order[0], false, true)
  }

  predicate Exceeds(cfg: Config, c: Cache) {
    c.total > cfg.memoryLimit
  }

  /** Evicts oldest short ids while the contents exceed the limit and short ids remain. */
  function EvictWhileExceeding(cfg: Config, c: Cache): (r: Cache)
    ensures Exceeds(cfg, r) ==> r.assignQ.order == []
    ensures SameAlarms(c, r)
    decreases |c.assignQ.order|
  {
    if Exceeds(cfg, c) && c.assignQ.order != [] then EvictWhileExceeding(cfg, EvictOne(c)) else c
  }

  function CleanUpMemory(cfg: Config, c: Cache): (r: Cache)
    ensures !Exceeds(cfg, r)
  {
    var e := EvictWhileExceeding(cfg, c);
    if Exceeds(cfg, e) then Clear(e) else e
  }

  /** A transaction without short ids waits for one in the no-short-id queue. */
  function AwaitSid(c: Cache, key: Key, now: int): Cache {
    if key in c.txSids then c
    else RegisterOnce(c.(noSidQ := c.noSidQ.Set(key, now)), ExpireContent)
  }

  function Store(c: Cache, key: Key, contents: Bytes): Cache {
    c.(noContentQ := c.noContentQ.Delete(key),
       total := c.total + |contents| - (if key in c.contents then |c.contents[key]| else 0),
       contents := c.contents[key := contents])
  }

  /** `SetContents` up to its final memory clean-up. */
  function PutContents(c: Cache, key: Key, contents: Bytes, now: int): Cache {
    Store(AwaitSid(c, key, now), key, contents)
  }

  function SetContents(cfg: Config, c: Cache, key: Key, contents: Bytes, now: int): Cache {
    CleanUpMemory(cfg, PutContents(c, key, contents, now))
  }

  // ----- Expiry -----

  function ExpireAssigned(cfg: Config, c: Cache, now: int, limit: nat): (r: Cache)
    requires c.assignQ.Valid()
    ensures r.assignQ.Valid()
    ensures SameAlarms(c, r)
    decreases limit
  {
    if limit > 0 && FrontExpired(c.assignQ, now, cfg.sidExpireTime)
    then ExpireAssigned(cfg, EvictOne(c), now, limit - 1)
    else c
  }

  /** Pops the oldest entry of the no-short-id queue; its content goes unless a short id has arrived. */
  function PopUnassigned(c: Cache): (r: Cache)
    requires c.noSidQ.order != []
    ensures SameAlarms(c, r)
    ensures c.noSidQ.Valid() ==> r.noSidQ.Valid()
  {
    RemoveByKey(c.(noSidQ := c.noSidQ.DropFirst()), c.noSidQ.order[0], true, true)
  }

  /** Pops the oldest entry of the no-content queue; its short ids go unless a content has arrived. */
  function PopEmpty(c: Cache): (r: Cache)
    requires c.noContentQ.order != []
    ensures SameAlarms(c, r)
    ensures c.noContentQ.Valid() ==> r.noContentQ.Valid()
  {
    RemoveSidsOfKey(c.(noContentQ := c.noContentQ.DropFirst()), c.noContentQ.order[0])
  }

  function ExpireUnassigned(c: Cache, now: int, limit: nat): (r: Cache)
    requires c.noSidQ.Valid()
    ensures r.noSidQ.Valid()
    ensures SameAlarms(c, r)
    decreases limit
  {
    if limit > 0 && FrontExpired(c.noSidQ, now, TX_CONTENT_NO_SID_EXPIRE_S)
    then ExpireUnassigned(PopUnassigned(c), now, limit - 1)
    else c
  }

  function ExpireEmpty(c: Cache, now: int, limit: nat): (r: Cache)
    requires c.noContentQ.Valid()
    ensures r.noContentQ.Valid()
    ensures SameAlarms(c, r)
    decreases limit
  {
    if limit > 0 && FrontExpired(c.noContentQ, now, TX_CONTENT_NO_SID_EXPIRE_S)
    then ExpireEmpty(PopEmpty(c), now, limit - 1)
    else c
  }

  /** The delay an expiry task returns: zero once its queue is empty, else at least the minimal interval. */
  function NextDelay<K(!new)>(q: OrderedDict<K, int>, now: int, ttl: int): (delay: int)
    requires q.Valid()
    ensures delay > 0 <==> q.order != []
  {
    if q.order == [] then 0
    else
      var left := q.vals[q.order[0]] + ttl - now;
      if left > MIN_CLEAN_UP_EXPIRED_TXS_TASK_INTERVAL_S then left else MIN_CLEAN_UP_EXPIRED_TXS_TASK_INTERVAL_S
  }

  /** Clears the flag of a task whose delay is zero. */
  function Unflag(c: Cache, t: Task, delay: int): Cache {
    if delay > 0 then c else c.(flagged := c.flagged - {t})
  }

  /** One call of an expiry method: the new cache and the delay it returns. */
  function Expire(cfg: Config, c: Cache, t: Task, now: int): (Cache, int)
    requires QueuesValid(c)
  {
    match t
    case ExpireAssignments =>
      var e := ExpireAssigned(cfg, c, now, MAX_EXPIRED_TXS_TO_REMOVE);
      var delay := NextDelay(e.assignQ, now, cfg.sidExpireTime);
      (Unflag(e, t, delay), delay)
    case ExpireContent =>
      var e := ExpireUnassigned(c, now, MAX_EXPIRED_TXS_TO_REMOVE);
      var delay := NextDelay(e.noSidQ, now, TX_CONTENT_NO_SID_EXPIRE_S);
      (Unflag(e, t, delay), delay)
    case ExpireSids =>
      var e := ExpireEmpty(c, now, MAX_EXPIRED_TXS_TO_REMOVE);
      var delay := NextDelay(e.noContentQ, now, TX_CONTENT_NO_SID_EXPIRE_S);
      (Unflag(e, t, delay), delay)
  }

  /** The alarm queue fires a pending task and re-queues it when it returns a positive delay. */
  function Fire(cfg: Config, c: Cache, t: Task, now: int): Cache
    requires QueuesValid(c)
  {
    if t !in c.scheduled then c
    else
      var (e, delay) := Expire(cfg, c, t, now);
      if delay > 0 then e else e.(scheduled := e.scheduled - multiset{t})
  }

  // ----- Blocks -----

  function RetireAll(c: Cache, sids: seq<Sid>): (r: Cache)
    ensures SameAlarms(c, r)
    decreases |sids|
  {
    if sids == [] then c else RetireAll(RemoveBySid(c, sids[0], true, true), sids[1..])
  }

  function Track(cfg: Config, c: Cache, block: Block, sids: seq<Sid>): Cache
    requires c.seen.Valid()
  {
    var c1 := c.(seen := c.seen.Set(block, sids));
    if |c1.seen.order| >= cfg.confirmations then
      assert block in c1.seen.order;
      RetireAll(c1.(seen := c1.seen.DropFirst()), c1.seen.vals[c1.seen.order[0]])
    else c1
  }

  function BlockCleaned(c: Cache, block: Block): Cache {
    c.(seen := c.seen.Delete(block))
  }

  // ----- Removing one transaction -----

  lemma DropIndex(c: Cache, key: Key)
    requires Index(c)
    ensures Index(DropTransaction(c, key))
  {
    var r := DropTransaction(c, key);
    forall s | s in r.sidTx ensures r.sidTx[s] in r.txSids && s in r.txSids[r.sidTx[s]] {
      assert s in c.sidTx;
    }
    forall k, s | k in r.txSids && s in r.txSids[k] ensures s in r.sidTx && r.sidTx[s] == k {
      assert k in c.txSids && s in c.txSids[k] && c.sidTx[s] == k;
      assert s !in SidsOf(c, key);
    }
  }

  lemma DropAccounted(c: Cache, key: Key)
    requires Accounted(c)
    ensures Accounted(DropTransaction(c, key)) && DropTransaction(c, key).total <= c.total
  {
    if key in c.contents {
      TotalLenSplit(c.contents, key);
    }
  }

  lemma DropKeeps(c: Cache, key: Key)
    requires Index(c) && QueuesValid(c) && Accounted(c) && NoLeak(c) && Alarmed(c)
    requires c.assignQ.vals.Keys - SidsOf(c, key) == c.sidTx.Keys - SidsOf(c, key)
    ensures Sound(DropTransaction(c, key)) && DropTransaction(c, key).total <= c.total
  {
    DropIndex(c, key);
    DropAccounted(c, key);
    var r := DropTransaction(c, key);
    assert r.assignQ.vals.Keys == c.assignQ.vals.Keys - SidsOf(c, key);
    assert r.sidTx.Keys == c.sidTx.Keys - SidsOf(c, key);
    assert NoLeak(r);
    assert Alarmed(r);
  }

  lemma Singleton<T>(s: set<T>, x: T)
    requires x in s
    ensures |s| == 1 <==> s == {x}
  {
    if |s| == 1 {
      assert |s - {x}| == 0;
    }
  }

  /** Taking one of several short ids off a transaction. */
  lemma TakeOneIndex(c: Cache, sid: Sid)
    requires Index(c) && sid in c.sidTx && SidsOf(c, c.sidTx[sid]) != {sid}
    ensures var key := c.sidTx[sid];
            Index(c.(sidTx := c.sidTx - {sid}, txSids := c.txSids[key := SidsOf(c, key) - {sid}]))
  {
    var key := c.sidTx[sid];
    var r := c.(sidTx := c.sidTx - {sid}, txSids := c.txSids[key := SidsOf(c, key) - {sid}]);
    forall s | s in r.sidTx ensures r.sidTx[s] in r.txSids && s in r.txSids[r.sidTx[s]] {
      assert s in c.sidTx;
    }
    forall k, s | k in r.txSids && s in r.txSids[k] ensures s in r.sidTx && r.sidTx[s] == k {
      assert k in c.txSids && s in c.txSids[k];
    }
  }

  /** Sound, except that the assignment queue may hold `sid` or not. */
  ghost predicate SoundBut(c: Cache, sid: Sid) {
    && Index(c) && QueuesValid(c) && Accounted(c) && NoLeak(c) && Alarmed(c)
    && c.assignQ.vals.Keys - {sid} == c.sidTx.Keys - {sid}
  }

  lemma DeleteSid(c: Cache, sid: Sid)
    requires SoundBut(c, sid)
    ensures SoundBut(c.(assignQ := c.assignQ.Delete(sid)), sid)
  {
    var d := c.(assignQ := c.assignQ.Delete(sid));
    assert d.assignQ.vals.Keys == c.assignQ.vals.Keys - {sid};
    if d.assignQ.order != [] {
      assert d.assignQ.order[0] in c.assignQ.order;
    }
  }

  lemma RemoveBySidSound(c: Cache, sid: Sid, related: bool, force: bool)
    requires SoundBut(c, sid)
    requires sid in c.sidTx ==> !Protected(c, c.sidTx[sid], force) || AssignedExact(c)
    ensures Sound(RemoveBySid(c, sid, related, force))
    ensures RemoveBySid(c, sid, related, force).total <= c.total
  {
    DeleteSid(c, sid);
    var d := c.(assignQ := c.assignQ.Delete(sid));
    if sid in c.sidTx && !Protected(c, c.sidTx[sid], force) {
      var key := c.sidTx[sid];
      Singleton(SidsOf(c, key), sid);
      if SidsOf(c, key) == {sid} || related {
        DropKeeps(d, key);
      } else {
        TakeOneIndex(d, sid);
      }
    }
  }

  lemma EvictOneKeeps(c: Cache)
    requires Sound(c) && c.assignQ.order != []
    ensures Sound(EvictOne(c)) && EvictOne(c).total <= c.total
  {
    var sid := c.assignQ.order[0];
    assert sid in c.assignQ.vals.Keys;
    RemoveBySidSound(c.(assignQ := c.assignQ.DropFirst()), sid, false, true);
  }
}
