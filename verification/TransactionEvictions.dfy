/**
 What a whole eviction or expiry loop leaves behind, said without the loop: the cache without its n
 oldest short ids. A content goes only with the last short id of its transaction.
 */
module TransactionEvictions {
  import opened OrderedDicts
  import opened TransactionCache
  import opened ExpirationQueues

  // ----- Taking a set of short ids out of the maps -----

  /** All short ids of the transaction are in `gone`. */
  predicate Orphaned(txSids: map<Key, set<Sid>>, key: Key, gone: set<Sid>) {
    key in txSids && txSids[key] <= gone
  }

  function LeftSids(txSids: map<Key, set<Sid>>, gone: set<Sid>): map<Key, set<Sid>> {
    map k | k in txSids && !Orphaned(txSids, k, gone) :: txSids[k] - gone
  }

  function LeftContents(contents: map<Key, Bytes>, txSids: map<Key, set<Sid>>, gone: set<Sid>): map<Key, Bytes> {
    map k | k in contents && !Orphaned(txSids, k, gone) :: contents[k]
  }

  lemma LeftNone(sidTx: map<Sid, Key>, txSids: map<Key, set<Sid>>, contents: map<Key, Bytes>)
    requires Inverse(sidTx, txSids)
    ensures LeftSids(txSids, {}) == txSids && LeftContents(contents, txSids, {}) == contents
  {
    forall k ensures !Orphaned(txSids, k, {}) {
      if k in txSids {
        var s :| s in txSids[k];
        assert txSids[k] - {} == txSids[k];
      }
    }
    assert LeftSids(txSids, {}).Keys == txSids.Keys;
    assert forall k :: k in txSids ==> LeftSids(txSids, {})[k] == txSids[k] - {} == txSids[k];
  }

  lemma LeftTwice(txSids: map<Key, set<Sid>>, contents: map<Key, Bytes>, a: set<Sid>, b: set<Sid>)
    ensures LeftSids(LeftSids(txSids, a), b) == LeftSids(txSids, a + b)
    ensures LeftContents(LeftContents(contents, txSids, a), LeftSids(txSids, a), b)
            == LeftContents(contents, txSids, a + b)
  {
    forall k | k in LeftSids(txSids, a) ensures Orphaned(LeftSids(txSids, a), k, b) <==> Orphaned(txSids, k, a + b) {
      assert LeftSids(txSids, a)[k] == txSids[k] - a;
      if txSids[k] - a <= b {
        forall s | s in txSids[k] ensures s in a + b {
          assert s in txSids[k] - a || s in a;
        }
      } else {
        var s :| s in txSids[k] - a && s !in b;
        assert s in txSids[k];
      }
    }
    forall k | Orphaned(txSids, k, a) ensures Orphaned(txSids, k, a + b) {
    }
    assert forall k :: k in txSids ==> txSids[k] - a - b == txSids[k] - (a + b);
  }

  lemma LeftOne(sidTx: map<Sid, Key>, txSids: map<Key, set<Sid>>, contents: map<Key, Bytes>, sid: Sid)
    requires Inverse(sidTx, txSids) && sid in sidTx
    ensures var key := sidTx[sid];
            if txSids[key] == {sid}
            then LeftSids(txSids, {sid}) == txSids - {key} && LeftContents(contents, txSids, {sid}) == contents - {key}
            else LeftSids(txSids, {sid}) == txSids[key := txSids[key] - {sid}]
                 && LeftContents(contents, txSids, {sid}) == contents
  {
    var key := sidTx[sid];
    forall k | k in txSids && k != key ensures !Orphaned(txSids, k, {sid}) && txSids[k] - {sid} == txSids[k] {
      var s :| s in txSids[k];
      assert sidTx[s] == k;
      assert sid !in txSids[k];
    }
    assert Orphaned(txSids, key, {sid}) <==> txSids[key] == {sid};
  }

  // ----- The n oldest short ids -----

  ghost function Oldest(c: Cache, n: nat): set<Sid>
    requires n <= |c.assignQ.order|
  {
    SetOf(c.assignQ.order[..n])
  }

  /** The cache without the n short ids assigned longest ago. */
  ghost function DropOldest(c: Cache, n: nat): Cache
    requires n <= |c.assignQ.order|
  {
    var gone := Oldest(c, n);
    var contents := LeftContents(c.contents, c.txSids, gone);
    c.(sidTx := c.sidTx - gone,
       txSids := LeftSids(c.txSids, gone),
       contents := contents,
       total := TotalLen(contents),
       assignQ := OrderedDict(c.assignQ.order[n..], c.assignQ.vals - gone))
  }

  lemma DropNone(c: Cache)
    requires Sound(c)
    ensures DropOldest(c, 0) == c
  {
    assert Oldest(c, 0) == {};
    assert c.assignQ.order[0..] == c.assignQ.order;
    MinusNothing(c.sidTx);
    MinusNothing(c.assignQ.vals);
    LeftNone(c.sidTx, c.txSids, c.contents);
  }

  /** The state left when the oldest short id is one of several. */
  lemma EvictSibling(c: Cache, sid: Sid, key: Key)
    requires Sound(c) && c.assignQ.order != [] && sid == c.assignQ.order[0]
    requires sid in c.sidTx && c.sidTx[sid] == key && c.txSids[key] != {sid}
    ensures EvictOne(c) == c.(sidTx := c.sidTx - {sid}, txSids := c.txSids[key := c.txSids[key] - {sid}],
                              assignQ := c.assignQ.DropFirst())
  {
    DeleteAbsent(c.assignQ.DropFirst(), {sid});
    Singleton(c.txSids[key], sid);
  }

  /** The state left when it is the last one of its transaction. */
  lemma EvictLast(c: Cache, sid: Sid, key: Key)
    requires Sound(c) && c.assignQ.order != [] && sid == c.assignQ.order[0]
    requires sid in c.sidTx && c.sidTx[sid] == key && c.txSids[key] == {sid}
    ensures EvictOne(c) == DropContents(c.(sidTx := c.sidTx - {sid}, txSids := c.txSids - {key},
                                           assignQ := c.assignQ.DropFirst()), key)
  {
    DeleteAbsent(c.assignQ.DropFirst(), {sid});
    Singleton(c.txSids[key], sid);
  }

  lemma DropContentsIs(c: Cache, key: Key)
    requires Accounted(c)
    ensures DropContents(c, key) == c.(contents := c.contents - {key}, total := TotalLen(c.contents - {key}))
  {
    if key in c.contents {
      TotalLenSplit(c.contents, key);
    } else {
      assert c.contents - {key} == c.contents;
    }
  }

  lemma DropFirstIs(c: Cache, sid: Sid)
    requires c.assignQ.order != [] && sid == c.assignQ.order[0]
    ensures Oldest(c, 1) == {sid}
    ensures c.assignQ.DropFirst() == OrderedDict(c.assignQ.order[1..], c.assignQ.vals - {sid})
  {
    assert c.assignQ.order[..1] == [sid];
  }

  lemma EvictOneIsDropOldest(c: Cache)
    requires Sound(c) && c.assignQ.order != []
    ensures EvictOne(c) == DropOldest(c, 1)
  {
    var sid := c.assignQ.order[0];
    assert sid in c.assignQ.vals.Keys;
    var key := c.sidTx[sid];
    DropFirstIs(c, sid);
    LeftOne(c.sidTx, c.txSids, c.contents, sid);
    if c.txSids[key] == {sid} {
      EvictLast(c, sid, key);
      DropContentsIs(c.(sidTx := c.sidTx - {sid}, txSids := c.txSids - {key}, assignQ := c.assignQ.DropFirst()), key);
    } else {
      EvictSibling(c, sid, key);
    }
  }

  lemma DropOldestOnce(c: Cache, n: nat)
    requires n < |c.assignQ.order|
    ensures DropOldest(DropOldest(c, n), 1) == DropOldest(c, n + 1)
  {
    var d := DropOldest(c, n);
    var sid := c.assignQ.order[n];
    assert c.assignQ.order[..n + 1] == c.assignQ.order[..n] + [sid];
    assert d.assignQ.order[0] == sid;
    assert Oldest(d, 1) == {sid};
    assert Oldest(c, n + 1) == Oldest(c, n) + {sid};
    LeftTwice(c.txSids, c.contents, Oldest(c, n), {sid});
    assert c.sidTx - Oldest(c, n) - {sid} == c.sidTx - Oldest(c, n + 1);
    assert c.assignQ.vals - Oldest(c, n) - {sid} == c.assignQ.vals - Oldest(c, n + 1);
  }

  lemma {:induction false} DropOldestSound(c: Cache, n: nat)
    requires Sound(c) && n <= |c.assignQ.order|
    ensures Sound(DropOldest(c, n)) && DropOldest(c, n).total <= c.total
  {
    if n == 0 {
      DropNone(c);
    } else {
      DropOldestSound(c, n - 1);
      var d := DropOldest(c, n - 1);
      EvictOneKeeps(d);
      EvictOneIsDropOldest(d);
      DropOldestOnce(c, n - 1);
    }
  }

  // ----- Memory clean-up -----

  /** The first n' >= n at which the contents fit or no short id is left. */
  ghost function FirstFit(cfg: Config, c: Cache, n: nat): (m: nat)
    requires n <= |c.assignQ.order|
    ensures n <= m <= |c.assignQ.order|
    ensures forall j :: n <= j < m ==> Exceeds(cfg, DropOldest(c, j))
    ensures Exceeds(cfg, DropOldest(c, m)) ==> m == |c.assignQ.order|
    decreases |c.assignQ.order| - n
  {
    if n < |c.assignQ.order| && Exceeds(cfg, DropOldest(c, n)) then FirstFit(cfg, c, n + 1) else n
  }

  lemma {:induction false} EvictLoopFrom(cfg: Config, c: Cache, n: nat)
    requires Sound(c) && n <= |c.assignQ.order|
    ensures EvictWhileExceeding(cfg, DropOldest(c, n)) == DropOldest(c, FirstFit(cfg, c, n))
    decreases |c.assignQ.order| - n
  {
    var d := DropOldest(c, n);
    if Exceeds(cfg, d) && d.assignQ.order != [] {
      DropOldestSound(c, n);
      EvictOneIsDropOldest(d);
      DropOldestOnce(c, n);
      EvictLoopFrom(cfg, c, n + 1);
    }
  }

  /**
   The memory clean-up evicts oldest short ids first and not one more than needed; only when evicting
   all of them is not enough is the whole cache cleared.
   */
  lemma CleanUpEvictsFewestOldest(cfg: Config, c: Cache) returns (m: nat)
    requires Sound(c)
    ensures m <= |c.assignQ.order|
    ensures forall j :: 0 <= j < m ==> Exceeds(cfg, DropOldest(c, j))
    ensures Exceeds(cfg, DropOldest(c, m)) ==> m == |c.assignQ.order|
    ensures CleanUpMemory(cfg, c) == if Exceeds(cfg, DropOldest(c, m)) then Clear(c) else DropOldest(c, m)
  {
    DropNone(c);
    EvictLoopFrom(cfg, c, 0);
    m := FirstFit(cfg, c, 0);
  }

  /** A content is evicted exactly when every short id of its transaction is evicted with it. */
  lemma ContentGoesWithLastSid(c: Cache, n: nat, key: Key)
    requires Sound(c) && n <= |c.assignQ.order| && key in c.contents
    ensures key in DropOldest(c, n).contents <==>
            key !in c.txSids || exists s :: s in c.txSids[key] && s in DropOldest(c, n).sidTx
  {
    var d := DropOldest(c, n);
    if key in c.txSids {
      if key in d.contents {
        var s :| s in c.txSids[key] && s !in Oldest(c, n);
        assert s in d.sidTx;
      } else {
        assert forall s :: s in c.txSids[key] ==> s !in d.sidTx;
      }
    }
  }

  // ----- Expiry of the assignment queue -----

  lemma ExpireAssignedStep(cfg: Config, c: Cache, d: Cache, now: int, limit: nat)
    requires c.assignQ.Valid() && limit > 0 && FrontExpired(c.assignQ, now, cfg.sidExpireTime) && EvictOne(c) == d
    ensures d.assignQ.Valid() && ExpireAssigned(cfg, c, now, limit) == ExpireAssigned(cfg, d, now, limit - 1)
  {
  }

  lemma DropOldestAgain(c: Cache, n: nat)
    requires n < |c.assignQ.order|
    ensures DropOldest(DropOldest(c, 1), n) == DropOldest(c, n + 1)
  {
    var d := DropOldest(c, 1);
    assert c.assignQ.order[..n + 1] == c.assignQ.order[..1] + d.assignQ.order[..n];
    assert Oldest(c, n + 1) == Oldest(c, 1) + Oldest(d, n);
    LeftTwice(c.txSids, c.contents, Oldest(c, 1), Oldest(d, n));
    assert c.sidTx - Oldest(c, 1) - Oldest(d, n) == c.sidTx - Oldest(c, n + 1);
    assert c.assignQ.vals - Oldest(c, 1) - Oldest(d, n) == c.assignQ.vals - Oldest(c, n + 1);
    assert d.assignQ.order[n..] == c.assignQ.order[n + 1..];
  }

  ghost predicate DropsOldPrefix(cfg: Config, c: Cache, now: int, limit: nat)
    requires c.assignQ.Valid()
  {
    ExpireAssigned(cfg, c, now, limit) == DropOldest(c, ExpiryStop(c.assignQ, now, cfg.sidExpireTime, 0, limit))
  }

  lemma ExpiryEnds(cfg: Config, c: Cache, now: int, limit: nat)
    requires Sound(c) && !(limit > 0 && FrontExpired(c.assignQ, now, cfg.sidExpireTime))
    ensures DropsOldPrefix(cfg, c, now, limit)
  {
    DropNone(c);
  }

  lemma ExpiryGoesOn(cfg: Config, c: Cache, d: Cache, now: int, limit: nat)
    requires Sound(c) && limit > 0 && FrontExpired(c.assignQ, now, cfg.sidExpireTime) && d == EvictOne(c)
    requires DropsOldPrefix(cfg, d, now, limit - 1)
    ensures DropsOldPrefix(cfg, c, now, limit)
  {
    var m := ExpiryStop(d.assignQ, now, cfg.sidExpireTime, 0, limit - 1);
    EvictOneIsDropOldest(c);
    DropFirstIs(c, c.assignQ.order[0]);
    ExpireAssignedStep(cfg, c, d, now, limit);
    StopBehindFirst(c.assignQ, d.assignQ, now, cfg.sidExpireTime, limit, m);
    DropOldestAgain(c, m);
  }

  lemma {:induction false} ExpiryByTurns(cfg: Config, c: Cache, now: int, limit: nat)
    requires Sound(c)
    ensures DropsOldPrefix(cfg, c, now, limit)
    decreases limit
  {
    if limit > 0 && FrontExpired(c.assignQ, now, cfg.sidExpireTime) {
      EvictOneKeeps(c);
      ExpiryByTurns(cfg, EvictOne(c), now, limit - 1);
      ExpiryGoesOn(cfg, c, EvictOne(c), now, limit);
    } else {
      ExpiryEnds(cfg, c, now, limit);
    }
  }

  /** Expiring assignments removes exactly the leading run of old entries, at most 500 of them. */
  lemma ExpiryDropsOldPrefix(cfg: Config, c: Cache, now: int, limit: nat)
    requires Sound(c)
    ensures ExpireAssigned(cfg, c, now, limit)
            == DropOldest(c, ExpiryStop(c.assignQ, now, cfg.sidExpireTime, 0, limit))
  {
    ExpiryByTurns(cfg, c, now, limit);
  }

  // ----- Removing whole transactions -----

  function SidsOfAny(c: Cache, keys: set<Key>): set<Sid> {
    set s | s in c.sidTx && c.sidTx[s] in keys
  }

  /** The cache without the given transactions: no short id, no content, no assignment entry of theirs is left. */
  ghost function WithoutTxs(c: Cache, keys: set<Key>): Cache {
    c.(sidTx := c.sidTx - SidsOfAny(c, keys),
       txSids := c.txSids - keys,
       contents := c.contents - keys,
       total := TotalLen(c.contents - keys),
       assignQ := c.assignQ.DeleteAll(SidsOfAny(c, keys)))
  }

  lemma MinusNothing<K(!new), V>(m: map<K, V>)
    ensures m - {} == m
  {
  }

  lemma MinusMore<K(!new), V>(m: map<K, V>, a: set<K>, b: set<K>)
    ensures m - a - b == m - (a + b)
  {
  }

  lemma WithoutNone(c: Cache)
    requires c.assignQ.Valid() && Accounted(c)
    ensures WithoutTxs(c, {}) == c
  {
    assert SidsOfAny(c, {}) == {};
    DeleteAbsent(c.assignQ, {});
    MinusNothing(c.contents);
    MinusNothing(c.txSids);
    MinusNothing(c.sidTx);
  }

  lemma WithoutTwice(c: Cache, a: set<Key>, b: set<Key>)
    ensures WithoutTxs(WithoutTxs(c, a), b) == WithoutTxs(c, a + b)
  {
    var d := WithoutTxs(c, a);
    assert SidsOfAny(c, a) + SidsOfAny(d, b) == SidsOfAny(c, a + b);
    DeleteTwice(c.assignQ, SidsOfAny(c, a), SidsOfAny(d, b));
    assert c.contents - a - b == c.contents - (a + b) && c.txSids - a - b == c.txSids - (a + b);
    assert d.sidTx - SidsOfAny(d, b) == c.sidTx - SidsOfAny(c, a + b);
  }

  lemma DropIsWithout(c: Cache, key: Key)
    requires Sound(c) && key in c.txSids
    ensures DropTransaction(c, key) == WithoutTxs(c, {key})
  {
    assert SidsOfAny(c, {key}) == c.txSids[key];
    if key in c.contents {
      TotalLenSplit(c.contents, key);
    } else {
      assert c.contents - {key} == c.contents;
    }
  }

  function TxOf(c: Cache, sid: Sid): set<Key> {
    if sid in c.sidTx then {c.sidTx[sid]} else {}
  }

  lemma RemoveRelatedIsDrop(c: Cache, sid: Sid, key: Key)
    requires Sound(c) && sid in c.sidTx && c.sidTx[sid] == key
    ensures RemoveBySid(c, sid, true, true) == DropTransaction(c, key)
  {
    var d := c.(assignQ := c.assignQ.Delete(sid));
    assert RemoveBySid(c, sid, true, true) == DropTransaction(d, key);
    assert {sid} + SidsOf(c, key) == SidsOf(c, key);
    DeleteTwice(c.assignQ, {sid}, SidsOf(c, key));
    assert d.assignQ.DeleteAll(SidsOf(d, key)) == c.assignQ.DeleteAll(SidsOf(c, key));
  }

  /** Removing by one short id with its related ones removes its whole transaction, and nothing else. */
  lemma RemoveRelatedIsWithout(c: Cache, sid: Sid)
    requires Sound(c)
    ensures RemoveBySid(c, sid, true, true) == WithoutTxs(c, TxOf(c, sid))
  {
    if sid in c.sidTx {
      RemoveRelatedIsDrop(c, sid, c.sidTx[sid]);
      DropIsWithout(c, c.sidTx[sid]);
    } else {
      assert sid !in c.assignQ.vals.Keys;
      DeleteAbsent(c.assignQ, {sid});
      WithoutNone(c);
    }
  }

  function TxsOf(c: Cache, sids: seq<Sid>): set<Key> {
    set s | s in sids && s in c.sidTx :: c.sidTx[s]
  }

  lemma TxsOfFirst(c: Cache, sids: seq<Sid>)
    requires sids != []
    ensures var first := TxOf(c, sids[0]);
            first + TxsOf(WithoutTxs(c, first), sids[1..]) == TxsOf(c, sids)
  {
    var first := TxOf(c, sids[0]);
    var d := WithoutTxs(c, first);
    assert sids == [sids[0]] + sids[1..];
    forall k | k in TxsOf(c, sids) ensures k in first + TxsOf(d, sids[1..]) {
      var s :| s in sids && s in c.sidTx && c.sidTx[s] == k;
      assert k in first || s in d.sidTx;
    }
  }

  lemma RetireFirst(c: Cache, sids: seq<Sid>) returns (d: Cache)
    requires Sound(c) && sids != []
    ensures Sound(d) && d == WithoutTxs(c, TxOf(c, sids[0])) && RetireAll(c, sids) == RetireAll(d, sids[1..])
  {
    d := RemoveBySid(c, sids[0], true, true);
    RemoveRelatedIsWithout(c, sids[0]);
    RemoveBySidSound(c, sids[0], true, true);
  }

  /** Retiring a block removes every transaction it named completely, and only those. */
  lemma {:induction false} RetireAllIsWithout(c: Cache, sids: seq<Sid>)
    requires Sound(c)
    ensures RetireAll(c, sids) == WithoutTxs(c, TxsOf(c, sids))
    decreases |sids|
  {
    if sids == [] {
      assert TxsOf(c, sids) == {};
      WithoutNone(c);
    } else {
      var d := RetireFirst(c, sids);
      RetireAllIsWithout(d, sids[1..]);
      TxsOfFirst(c, sids);
      WithoutTwice(c, TxOf(c, sids[0]), TxsOf(d, sids[1..]));
    }
  }

  // ----- Expiry of the two waiting queues -----

  lemma MinusAbsent<K(!new), V>(m: map<K, V>, k: K)
    requires k !in m
    ensures m - {k} == m
  {
  }

  function DropQueue<K(!new)>(q: OrderedDict<K, int>, n: nat): OrderedDict<K, int>
    requires n <= |q.order|
  {
    OrderedDict(q.order[n..], q.vals - SetOf(q.order[..n]))
  }

  lemma DropQueueOnce<K(!new)>(q: OrderedDict<K, int>, n: nat)
    requires n < |q.order|
    ensures DropQueue(q, n).order != [] && DropQueue(q, n).order[0] == q.order[n]
    ensures DropQueue(q, n).DropFirst() == DropQueue(q, n + 1)
    ensures SetOf(q.order[..n + 1]) == SetOf(q.order[..n]) + {q.order[n]}
  {
    assert q.order[..n + 1] == q.order[..n] + [q.order[n]];
    assert SetOf(q.order[..n + 1]) == SetOf(q.order[..n]) + {q.order[n]};
    MinusMore(q.vals, SetOf(q.order[..n]), {q.order[n]});
    assert q.order[n..][1..] == q.order[n + 1..];
  }

  lemma DropQueueValid<K(!new)>(q: OrderedDict<K, int>, n: nat)
    requires q.Valid() && n <= |q.order|
    ensures DropQueue(q, n).Valid()
  {
    forall k ensures k in q.order[n..] <==> k in q.vals - SetOf(q.order[..n]) {
      if k in q.vals {
        var i :| 0 <= i < |q.order| && q.order[i] == k;
        assert if i < n then k == q.order[..n][i] else k == q.order[n..][i - n];
      }
    }
  }

  lemma DropQueueFront<K(!new)>(q: OrderedDict<K, int>, n: nat, now: int, ttl: int)
    requires q.Valid() && n <= |q.order| && DropQueue(q, n).Valid()
    ensures FrontExpired(DropQueue(q, n), now, ttl) <==> n < |q.order| && Old(q, n, now, ttl)
  {
    if n < |q.order| {
      DropQueueOnce(q, n);
      assert q.order[n] in DropQueue(q, n).order;
    }
  }

  lemma DropQueueNone<K(!new)>(q: OrderedDict<K, int>)
    ensures DropQueue(q, 0) == q && SetOf(q.order[..0]) == {}
  {
    MinusNothing(q.vals);
  }

  /** Content expiry at its n-th entry: the contents of the first n that still have no short id are gone. */
  ghost function DropUnassigned(c: Cache, n: nat): Cache
    requires n <= |c.noSidQ.order|
  {
    var contents := c.contents - (SetOf(c.noSidQ.order[..n]) - c.txSids.Keys);
    c.(contents := contents, total := TotalLen(contents), noSidQ := DropQueue(c.noSidQ, n))
  }

  lemma DropUnassignedOnce(c: Cache, n: nat)
    requires Index(c) && c.noSidQ.Valid() && n < |c.noSidQ.order|
    ensures DropUnassigned(c, n).noSidQ.order != []
    ensures PopUnassigned(DropUnassigned(c, n)) == DropUnassigned(c, n + 1)
  {
    var d := DropUnassigned(c, n);
    var key := c.noSidQ.order[n];
    var gone := SetOf(c.noSidQ.order[..n]);
    DropQueueOnce(c.noSidQ, n);
    if key in c.txSids {
      assert gone + {key} - c.txSids.Keys == gone - c.txSids.Keys;
    } else {
      assert gone + {key} - c.txSids.Keys == gone - c.txSids.Keys + {key};
      MinusMore(c.contents, gone - c.txSids.Keys, {key});
      if key in d.contents {
        TotalLenSplit(d.contents, key);
      } else {
        MinusAbsent(d.contents, key);
      }
    }
  }

  lemma ExpireUnassignedStep(c: Cache, d: Cache, now: int, limit: nat)
    requires c.noSidQ.Valid() && limit > 0 && FrontExpired(c.noSidQ, now, TX_CONTENT_NO_SID_EXPIRE_S)
    requires PopUnassigned(c) == d
    ensures d.noSidQ.Valid() && ExpireUnassigned(c, now, limit) == ExpireUnassigned(d, now, limit - 1)
  {
  }

  lemma {:induction false} ExpireUnassignedAlong(
      q: OrderedDict<Key, int>, at: nat -> Cache, now: int, n: nat, limit: nat)
      returns (m: nat)
    requires q.Valid() && n <= |q.order|
    requires forall i: nat :: i <= |q.order| ==> at(i).noSidQ == DropQueue(q, i) && at(i).noSidQ.Valid()
    requires forall i: nat {:trigger PopUnassigned(at(i))} :: i < |q.order| && at(i).noSidQ.order != [] ==>
      PopUnassigned(at(i)) == at(i + 1)
    ensures m == ExpiryStop(q, now, TX_CONTENT_NO_SID_EXPIRE_S, n, limit) && m <= |q.order|
    ensures ExpireUnassigned(at(n), now, limit) == at(m)
    decreases limit
  {
    DropQueueFront(q, n, now, TX_CONTENT_NO_SID_EXPIRE_S);
    if limit > 0 && n < |q.order| && Old(q, n, now, TX_CONTENT_NO_SID_EXPIRE_S) {
      m := ExpireUnassignedAlong(q, at, now, n + 1, limit - 1);
      ExpireUnassignedStep(at(n), at(n + 1), now, limit);
    } else {
      m := n;
    }
  }

  ghost function UnassignedDropped(c: Cache): nat -> Cache {
    (n: nat) => if n <= |c.noSidQ.order| then DropUnassigned(c, n) else c
  }

  /** Content expiry removes the contents of the leading old entries that still lack a short id, and no other. */
  lemma ContentExpiryRemovesExactly(c: Cache, now: int, limit: nat)
    requires Sound(c)
    ensures ExpireUnassigned(c, now, limit)
            == DropUnassigned(c, ExpiryStop(c.noSidQ, now, TX_CONTENT_NO_SID_EXPIRE_S, 0, limit))
  {
    DropQueueNone(c.noSidQ);
    MinusNothing(c.contents);
    assert c.contents - ({} - c.txSids.Keys) == c.contents;
    var q, at := c.noSidQ, UnassignedDropped(c);
    forall n: nat | n <= |q.order| ensures at(n).noSidQ == DropQueue(q, n) && at(n).noSidQ.Valid() {
      DropQueueValid(q, n);
    }
    forall n: nat {:trigger PopUnassigned(at(n))} | n < |q.order| && at(n).noSidQ.order != []
      ensures PopUnassigned(at(n)) == at(n + 1)
    {
      DropUnassignedOnce(c, n);
    }
    var m := ExpireUnassignedAlong(q, at, now, 0, limit);
    assert at(m) == DropUnassigned(c, m);
  }

  /** Short-id expiry at its n-th entry: the transactions among the first n that still have no content are gone. */
  ghost function DropEmpty(c: Cache, n: nat): Cache
    requires n <= |c.noContentQ.order|
  {
    var keys := SetOf(c.noContentQ.order[..n]) - c.contents.Keys;
    c.(sidTx := c.sidTx - SidsOfAny(c, keys),
       txSids := c.txSids - keys,
       assignQ := c.assignQ.DeleteAll(SidsOfAny(c, keys)),
       noContentQ := DropQueue(c.noContentQ, n))
  }

  lemma SidsOfOneMore(c: Cache, keys: set<Key>, key: Key)
    requires Index(c)
    ensures SidsOfAny(c, keys + {key}) == SidsOfAny(c, keys) + SidsOf(c, key)
  {
    forall s ensures s in SidsOf(c, key) <==> s in c.sidTx && c.sidTx[s] == key {
    }
  }

  lemma DropEmptyOnce(c: Cache, n: nat)
    requires Index(c) && n < |c.noContentQ.order|
    ensures DropEmpty(c, n).noContentQ.order != []
    ensures PopEmpty(DropEmpty(c, n)) == DropEmpty(c, n + 1)
  {
    var key := c.noContentQ.order[n];
    var gone := SetOf(c.noContentQ.order[..n]);
    DropQueueOnce(c.noContentQ, n);
    if key in c.contents {
      assert gone + {key} - c.contents.Keys == gone - c.contents.Keys;
    } else {
      var keys := gone - c.contents.Keys;
      assert gone + {key} - c.contents.Keys == keys + {key};
      if key in DropEmpty(c, n).txSids {
        DropEmptyNew(c, n, keys, key);
      } else {
        DropEmptyAgain(c, keys, key);
      }
    }
  }

  lemma DropEmptyNew(c: Cache, n: nat, keys: set<Key>, key: Key)
    requires Index(c) && key in c.txSids && key !in keys
    ensures c.sidTx - SidsOfAny(c, keys) - c.txSids[key] == c.sidTx - SidsOfAny(c, keys + {key})
    ensures c.txSids - keys - {key} == c.txSids - (keys + {key})
    ensures c.assignQ.DeleteAll(SidsOfAny(c, keys)).DeleteAll(c.txSids[key])
            == c.assignQ.DeleteAll(SidsOfAny(c, keys + {key}))
  {
    SidsOfOneMore(c, keys, key);
    MinusMore(c.sidTx, SidsOfAny(c, keys), c.txSids[key]);
    MinusMore(c.txSids, keys, {key});
    DeleteTwice(c.assignQ, SidsOfAny(c, keys), c.txSids[key]);
  }

  lemma DropEmptyAgain(c: Cache, keys: set<Key>, key: Key)
    requires Index(c) && (key in c.txSids ==> key in keys)
    ensures SidsOfAny(c, keys + {key}) == SidsOfAny(c, keys)
    ensures c.txSids - (keys + {key}) == c.txSids - keys
  {
    SidsOfOneMore(c, keys, key);
  }

  lemma ExpireEmptyStep(c: Cache, d: Cache, now: int, limit: nat)
    requires c.noContentQ.Valid() && limit > 0 && FrontExpired(c.noContentQ, now, TX_CONTENT_NO_SID_EXPIRE_S)
    requires PopEmpty(c) == d
    ensures d.noContentQ.Valid() && ExpireEmpty(c, now, limit) == ExpireEmpty(d, now, limit - 1)
  {
  }

  lemma {:induction false} ExpireEmptyAlong(q: OrderedDict<Key, int>, at: nat -> Cache, now: int, n: nat, limit: nat)
      returns (m: nat)
    requires q.Valid() && n <= |q.order|
    requires forall i: nat :: i <= |q.order| ==> at(i).noContentQ == DropQueue(q, i) && at(i).noContentQ.Valid()
    requires forall i: nat {:trigger PopEmpty(at(i))} :: i < |q.order| && at(i).noContentQ.order != [] ==>
      PopEmpty(at(i)) == at(i + 1)
    ensures m == ExpiryStop(q, now, TX_CONTENT_NO_SID_EXPIRE_S, n, limit) && m <= |q.order|
    ensures ExpireEmpty(at(n), now, limit) == at(m)
    decreases limit
  {
    DropQueueFront(q, n, now, TX_CONTENT_NO_SID_EXPIRE_S);
    if limit > 0 && n < |q.order| && Old(q, n, now, TX_CONTENT_NO_SID_EXPIRE_S) {
      m := ExpireEmptyAlong(q, at, now, n + 1, limit - 1);
      ExpireEmptyStep(at(n), at(n + 1), now, limit);
    } else {
      m := n;
    }
  }

  ghost function EmptyDropped(c: Cache): nat -> Cache {
    (n: nat) => if n <= |c.noContentQ.order| then DropEmpty(c, n) else c
  }

  lemma DropEmptyNone(c: Cache)
    requires c.assignQ.Valid()
    ensures DropEmpty(c, 0) == c
  {
    DropQueueNone(c.noContentQ);
    assert {} - c.contents.Keys == {} && SidsOfAny(c, {}) == {};
    MinusNothing(c.sidTx);
    MinusNothing(c.txSids);
    DeleteAbsent(c.assignQ, {});
  }

  /** Short-id expiry removes the short ids of the leading old entries that still lack a content, and no other. */
  lemma SidExpiryRemovesExactly(c: Cache, now: int, limit: nat)
    requires Sound(c)
    ensures ExpireEmpty(c, now, limit)
            == DropEmpty(c, ExpiryStop(c.noContentQ, now, TX_CONTENT_NO_SID_EXPIRE_S, 0, limit))
  {
    DropEmptyNone(c);
    var q, at := c.noContentQ, EmptyDropped(c);
    forall n: nat | n <= |q.order| ensures at(n).noContentQ == DropQueue(q, n) && at(n).noContentQ.Valid() {
      DropQueueValid(q, n);
    }
    forall n: nat {:trigger PopEmpty(at(n))} | n < |q.order| && at(n).noContentQ.order != []
      ensures PopEmpty(at(n)) == at(n + 1)
    {
      DropEmptyOnce(c, n);
    }
    var m := ExpireEmptyAlong(q, at, now, 0, limit);
    assert at(m) == DropEmpty(c, m);
  }
}
