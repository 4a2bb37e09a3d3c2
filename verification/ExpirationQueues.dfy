/**
 `ExpirationQueue`: an insertion-ordered dictionary from items to the time they were added. Re-adding an
 item renews its time but keeps its place, so the queue need not be ordered by time; expiry looks only
 at the front and stops at the first entry that is not old.
 */
module ExpirationQueues {
  import opened OrderedDicts

  /** The guard of the expiry loop: the oldest entry is older than the time to live. */
  predicate FrontExpired<K(!new)>(q: OrderedDict<K, int>, now: int, ttl: int)
    requires q.Valid()
  {
    q.order != [] && now - q.vals[q.order[0]] > ttl
  }

  predicate Old<K(!new)>(q: OrderedDict<K, int>, i: nat, now: int, ttl: int)
    requires q.Valid() && i < |q.order|
  {
    now - q.vals[q.order[i]] > ttl
  }

  /** Where an expiry loop starting at n with the given limit stops: at the first entry that is not old. */
  function ExpiryStop<K(!new)>(q: OrderedDict<K, int>, now: int, ttl: int, n: nat, limit: nat): (m: nat)
    requires q.Valid() && n <= |q.order|
    ensures n <= m <= |q.order| && m <= n + limit
    ensures forall i :: n <= i < m ==> Old(q, i, now, ttl)
    ensures m < |q.order| && m < n + limit ==> !Old(q, m, now, ttl)
    decreases limit
  {
    if limit > 0 && n < |q.order| && Old(q, n, now, ttl) then ExpiryStop(q, now, ttl, n + 1, limit - 1) else n
  }

  /** The stop is the only place with old entries before it, and an entry that is not old or the limit at it. */
  lemma {:induction false} StopIsOnly<K(!new)>(q: OrderedDict<K, int>, now: int, ttl: int, n: nat, limit: nat, m: nat)
    requires q.Valid() && n <= m <= |q.order| && m <= n + limit
    requires forall i :: n <= i < m ==> Old(q, i, now, ttl)
    requires m < |q.order| && m < n + limit ==> !Old(q, m, now, ttl)
    ensures ExpiryStop(q, now, ttl, n, limit) == m
    decreases limit
  {
    if n < m {
      StopIsOnly(q, now, ttl, n + 1, limit - 1, m);
    }
  }

  /** Once the front entry has expired, the pass goes on in the rest of the queue. */
  lemma StopBehindFirst<K(!new)>(q: OrderedDict<K, int>, rest: OrderedDict<K, int>, now: int, ttl: int, limit: nat,
                                 m: nat)
    requires q.Valid() && FrontExpired(q, now, ttl) && limit > 0 && rest == q.DropFirst() && rest.Valid()
    requires m == ExpiryStop(rest, now, ttl, 0, limit - 1)
    ensures m < |q.order| && ExpiryStop(q, now, ttl, 0, limit) == m + 1
  {
    forall i | 0 <= i < |rest.order| ensures Old(rest, i, now, ttl) <==> Old(q, i + 1, now, ttl) {
    }
    forall i | 0 <= i < m + 1 ensures Old(q, i, now, ttl) {
      assert i > 0 ==> Old(rest, i - 1, now, ttl);
    }
    StopIsOnly(q, now, ttl, 0, limit, m + 1);
  }

  // ----- What one expiry pass misses -----

  /** No old entry stands behind one that is not old. */
  ghost predicate OldInFront<K(!new)>(q: OrderedDict<K, int>, now: int, ttl: int)
    requires q.Valid()
  {
    forall i, j :: 0 <= i < j < |q.order| && Old(q, j, now, ttl) ==> Old(q, i, now, ttl)
  }

  lemma StopCompleteIff<K(!new)>(q: OrderedDict<K, int>, now: int, ttl: int, m: nat, limit: nat)
    requires q.Valid() && m <= |q.order| && m <= limit
    requires forall i :: 0 <= i < m ==> Old(q, i, now, ttl)
    requires m < |q.order| && m < limit ==> !Old(q, m, now, ttl)
    ensures (forall i :: m <= i < |q.order| ==> !Old(q, i, now, ttl))
            <==> OldInFront(q, now, ttl) && (limit < |q.order| ==> !Old(q, limit, now, ttl))
  {
    if OldInFront(q, now, ttl) && (limit < |q.order| ==> !Old(q, limit, now, ttl)) {
      assert m < |q.order| ==> !Old(q, m, now, ttl);
    }
    if forall i :: m <= i < |q.order| ==> !Old(q, i, now, ttl) {
      forall i, j | 0 <= i < j < |q.order| && Old(q, j, now, ttl) ensures Old(q, i, now, ttl) {
        assert j < m;
      }
    }
  }

  /** The pass leaves no old entry behind exactly when none is hidden behind a renewed one and the limit suffices. */
  lemma ExpiryCompleteIff<K(!new)>(q: OrderedDict<K, int>, now: int, ttl: int, limit: nat)
    requires q.Valid()
    ensures (forall i :: ExpiryStop(q, now, ttl, 0, limit) <= i < |q.order| ==> !Old(q, i, now, ttl))
            <==> OldInFront(q, now, ttl) && (limit < |q.order| ==> !Old(q, limit, now, ttl))
  {
    StopCompleteIff(q, now, ttl, ExpiryStop(q, now, ttl, 0, limit), limit);
  }

  /** Entries in the order of their times. */
  ghost predicate ByTime<K(!new)>(q: OrderedDict<K, int>)
    requires q.Valid()
  {
    forall i, j :: 0 <= i < j < |q.order| ==> q.vals[q.order[i]] <= q.vals[q.order[j]]
  }

  lemma ByTimeHidesNothing<K(!new)>(q: OrderedDict<K, int>, now: int, ttl: int)
    requires q.Valid() && ByTime(q)
    ensures OldInFront(q, now, ttl)
  {
  }

  lemma AddNewKeepsByTime<K(!new)>(q: OrderedDict<K, int>, k: K, now: int)
    requires q.Valid() && ByTime(q) && k !in q.vals
    requires forall i :: 0 <= i < |q.order| ==> q.vals[q.order[i]] <= now
    ensures ByTime(q.Set(k, now))
  {
    var r := q.Set(k, now);
    forall i, j | 0 <= i < j < |r.order| ensures r.vals[r.order[i]] <= r.vals[r.order[j]] {
      assert r.order[i] == q.order[i];
    }
  }

  lemma RenewKeepsByTimeIff<K(!new)>(q: OrderedDict<K, int>, p: nat, now: int)
    requires q.Valid() && ByTime(q) && p < |q.order|
    requires forall i :: 0 <= i < |q.order| ==> q.vals[q.order[i]] <= now
    ensures ByTime(q.Set(q.order[p], now)) <==> forall j :: p < j < |q.order| ==> q.vals[q.order[j]] == now
  {
    var r := q.Set(q.order[p], now);
    assert q.order[p] in q.vals && r.order == q.order;
    forall j | 0 <= j < |q.order| && j != p ensures r.vals[q.order[j]] == q.vals[q.order[j]] {
    }
    if ByTime(r) {
      forall j | p < j < |q.order| ensures q.vals[q.order[j]] == now {
        assert r.vals[r.order[p]] <= r.vals[r.order[j]];
      }
    }
  }

  /**
   Adding an item now keeps the queue ordered by time if and only if no entry behind the item's old
   place is older than now: always for a new item, hardly ever for a renewed one.
   */
  lemma AddKeepsByTimeIff<K(!new)>(q: OrderedDict<K, int>, k: K, now: int)
    requires q.Valid() && ByTime(q)
    requires forall i :: 0 <= i < |q.order| ==> q.vals[q.order[i]] <= now
    ensures ByTime(q.Set(k, now)) <==>
            forall i, j :: 0 <= i < j < |q.order| && q.order[i] == k ==> q.vals[q.order[j]] == now
  {
    if k in q.vals {
      var p :| 0 <= p < |q.order| && q.order[p] == k;
      RenewKeepsByTimeIff(q, p, now);
      assert forall i :: 0 <= i < |q.order| && q.order[i] == k ==> i == p;
    } else {
      AddNewKeepsByTime(q, k, now);
    }
  }

  /**
   Two entries from time 0, of which the first is renewed at 800: at 900 nothing is older than 900, and at 1700 the
   second one is, but the pass stops in front of the first.
   */
  lemma RenewedFrontHidesOldEntry<K(!new)>(q: OrderedDict<K, int>, r: OrderedDict<K, int>, a: K, b: K)
    requires a != b && q == OrderedDict([a, b], map[a := 0, b := 0]) && q.Valid() && r == q.Set(a, 800)
    ensures ExpiryStop(r, 900, 900, 0, 500) == 0
    ensures ExpiryStop(r, 1700, 900, 0, 500) == 0 && !Old(r, 0, 1700, 900) && Old(r, 1, 1700, 900)
  {
    assert r.order == [a, b] && r.vals[a] == 800 && r.vals[b] == 0;
  }

  class ExpirationQueue<T(==, !new)> {
    var queue: OrderedDict<T, int>
    const timeToLive: nat

    constructor (timeToLive: nat)
      ensures queue == EmptyDict() && this.timeToLive == timeToLive
    {
      this.timeToLive := timeToLive;
      queue := EmptyDict();
    }

    method Add(item: T, now: int)
      modifies this
      ensures queue == old(queue).Set(item, now)
    {
      queue := queue.Set(item, now);
    }

    method Remove(item: T)
      requires queue.Valid()
      modifies this
      ensures queue == old(queue).Delete(item)
    {
      if item in queue.vals {
        queue := queue.Delete(item);
      } else {
        DeleteAbsent(queue, {item});
      }
    }

    predicate IsExpiredFront(now: int)
      requires queue.Valid()
      reads this
    {
      FrontExpired(queue, now, timeToLive)
    }

    /** `popitem(last=False)`: the oldest entry leaves before the callback sees it. */
    method PopOldest() returns (item: T)
      requires queue.Valid() && queue.order != []
      modifies this
      ensures item == old(queue).order[0] && queue == old(queue).DropFirst()
    {
      item := queue.order[0];
      queue := queue.DropFirst();
    }

    method RemoveAll()
      modifies this
      ensures queue == EmptyDict()
    {
      queue := EmptyDict();
    }
  }
}
