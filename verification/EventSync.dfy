/**
 Following the chain: the cache fetches logs in windows of at most 2000 blocks and applies them. A fetch may fail and
 a log may make the update raise; either stops the attempt, which a caller may repeat later with another target.
 */
module EventSync {

  import opened UserStates

  /** At most this many blocks after the first of a window. */
  const WINDOW_SPAN := 1999

  /** The logs of each block, in order; they do not change between attempts. */
  type Chain = int -> seq<Log>

  datatype Sync = Sync(cache: Cache, lastUpdate: int)

  datatype Ending = Reached | FetchFailed | UpdateRaised

  datatype Attempted = Attempted(sync: Sync, ending: Ending)

  // ----- One pass -----

  /** The logs of the blocks `from` to `to`, both included. */
  function LogsIn(chain: Chain, from: int, to: int): seq<Log>
    decreases to - from
  {
    if from > to then [] else chain(from) + LogsIn(chain, from + 1, to)
  }

  /** Applies logs in order, up to and including the first that raises. */
  function ApplyLogs(c: Cache, logs: seq<Log>): Outcome
    decreases |logs|
  {
    if logs == [] then Outcome(c, false, map[])
    else
      var o := Update(c, logs[0]);
      if o.raised then o else ApplyLogs(o.cache, logs[1..])
  }

  /** No log in the range makes the cache raise; which cTokens it holds never changes. */
  ghost predicate Quiet(ctokens: set<Address>, logs: seq<Log>) {
    forall i :: 0 <= i < |logs| ==> !Raises(ctokens, logs[i])
  }

  lemma {:induction false} LogsSplit(chain: Chain, from: int, mid: int, to: int)
    requires from <= mid + 1 && mid <= to
    ensures LogsIn(chain, from, to) == LogsIn(chain, from, mid) + LogsIn(chain, mid + 1, to)
    decreases mid - from
  {
    if from <= mid {
      LogsSplit(chain, from + 1, mid, to);
    }
  }

  lemma {:induction false} ApplySplit(c: Cache, a: seq<Log>, b: seq<Log>)
    requires !ApplyLogs(c, a).raised
    ensures ApplyLogs(c, a + b).cache == ApplyLogs(ApplyLogs(c, a).cache, b).cache
    ensures ApplyLogs(c, a + b).raised == ApplyLogs(ApplyLogs(c, a).cache, b).raised
    decreases |a|
  {
    if a == [] {
      assert a + b == b;
    } else {
      assert (a + b)[1..] == a[1..] + b;
      ApplySplit(Update(c, a[0]).cache, a[1..], b);
    }
  }

  /** Applying a range raises exactly when some log in it meets the guard. */
  lemma {:induction false} ApplyRaisesIff(c: Cache, logs: seq<Log>)
    ensures ApplyLogs(c, logs).raised <==> !Quiet(c.ctokens.Keys, logs)
    ensures ApplyLogs(c, logs).cache.ctokens.Keys == c.ctokens.Keys
    decreases |logs|
  {
    if logs != [] {
      UpdateRaisesIff(c, logs[0]);
      ApplyRaisesIff(Update(c, logs[0]).cache, logs[1..]);
      assert Quiet(c.ctokens.Keys, logs) <==> !Raises(c.ctokens.Keys, logs[0]) && Quiet(c.ctokens.Keys, logs[1..]) by {
        assert forall i :: 0 < i < |logs| ==> logs[i] == logs[1..][i - 1];
      }
    }
  }

  // ----- One attempt -----

  function WindowEnd(lastUpdate: int, target: int): int {
    if lastUpdate + 1 + WINDOW_SPAN > target then target else lastUpdate + 1 + WINDOW_SPAN
  }

  /** `query_events_loop_liq`, where `fails` says for each fetch, counted from `fetch`, whether it fails. */
  function Attempt(s: Sync, target: int, chain: Chain, fails: nat -> bool, fetch: nat): Attempted
    decreases target - s.lastUpdate
  {
    if s.lastUpdate >= target then Attempted(s, Reached)
    else if fails(fetch) then Attempted(s, FetchFailed)
    else
      var to := WindowEnd(s.lastUpdate, target);
      var applied := ApplyLogs(s.cache, LogsIn(chain, s.lastUpdate + 1, to));
      if applied.raised then Attempted(s.(cache := applied.cache), UpdateRaised)
      else Attempt(Sync(applied.cache, to), target, chain, fails, fetch + 1)
  }

  /** The reference: every block after `s` up to `to`, in one go. */
  function OnePass(s: Sync, chain: Chain, to: int): Outcome {
    ApplyLogs(s.cache, LogsIn(chain, s.lastUpdate + 1, to))
  }

  /** The state `s` is what one pass over the blocks after `first` up to its own gives. */
  predicate IsOnePass(first: Sync, s: Sync, chain: Chain) {
    && first.lastUpdate <= s.lastUpdate
    && !OnePass(first, chain, s.lastUpdate).raised
    && OnePass(first, chain, s.lastUpdate).cache == s.cache
  }

  /** One more range after one pass is still one pass. */
  lemma PassesJoin(first: Sync, s: Sync, chain: Chain, to: int)
    requires IsOnePass(first, s, chain) && s.lastUpdate <= to
    ensures OnePass(first, chain, to).cache == OnePass(s, chain, to).cache
    ensures OnePass(first, chain, to).raised == OnePass(s, chain, to).raised
  {
    LogsSplit(chain, first.lastUpdate + 1, s.lastUpdate, to);
    ApplySplit(first.cache, LogsIn(chain, first.lastUpdate + 1, s.lastUpdate), LogsIn(chain, s.lastUpdate + 1, to));
  }

  /**
   Unless it raises, an attempt leaves what one pass up to its last block gives, wherever the windows fell and
   wherever a fetch failed; it ends at the target exactly when no fetch failed.
   */
  lemma {:induction false} AttemptExtendsOnePass(first: Sync, s: Sync, target: int, chain: Chain,
      fails: nat -> bool, fetch: nat)
    requires IsOnePass(first, s, chain)
    ensures var r := Attempt(s, target, chain, fails, fetch);
            && r.sync.lastUpdate >= s.lastUpdate
            && (r.ending.Reached? <==> r.sync.lastUpdate >= target)
            && (s.lastUpdate <= target ==> r.sync.lastUpdate <= target)
            && (!r.ending.UpdateRaised? ==> IsOnePass(first, r.sync, chain))
    decreases target - s.lastUpdate
  {
    if s.lastUpdate < target && !fails(fetch) {
      var to := WindowEnd(s.lastUpdate, target);
      var applied := OnePass(s, chain, to);
      if !applied.raised {
        PassesJoin(first, s, chain, to);
        AttemptExtendsOnePass(first, Sync(applied.cache, to), target, chain, fails, fetch + 1);
      }
    }
  }

  /** With no log that raises between here and the target, no attempt raises. */
  lemma {:induction false} QuietNeverRaises(s: Sync, target: int, chain: Chain, fails: nat -> bool, fetch: nat)
    requires Quiet(s.cache.ctokens.Keys, LogsIn(chain, s.lastUpdate + 1, target))
    ensures !Attempt(s, target, chain, fails, fetch).ending.UpdateRaised?
    ensures Attempt(s, target, chain, fails, fetch).sync.cache.ctokens.Keys == s.cache.ctokens.Keys
    decreases target - s.lastUpdate
  {
    if s.lastUpdate < target && !fails(fetch) {
      var to := WindowEnd(s.lastUpdate, target);
      LogsSplit(chain, s.lastUpdate + 1, to, target);
      ApplyRaisesIff(s.cache, LogsIn(chain, s.lastUpdate + 1, to));
      QuietParts(s.cache.ctokens.Keys, LogsIn(chain, s.lastUpdate + 1, to), LogsIn(chain, to + 1, target));
      QuietNeverRaises(Sync(OnePass(s, chain, to).cache, to), target, chain, fails, fetch + 1);
    }
  }

  lemma QuietParts(ctokens: set<Address>, a: seq<Log>, b: seq<Log>)
    ensures Quiet(ctokens, a + b) <==> Quiet(ctokens, a) && Quiet(ctokens, b)
  {
    if Quiet(ctokens, a + b) {
      assert forall i :: 0 <= i < |a| ==> a[i] == (a + b)[i];
      assert forall i :: 0 <= i < |b| ==> b[i] == (a + b)[|a| + i];
    }
  }

  /** An attempt without a failing fetch reaches the target exactly when no log on the way makes the cache raise. */
  lemma {:induction false} ReachesTargetIff(s: Sync, target: int, chain: Chain, fails: nat -> bool, fetch: nat)
    requires forall k :: !fails(k)
    ensures Attempt(s, target, chain, fails, fetch).ending.Reached?
       <==> Quiet(s.cache.ctokens.Keys, LogsIn(chain, s.lastUpdate + 1, target))
    decreases target - s.lastUpdate
  {
    if s.lastUpdate < target {
      var to := WindowEnd(s.lastUpdate, target);
      var logs := LogsIn(chain, s.lastUpdate + 1, to);
      LogsSplit(chain, s.lastUpdate + 1, to, target);
      ApplyRaisesIff(s.cache, logs);
      QuietParts(s.cache.ctokens.Keys, logs, LogsIn(chain, to + 1, target));
      if !ApplyLogs(s.cache, logs).raised {
        ReachesTargetIff(Sync(ApplyLogs(s.cache, logs).cache, to), target, chain, fails, fetch + 1);
      }
    }
  }

  /**
   Each fetch covers 2000 blocks, the last one what is left: over quiet logs an attempt whose first failing fetch comes
   after n others stands 2000 n blocks further, or has reached the target if that is nearer.
   */
  lemma {:induction false} FetchesCover(s: Sync, target: int, chain: Chain, fails: nat -> bool, fetch: nat, n: nat)
    requires s.lastUpdate <= target && Quiet(s.cache.ctokens.Keys, LogsIn(chain, s.lastUpdate + 1, target))
    requires fails(fetch + n) && forall k :: fetch <= k < fetch + n ==> !fails(k)
    ensures var r := Attempt(s, target, chain, fails, fetch);
            if s.lastUpdate + 2000 * n < target
            then r.ending.FetchFailed? && r.sync.lastUpdate == s.lastUpdate + 2000 * n
            else r.ending.Reached? && r.sync.lastUpdate == target
    decreases n
  {
    if s.lastUpdate < target && n > 0 {
      var to := WindowEnd(s.lastUpdate, target);
      var logs := LogsIn(chain, s.lastUpdate + 1, to);
      LogsSplit(chain, s.lastUpdate + 1, to, target);
      ApplyRaisesIff(s.cache, logs);
      QuietParts(s.cache.ctokens.Keys, logs, LogsIn(chain, to + 1, target));
      FetchesCover(Sync(ApplyLogs(s.cache, logs).cache, to), target, chain, fails, fetch + 1, n - 1);
    }
  }

  // ----- Many attempts -----

  /** A target and the fetches that fail. */
  datatype Try = Try(target: int, fails: nat -> bool)

  function Retry(s: Sync, tries: seq<Try>, chain: Chain): Sync
    decreases |tries|
  {
    if tries == [] then s
    else Retry(Attempt(s, tries[0].target, chain, tries[0].fails, 0).sync, tries[1..], chain)
  }

  /** None of the attempts meets a log that makes the cache raise. */
  ghost predicate NoneRaised(s: Sync, tries: seq<Try>, chain: Chain)
    decreases |tries|
  {
    tries == [] ||
    var r := Attempt(s, tries[0].target, chain, tries[0].fails, 0);
    !r.ending.UpdateRaised? && NoneRaised(r.sync, tries[1..], chain)
  }

  /** However often fetches fail and targets move, the cache is what one pass over the blocks so far gives. */
  lemma {:induction false} EveryRetryIsOnePass(first: Sync, s: Sync, tries: seq<Try>, chain: Chain)
    requires IsOnePass(first, s, chain) && NoneRaised(s, tries, chain)
    ensures IsOnePass(first, Retry(s, tries, chain), chain)
    decreases |tries|
  {
    if tries != [] {
      var t := tries[0];
      AttemptExtendsOnePass(first, s, t.target, chain, t.fails, 0);
      EveryRetryIsOnePass(first, Attempt(s, t.target, chain, t.fails, 0).sync, tries[1..], chain);
    }
  }

  lemma StartIsOnePass(s: Sync, chain: Chain)
    ensures IsOnePass(s, s, chain)
  {
  }

  /** Two ways of getting to the same block give the same cache: retried or not, in one stage or two. */
  lemma HistoryDoesNotMatter(s: Sync, a: seq<Try>, b: seq<Try>, chain: Chain)
    requires NoneRaised(s, a, chain) && NoneRaised(s, b, chain)
    requires Retry(s, a, chain).lastUpdate == Retry(s, b, chain).lastUpdate
    ensures Retry(s, a, chain) == Retry(s, b, chain)
  {
    StartIsOnePass(s, chain);
    EveryRetryIsOnePass(s, s, a, chain);
    EveryRetryIsOnePass(s, s, b, chain);
  }

  // ----- What retrying can reach -----

  /** A range of logs that raises has a block that does. */
  lemma {:induction false} RaisingBlock(ctokens: set<Address>, chain: Chain, from: int, end: int) returns (block: int)
    requires !Quiet(ctokens, LogsIn(chain, from, end))
    ensures from <= block <= end && !Quiet(ctokens, chain(block))
    decreases end - from
  {
    QuietParts(ctokens, chain(from), LogsIn(chain, from + 1, end));
    if Quiet(ctokens, chain(from)) {
      block := RaisingBlock(ctokens, chain, from + 1, end);
    } else {
      block := from;
    }
  }

  lemma RangeWithBlock(ctokens: set<Address>, chain: Chain, from: int, block: int, to: int)
    requires from <= block <= to && !Quiet(ctokens, chain(block))
    ensures !Quiet(ctokens, LogsIn(chain, from, to))
  {
    LogsSplit(chain, from, block - 1, to);
    QuietParts(ctokens, LogsIn(chain, from, block - 1), LogsIn(chain, block, to));
    QuietParts(ctokens, chain(block), LogsIn(chain, block + 1, to));
  }

  /** No attempt gets to a block that has a raising log. */
  lemma {:induction false} AttemptStopsBefore(s: Sync, target: int, chain: Chain, fails: nat -> bool, fetch: nat,
                                              block: int)
    requires s.lastUpdate < block && !Quiet(s.cache.ctokens.Keys, chain(block))
    ensures Attempt(s, target, chain, fails, fetch).sync.lastUpdate < block
    ensures Attempt(s, target, chain, fails, fetch).sync.cache.ctokens.Keys == s.cache.ctokens.Keys
    decreases target - s.lastUpdate
  {
    if s.lastUpdate < target && !fails(fetch) {
      var to := WindowEnd(s.lastUpdate, target);
      var logs := LogsIn(chain, s.lastUpdate + 1, to);
      ApplyRaisesIff(s.cache, logs);
      if block <= to {
        RangeWithBlock(s.cache.ctokens.Keys, chain, s.lastUpdate + 1, block, to);
      } else if !ApplyLogs(s.cache, logs).raised {
        AttemptStopsBefore(Sync(ApplyLogs(s.cache, logs).cache, to), target, chain, fails, fetch + 1, block);
      }
    }
  }

  /** Nor does any number of attempts. */
  lemma {:induction false} RetryStopsBefore(s: Sync, tries: seq<Try>, chain: Chain, block: int)
    requires s.lastUpdate < block && !Quiet(s.cache.ctokens.Keys, chain(block))
    ensures Retry(s, tries, chain).lastUpdate < block
    decreases |tries|
  {
    if tries != [] {
      var t := tries[0];
      AttemptStopsBefore(s, t.target, chain, t.fails, 0, block);
      RetryStopsBefore(Attempt(s, t.target, chain, t.fails, 0).sync, tries[1..], chain, block);
    }
  }

  lemma OneTryReaches(s: Sync, target: int, chain: Chain, t: Try)
    requires Quiet(s.cache.ctokens.Keys, LogsIn(chain, s.lastUpdate + 1, target))
    requires t.target == target && forall k :: !t.fails(k)
    ensures Retry(s, [t], chain).lastUpdate >= target
  {
    StartIsOnePass(s, chain);
    ReachesTargetIff(s, target, chain, t.fails, 0);
    AttemptExtendsOnePass(s, s, target, chain, t.fails, 0);
    assert [t][1..] == [];
    assert Retry(s, [t], chain) == Attempt(s, target, chain, t.fails, 0).sync;
  }

  /** Some attempts reach a block if and only if no log up to it makes the cache raise: retrying never helps. */
  lemma SomeRetryReachesIff(s: Sync, target: int, chain: Chain)
    ensures (exists tries :: Retry(s, tries, chain).lastUpdate >= target)
       <==> Quiet(s.cache.ctokens.Keys, LogsIn(chain, s.lastUpdate + 1, target))
  {
    if Quiet(s.cache.ctokens.Keys, LogsIn(chain, s.lastUpdate + 1, target)) {
      OneTryReaches(s, target, chain, Try(target, k => false));
    } else {
      var block := RaisingBlock(s.cache.ctokens.Keys, chain, s.lastUpdate + 1, target);
      forall tries ensures Retry(s, tries, chain).lastUpdate < block {
        RetryStopsBefore(s, tries, chain, block);
      }
    }
  }

  /** While the logs up to every target are quiet, no attempt raises. */
  lemma {:induction false} QuietRetriesNeverRaise(s: Sync, tries: seq<Try>, chain: Chain, end: int)
    requires Quiet(s.cache.ctokens.Keys, LogsIn(chain, s.lastUpdate + 1, end))
    requires forall i :: 0 <= i < |tries| ==> tries[i].target <= end
    ensures NoneRaised(s, tries, chain)
    decreases |tries|
  {
    if tries != [] {
      var t := tries[0];
      var next := Attempt(s, t.target, chain, t.fails, 0).sync;
      QuietUpTo(s.cache.ctokens.Keys, chain, s.lastUpdate + 1, t.target, end);
      QuietNeverRaises(s, t.target, chain, t.fails, 0);
      StartIsOnePass(s, chain);
      AttemptExtendsOnePass(s, s, t.target, chain, t.fails, 0);
      QuietFrom(s.cache.ctokens.Keys, chain, s.lastUpdate + 1, next.lastUpdate + 1, end);
      QuietRetriesNeverRaise(next, tries[1..], chain, end);
    }
  }

  lemma QuietUpTo(ctokens: set<Address>, chain: Chain, from: int, mid: int, to: int)
    requires Quiet(ctokens, LogsIn(chain, from, to)) && mid <= to
    ensures Quiet(ctokens, LogsIn(chain, from, mid))
  {
    if from <= mid {
      LogsSplit(chain, from, mid, to);
      QuietParts(ctokens, LogsIn(chain, from, mid), LogsIn(chain, mid + 1, to));
    }
  }

  lemma QuietFrom(ctokens: set<Address>, chain: Chain, from: int, mid: int, to: int)
    requires Quiet(ctokens, LogsIn(chain, from, to)) && from <= mid
    ensures Quiet(ctokens, LogsIn(chain, mid, to))
  {
    if mid <= to {
      LogsSplit(chain, from, mid - 1, to);
      QuietParts(ctokens, LogsIn(chain, from, mid - 1), LogsIn(chain, mid, to));
    }
  }

  /** Replays a range of logs: the operations whose conservation laws hold in every run. */
  function Replays(logs: seq<Log>): seq<Op>
    ensures |Replays(logs)| == |logs|
  {
    if logs == [] then [] else [Replay(logs[0])] + Replays(logs[1..])
  }

  lemma {:induction false} ApplyIsRun(c: Cache, logs: seq<Log>)
    requires !ApplyLogs(c, logs).raised
    ensures ApplyLogs(c, logs).cache == Run(c, Replays(logs))
    decreases |logs|
  {
    if logs != [] {
      assert Replays(logs)[1..] == Replays(logs[1..]);
      ApplyIsRun(Update(c, logs[0]).cache, logs[1..]);
    }
  }

  // ----- A raising log -----

  /**
   An attempt that raises stands at the start of the window with the raising log, half of which is applied. So it leaves
   what one pass gives if and only if that half left the cache as it was.
   */
  lemma {:induction false} RaisedAttemptIff(first: Sync, s: Sync, target: int, chain: Chain, fails: nat -> bool,
                                            fetch: nat) returns (start: Sync)
    requires IsOnePass(first, s, chain) && Attempt(s, target, chain, fails, fetch).ending.UpdateRaised?
    ensures IsOnePass(first, start, chain) && start.lastUpdate < target
    ensures var r, window := Attempt(s, target, chain, fails, fetch).sync,
                             OnePass(start, chain, WindowEnd(start.lastUpdate, target));
            && window.raised && r == Sync(window.cache, start.lastUpdate)
            && (IsOnePass(first, r, chain) <==> window.cache == start.cache)
    decreases target - s.lastUpdate
  {
    var to := WindowEnd(s.lastUpdate, target);
    var applied := OnePass(s, chain, to);
    if applied.raised {
      start := s;
    } else {
      PassesJoin(first, s, chain, to);
      start := RaisedAttemptIff(first, Sync(applied.cache, to), target, chain, fails, fetch + 1);
    }
  }

  /** A transfer followed, in the same window, by a log of a cToken the cache does not hold. */
  function MintThenStranger(a: Address, b: Address, token: Address, stranger: Address): Chain {
    k => if k == 1 then [Log(false, token, Transfer(a, b, 7)), Log(false, stranger, ReservesChanged(1))] else []
  }

  /**
   A raising log leaves the window half applied and the position before it, so the attempt that follows applies
   the logs before it once more: here 7 are credited twice.
   */
  lemma RetryAfterRaiseAppliesTwice(c: Cache, a: Address, b: Address, token: Address, stranger: Address)
    requires a != b && token != a && token != b && stranger !in c.ctokens
    ensures var chain := MintThenStranger(a, b, token, stranger);
            var t := Try(1, k => false);
            Col(Retry(Sync(c, 0), [t, t], chain).cache.users, b, token) == Col(c.users, b, token) + 14
  {
    var chain := MintThenStranger(a, b, token, stranger);
    var t := Try(1, k => false);
    var logs := chain(1);
    assert LogsIn(chain, 1, 1) == logs by {
      assert LogsIn(chain, 2, 1) == [];
    }
    var once := Update(c, logs[0]).cache;
    var twice := Update(once, logs[0]).cache;
    HalfApplied(c, logs);
    HalfApplied(once, logs);
    UpdateMovesNet(c, logs[0], b, token);
    UpdateMovesNet(once, logs[0], b, token);
    assert [t, t][1..] == [t];
    assert [t][1..] == [];
    assert Attempt(Sync(c, 0), 1, chain, t.fails, 0).sync == Sync(once, 0);
    assert Attempt(Sync(once, 0), 1, chain, t.fails, 0).sync == Sync(twice, 0);
    calc {
      Retry(Sync(c, 0), [t, t], chain);
      Retry(Sync(once, 0), [t], chain);
      Retry(Sync(twice, 0), [], chain);
    }
  }

  lemma HalfApplied(c: Cache, logs: seq<Log>)
    requires |logs| == 2 && !Raises(c.ctokens.Keys, logs[0]) && Raises(c.ctokens.Keys, logs[1])
    requires logs[1].event.ReservesChanged?
    ensures ApplyLogs(c, logs).raised && ApplyLogs(c, logs).cache == Update(c, logs[0]).cache
    ensures Update(c, logs[0]).cache.ctokens.Keys == c.ctokens.Keys
  {
    UpdateRaisesIff(c, logs[0]);
    UpdateRaisesIff(Update(c, logs[0]).cache, logs[1]);
  }
}
