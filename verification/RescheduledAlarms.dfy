/**
 Approximate alarms that reschedule themselves. Their new time is written into their function's heap in place, so
 they stay at its head; from then on the assertion about the heads fails for every alarm that fires after them and
 does not reschedule itself.
 */
module RescheduledAlarms {
  import opened Basics
  import opened AlarmHeaps
  import opened AlarmPasses
  import opened ApproxAlarms

  // ----- When the assertion holds -----

  /** No alarm of `fns` that is due and does not reschedule itself stands behind one of its function that does. */
  ghost predicate NoneBehindRescheduled(h: seq<Alarm>, fns: set<Fn>, start: int, callbacks: Callbacks) {
    forall a, b ::
      (a in h && b in h && a.fn == b.fn && b.fn in fns && Less(a, b) && b.fireTime <= start
       && Reschedules(callbacks(a.count))) ==> Reschedules(callbacks(b.count))
  }

  /** The head of the heap was rescheduled beyond the pass. */
  ghost predicate Stuck(h: seq<Alarm>, s: seq<Alarm>, start: int) {
    s != [] && forall a :: a in h && a.count == s[0].count ==> a.fireTime > start
  }

  /** In the middle of a pass the heaps of the functions in `stuck` have such a head; the others are mirrors. */
  ghost predicate Tracked(h: seq<Alarm>, approx: map<Fn, seq<Alarm>>, fns: set<Fn>, stuck: set<Fn>, start: int) {
    && IsHeap(h) && Unique(multiset(h))
    && stuck <= approx.Keys <= fns
    && MirrorsBut(h, approx, stuck)
    && (forall f :: f in stuck ==> Stuck(h, approx[f], start))
    && (forall a :: a in h && a.fn in fns ==> a.active && a.fn in approx)
  }

  ghost predicate InLine(h: seq<Alarm>, fns: set<Fn>, stuck: set<Fn>, start: int, callbacks: Callbacks) {
    forall b :: b in h && b.fn in fns && b.fireTime <= start && !Reschedules(callbacks(b.count)) ==>
      b.fn !in stuck && forall a :: a in h && a.fn == b.fn && Less(a, b) ==> !Reschedules(callbacks(a.count))
  }

  lemma CountsDiffer(h: seq<Alarm>, a: Alarm, b: Alarm)
    requires Unique(multiset(h)) && a in h && b in h && a != b
    ensures a.count != b.count
  {
    assert a in multiset(h) && b in multiset(h);
  }

  /** Nothing after the head is due again under the head's count. */
  lemma StuckStays(h: seq<Alarm>, r: Reaction, next: seq<Alarm>, s: seq<Alarm>, time: int, start: int)
    requires HeadReplaced(h, r, next) && Stuck(h, s, start) && h[0].fireTime <= start
    ensures Stuck(next, SetTime(s, h[0].count, time), start) && Stuck(next, s, start)
  {
    assert h[0] in h;
    assert SetTime(s, h[0].count, time)[0].count == s[0].count;
  }

  lemma HeadGetsStuck(h: seq<Alarm>, r: Reaction, next: seq<Alarm>, s: seq<Alarm>, time: int, start: int)
    requires HeadReplaced(h, r, next) && IsHeap(h) && Unique(multiset(h)) && Mirror(h, h[0].fn, s)
    requires Repeats(h[0], r) && r.now >= start
    ensures Stuck(next, SetTime(s, h[0].count, time), start)
  {
    HeadsAgree(h, s);
    assert SetTime(s, h[0].count, time)[0].count == h[0].count;
    forall a | a in next && a.count == h[0].count ensures a.fireTime > start {
      if a in h && a != h[0] {
        CountsDiffer(h, a, h[0]);
      }
    }
  }

  /** Writing the head's new time leaves the heaps of other functions as they are. */
  lemma OtherTimes(h: seq<Alarm>, r: Reaction, approx: map<Fn, seq<Alarm>>, but: set<Fn>, time: int)
    requires h != [] && Unique(multiset(h)) && MirrorsBut(h, approx, but)
    ensures MirrorsBut(HeapAfter(h, r), SetTimes(approx, h[0].count, time), but + {h[0].fn})
    ensures MirrorsBut(HeapAfter(h, r), approx, but + {h[0].fn})
  {
    forall f | f in approx && f !in but + {h[0].fn}
      ensures SetTime(approx[f], h[0].count, time) == approx[f] && Mirror(HeapAfter(h, r), f, approx[f])
    {
      AfterMirrorOther(h, r, f, approx[f]);
      SetTimeForeign(approx[f], h[0].count, time);
    }
  }

  lemma AfterActive(h: seq<Alarm>, r: Reaction, approx: map<Fn, seq<Alarm>>, fns: set<Fn>)
    requires h != [] && Unique(multiset(h)) && (forall a :: a in h && a.fn in fns ==> a.active && a.fn in approx)
    ensures forall a :: a in HeapAfter(h, r) && a.fn in fns ==> a.active && a.fn in approx
  {
    HeapAfterUnique(h, r);
    assert h[0] in h;
  }

  lemma RescheduledStuck(h: seq<Alarm>, r: Reaction, next: seq<Alarm>, approx: map<Fn, seq<Alarm>>, stuck: set<Fn>,
                         time: int, start: int)
    requires HeadReplaced(h, r, next) && IsHeap(h) && Unique(multiset(h)) && h[0].fireTime <= start
    requires stuck + {h[0].fn} <= approx.Keys && MirrorsBut(h, approx, stuck) && Repeats(h[0], r) && r.now >= start
    requires forall f :: f in stuck ==> Stuck(h, approx[f], start)
    ensures forall f :: f in stuck + {h[0].fn} ==> Stuck(next, SetTimes(approx, h[0].count, time)[f], start)
  {
    forall f | f in stuck + {h[0].fn} ensures Stuck(next, SetTimes(approx, h[0].count, time)[f], start) {
      if f in stuck {
        StuckStays(h, r, next, approx[f], time, start);
      } else {
        HeadGetsStuck(h, r, next, approx[f], time, start);
      }
    }
  }

  lemma RescheduledTracked(h: seq<Alarm>, r: Reaction, approx: map<Fn, seq<Alarm>>, fns: set<Fn>, stuck: set<Fn>,
                           start: int)
    requires h != [] && Tracked(h, approx, fns, stuck, start) && h[0].fireTime <= start
    requires Repeats(h[0], r) && r.now >= start && h[0].fn in fns
    ensures ApproxAfter(approx, h[0], r).Some?
    ensures Tracked(HeapAfter(h, r), ApproxAfter(approx, h[0], r).value, fns, stuck + {h[0].fn}, start)
  {
    var time := Requeued(h[0], r).fireTime;
    assert h[0] in h;
    HeapAfterUnique(h, r);
    OtherTimes(h, r, approx, stuck, time);
    AfterActive(h, r, approx, fns);
    RescheduledStuck(h, r, HeapAfter(h, r), approx, stuck, time, start);
  }

  lemma PlainTracked(h: seq<Alarm>, r: Reaction, approx: map<Fn, seq<Alarm>>, fns: set<Fn>, stuck: set<Fn>, start: int)
    requires h != [] && Tracked(h, approx, fns, stuck, start) && h[0].fireTime <= start && h[0].fn !in fns
    ensures ApproxAfter(approx, h[0], r).Some?
    ensures Tracked(HeapAfter(h, r), ApproxAfter(approx, h[0], r).value, fns, stuck, start)
  {
    var next, after := HeapAfter(h, r), ApproxAfter(approx, h[0], r).value;
    var time := if Repeats(h[0], r) then Requeued(h[0], r).fireTime else 0;
    HeapAfterUnique(h, r);
    OtherTimes(h, r, approx, stuck, time);
    AfterActive(h, r, approx, fns);
    forall f | f in stuck ensures Stuck(next, after[f], start) {
      StuckStays(h, r, next, approx[f], time, start);
    }
    forall f | f in after && f !in stuck ensures Mirror(next, f, after[f]) {
      assert f !in stuck + {h[0].fn};
    }
  }

  lemma LeavingHeap(h: seq<Alarm>, r: Reaction, approx: map<Fn, seq<Alarm>>, s: seq<Alarm>) returns (rest: seq<Alarm>)
    requires h != [] && IsHeap(h) && Unique(multiset(h)) && Mirror(h, h[0].fn, s) && h[0].active && !Reschedules(r)
    requires h[0].fn in approx && approx[h[0].fn] == s
    ensures ApproxAfter(approx, h[0], r) == Some(WithHeap(approx, h[0].fn, rest))
    ensures rest != [] ==> Mirror(HeapAfter(h, r), h[0].fn, rest)
    ensures rest == [] ==> forall a :: a in HeapAfter(h, r) ==> a.fn != h[0].fn
  {
    HeadsAgree(h, s);
    PopMirror(h, s);
    rest := HeapPop(s);
  }

  function WithHeap(approx: map<Fn, seq<Alarm>>, fn: Fn, rest: seq<Alarm>): map<Fn, seq<Alarm>> {
    if rest == [] then approx - {fn} else approx[fn := rest]
  }

  lemma LeftTracked(next: seq<Alarm>, approx: map<Fn, seq<Alarm>>, fn: Fn, rest: seq<Alarm>,
                    fns: set<Fn>, stuck: set<Fn>, start: int)
    requires fn in approx && stuck <= approx.Keys <= fns && fn !in stuck && IsHeap(next) && Unique(multiset(next))
    requires MirrorsBut(next, approx, stuck + {fn}) && (rest != [] ==> Mirror(next, fn, rest))
    requires forall f :: f in stuck ==> Stuck(next, approx[f], start)
    requires forall a :: a in next && a.fn in fns ==> a.active && a.fn in approx
    requires rest == [] ==> forall a :: a in next ==> a.fn != fn
    ensures Tracked(next, WithHeap(approx, fn, rest), fns, stuck, start)
  {
    var after := WithHeap(approx, fn, rest);
    forall f | f in after && f !in stuck ensures Mirror(next, f, after[f]) {
      assert f != fn ==> f in approx && f !in stuck + {fn};
    }
  }

  lemma LeavingTracked(h: seq<Alarm>, r: Reaction, approx: map<Fn, seq<Alarm>>, fns: set<Fn>, stuck: set<Fn>,
                       start: int)
    requires h != [] && Tracked(h, approx, fns, stuck, start) && h[0].fireTime <= start
    requires h[0].fn in fns && h[0].fn !in stuck && !Reschedules(r)
    ensures ApproxAfter(approx, h[0], r).Some?
    ensures Tracked(HeapAfter(h, r), ApproxAfter(approx, h[0], r).value, fns, stuck, start)
  {
    var fn := h[0].fn;
    assert h[0] in h && Mirror(h, fn, approx[fn]);
    var rest := LeavingHeap(h, r, approx, approx[fn]);
    HeapAfterUnique(h, r);
    OtherTimes(h, r, approx, stuck, 0);
    AfterActive(h, r, approx, fns);
    forall f | f in stuck ensures Stuck(HeapAfter(h, r), approx[f], start) {
      StuckStays(h, r, HeapAfter(h, r), approx[f], 0, start);
    }
    LeftTracked(HeapAfter(h, r), approx, fn, rest, fns, stuck, start);
  }

  lemma StuckFails(h: seq<Alarm>, r: Reaction, approx: map<Fn, seq<Alarm>>, fns: set<Fn>, stuck: set<Fn>, start: int)
    requires h != [] && Tracked(h, approx, fns, stuck, start) && h[0].fireTime <= start
    requires h[0].fn in stuck && !Reschedules(r)
    ensures ApproxAfter(approx, h[0], r).None?
  {
    assert h[0] in h && Stuck(h, approx[h[0].fn], start);
  }

  // ----- The condition, alarm by alarm -----

  lemma HeadBeforeAll(h: seq<Alarm>)
    requires h != [] && IsHeap(h) && Unique(multiset(h))
    ensures forall a :: a in h && a != h[0] ==> Less(h[0], a) && !Less(a, h[0]) && a.count != h[0].count
  {
    forall a | a in h && a != h[0] ensures Less(h[0], a) && !Less(a, h[0]) && a.count != h[0].count {
      HeadIsFirst(h, a);
      CountsDiffer(h, a, h[0]);
    }
  }

  /** An alarm that leaves, or is none of `fns`, plays no part for those behind it. */
  lemma InLineWithout(h: seq<Alarm>, r: Reaction, next: seq<Alarm>, fns: set<Fn>, stuck: set<Fn>, start: int,
                      callbacks: Callbacks)
    requires HeadReplaced(h, r, next) && IsHeap(h) && Unique(multiset(h)) && r == callbacks(h[0].count)
    requires h[0].fn in fns ==> !Reschedules(r) && h[0].fn !in stuck
    ensures InLine(h, fns, stuck, start, callbacks) <==> InLine(next, fns, stuck, start, callbacks)
  {
    HeadBeforeAll(h);
    assert h[0] in h;
    assert forall b :: b in next && b.fn in fns ==> b in h;
    assert forall b :: b in h && b != h[0] ==> b in next;
    if InLine(next, fns, stuck, start, callbacks) {
      forall b | b in h && b.fn in fns && b.fireTime <= start && !Reschedules(callbacks(b.count))
        ensures b.fn !in stuck && forall a :: a in h && a.fn == b.fn && Less(a, b) ==> !Reschedules(callbacks(a.count))
      {
        if b != h[0] {
          assert b in next;
        }
      }
    }
  }

  /** Behind an alarm that reschedules itself, its function is stuck. */
  lemma InLineBehind(h: seq<Alarm>, r: Reaction, next: seq<Alarm>, fns: set<Fn>, stuck: set<Fn>, start: int,
                     callbacks: Callbacks)
    requires HeadReplaced(h, r, next) && IsHeap(h) && Unique(multiset(h)) && r == callbacks(h[0].count)
    requires h[0].fn in fns && Repeats(h[0], r) && r.now >= start
    ensures InLine(h, fns, stuck, start, callbacks) <==> InLine(next, fns, stuck + {h[0].fn}, start, callbacks)
  {
    HeadBeforeAll(h);
    assert h[0] in h;
    var now := stuck + {h[0].fn};
    if InLine(h, fns, stuck, start, callbacks) {
      forall b | b in next && b.fn in fns && b.fireTime <= start && !Reschedules(callbacks(b.count))
        ensures b.fn !in now && forall a :: a in next && a.fn == b.fn && Less(a, b) ==> !Reschedules(callbacks(a.count))
      {
        assert b in h && b != h[0];
      }
    }
    if InLine(next, fns, now, start, callbacks) {
      forall b | b in h && b.fn in fns && b.fireTime <= start && !Reschedules(callbacks(b.count))
        ensures b.fn !in stuck && forall a :: a in h && a.fn == b.fn && Less(a, b) ==> !Reschedules(callbacks(a.count))
      {
        assert b != h[0] && b in next;
      }
    }
  }

  /** After a turn the stuck functions are `now`, and the condition holds for them just if it did before. */
  ghost predicate Turned(h: seq<Alarm>, next: Queue, fns: set<Fn>, stuck: set<Fn>, now: set<Fn>, start: int,
                         callbacks: Callbacks) {
    && Tracked(next.alarms, next.approx, fns, now, start)
    && (InLine(h, fns, stuck, start, callbacks) <==> InLine(next.alarms, fns, now, start, callbacks))
  }

  lemma PlainTurn(q: Queue, r: Reaction, fns: set<Fn>, stuck: set<Fn>, start: int, callbacks: Callbacks)
    requires Tracked(q.alarms, q.approx, fns, stuck, start) && ClockForward(callbacks, start) && HeadDue(q, start)
    requires r == callbacks(q.alarms[0].count) && q.alarms[0].fn !in fns
    ensures FireHead(q, r).Some? && Turned(q.alarms, FireHead(q, r).value, fns, stuck, stuck, start, callbacks)
  {
    HeapAfterUnique(q.alarms, r);
    PlainTracked(q.alarms, r, q.approx, fns, stuck, start);
    InLineWithout(q.alarms, r, HeapAfter(q.alarms, r), fns, stuck, start, callbacks);
  }

  lemma ReschedulingTurn(q: Queue, r: Reaction, fns: set<Fn>, stuck: set<Fn>, start: int, callbacks: Callbacks)
    requires Tracked(q.alarms, q.approx, fns, stuck, start) && ClockForward(callbacks, start) && HeadDue(q, start)
    requires r == callbacks(q.alarms[0].count) && q.alarms[0].fn in fns && Reschedules(r)
    ensures FireHead(q, r).Some?
    ensures Turned(q.alarms, FireHead(q, r).value, fns, stuck, stuck + {q.alarms[0].fn}, start, callbacks)
  {
    assert q.alarms[0] in q.alarms;
    HeapAfterUnique(q.alarms, r);
    RescheduledTracked(q.alarms, r, q.approx, fns, stuck, start);
    InLineBehind(q.alarms, r, HeapAfter(q.alarms, r), fns, stuck, start, callbacks);
  }

  lemma LeavingTurn(q: Queue, r: Reaction, fns: set<Fn>, stuck: set<Fn>, start: int, callbacks: Callbacks)
    requires Tracked(q.alarms, q.approx, fns, stuck, start) && ClockForward(callbacks, start) && HeadDue(q, start)
    requires r == callbacks(q.alarms[0].count) && q.alarms[0].fn in fns && !Reschedules(r) && q.alarms[0].fn !in stuck
    ensures FireHead(q, r).Some? && Turned(q.alarms, FireHead(q, r).value, fns, stuck, stuck, start, callbacks)
  {
    HeapAfterUnique(q.alarms, r);
    LeavingTracked(q.alarms, r, q.approx, fns, stuck, start);
    InLineWithout(q.alarms, r, HeapAfter(q.alarms, r), fns, stuck, start, callbacks);
  }

  lemma StuckTurn(q: Queue, r: Reaction, fns: set<Fn>, stuck: set<Fn>, start: int, callbacks: Callbacks)
    requires Tracked(q.alarms, q.approx, fns, stuck, start) && HeadDue(q, start)
    requires r == callbacks(q.alarms[0].count) && q.alarms[0].fn in stuck && !Reschedules(r)
    ensures FireHead(q, r).None? && !InLine(q.alarms, fns, stuck, start, callbacks)
  {
    assert q.alarms[0] in q.alarms;
    StuckFails(q.alarms, r, q.approx, fns, stuck, start);
  }

  /** One turn of a pass: the assertion fails here, or the condition holds before the turn just if it does after. */
  lemma TurnInLine(q: Queue, r: Reaction, fns: set<Fn>, stuck: set<Fn>, start: int, callbacks: Callbacks)
      returns (now: set<Fn>)
    requires Tracked(q.alarms, q.approx, fns, stuck, start) && ClockForward(callbacks, start) && HeadDue(q, start)
    requires r == callbacks(q.alarms[0].count)
    ensures FireHead(q, r).None? ==> !InLine(q.alarms, fns, stuck, start, callbacks)
    ensures FireHead(q, r).Some? ==> Turned(q.alarms, FireHead(q, r).value, fns, stuck, now, start, callbacks)
  {
    now := stuck;
    if q.alarms[0].fn !in fns {
      PlainTurn(q, r, fns, stuck, start, callbacks);
    } else if Reschedules(r) {
      now := stuck + {q.alarms[0].fn};
      ReschedulingTurn(q, r, fns, stuck, start, callbacks);
    } else if q.alarms[0].fn in stuck {
      StuckTurn(q, r, fns, stuck, start, callbacks);
    } else {
      LeavingTurn(q, r, fns, stuck, start, callbacks);
    }
  }

  lemma {:induction false} PassOkFrom(q: Queue, fns: set<Fn>, stuck: set<Fn>, start: int, callbacks: Callbacks)
    requires Tracked(q.alarms, q.approx, fns, stuck, start) && ClockForward(callbacks, start)
    ensures FirePass(q, start, callbacks).ok <==> InLine(q.alarms, fns, stuck, start, callbacks)
    decreases DueCount(multiset(q.alarms), start)
  {
    if HeadDue(q, start) {
      var r := callbacks(q.alarms[0].count);
      var now := TurnInLine(q, r, fns, stuck, start, callbacks);
      if FireHead(q, r).None? {
        PassFails(q, start, callbacks, r);
      } else {
        HeapAfterDecreases(q.alarms, r, start);
        PassGoesOn(q, start, callbacks, r, FireHead(q, r).value);
        PassOkFrom(FireHead(q, r).value, fns, now, start, callbacks);
      }
    } else {
      PassEnds(q, start, callbacks);
      NothingDue(q.alarms, start, callbacks);
    }
  }

  /**
   From heaps in agreement, the assertion holds throughout a pass if and only if no due alarm that does not
   reschedule itself stands behind one of its function that does.
   */
  lemma PassOkIff(q: Queue, fns: set<Fn>, start: int, callbacks: Callbacks)
    requires Mirrors(q, fns) && ClockForward(callbacks, start)
    ensures FirePass(q, start, callbacks).ok <==> NoneBehindRescheduled(q.alarms, fns, start, callbacks)
  {
    PassOkFrom(q, fns, {}, start, callbacks);
  }

  // ----- When the heaps stay in agreement -----

  /** An alarm set for `time` under `count` comes before `b`. */
  ghost predicate Precedes(time: int, count: nat, b: Alarm) {
    time < b.fireTime || (time == b.fireTime && count < b.count)
  }

  /** The head's new time comes before every other pending alarm of its function. */
  ghost predicate StaysFirst(h: seq<Alarm>, r: Reaction)
    requires h != [] && Reschedules(r)
  {
    forall b :: b in h && b.fn == h[0].fn && b != h[0] ==> Precedes(r.now + r.delay.value, h[0].count, b)
  }

  /** Writing a new head into a heap in place leaves a heap exactly if the new head is the least. */
  lemma RetimedIsHeapIff(s: seq<Alarm>, a: Alarm)
    requires s != [] && IsHeap(s)
    ensures IsHeap(s[0 := a]) <==> forall i :: 0 < i < |s| ==> !Less(s[i], a)
  {
    var t := s[0 := a];
    if IsHeap(t) {
      forall i | 0 < i < |s| ensures !Less(s[i], a) {
        RootIsLeast(t, i);
      }
    }
    if forall i :: 0 < i < |s| ==> !Less(s[i], a) {
      forall i | 0 < i < |t| ensures !Less(t[i], t[Parent(i)]) {
        assert Parent(i) > 0 ==> t[Parent(i)] == s[Parent(i)];
      }
    }
  }

  lemma RetimedIs(s: seq<Alarm>, again: Alarm)
    requires s != [] && Unique(multiset(s)) && again == s[0].(fireTime := again.fireTime)
    ensures SetTime(s, again.count, again.fireTime) == s[0 := again]
  {
    forall i | 0 < i < |s| ensures s[i].count != again.count {
      UniqueToDistinct(s, 0, i);
    }
  }

  lemma RetimedUnique(s: seq<Alarm>, again: Alarm)
    requires s != [] && Unique(multiset(s)) && again.count == s[0].count
    ensures Unique(multiset(s[0 := again]))
  {
    var t := s[0 := again];
    forall i, j | 0 <= i < j < |t| ensures t[i].count != t[j].count {
      UniqueToDistinct(s, i, j);
    }
    DistinctToUnique(t);
  }

  lemma RetimedMembers(s: seq<Alarm>, again: Alarm)
    requires s != [] && Unique(multiset(s))
    ensures forall a :: a in s[0 := again] <==> (a in s && a != s[0]) || a == again
  {
    var t := s[0 := again];
    forall a ensures a in t <==> (a in s && a != s[0]) || a == again {
      if a in s && a != s[0] {
        var i :| 0 <= i < |s| && s[i] == a;
        assert t[i] == a;
      }
      if a in t && a != again {
        var i :| 0 <= i < |t| && t[i] == a;
        UniqueToDistinct(s, 0, i);
      }
      assert t[0] == again;
    }
  }

  /** Being first among the alarms of its function is being least in the heap of its function. */
  lemma StaysFirstIff(h: seq<Alarm>, r: Reaction, s: seq<Alarm>)
    requires h != [] && Reschedules(r) && Mirror(h, h[0].fn, s) && s[0] == h[0]
    ensures StaysFirst(h, r) <==> forall i :: 0 < i < |s| ==> !Less(s[i], Requeued(h[0], r))
  {
    var again := Requeued(h[0], r);
    forall i | 0 < i < |s| ensures s[i] in s && s[i] != h[0] && (Less(again, s[i]) <==> !Less(s[i], again)) {
      UniqueToDistinct(s, 0, i);
    }
    if forall i :: 0 < i < |s| ==> !Less(s[i], again) {
      forall b | b in h && b.fn == h[0].fn && b != h[0] ensures Less(again, b) {
        assert b in s;
        var i :| 0 <= i < |s| && s[i] == b;
        assert i > 0;
      }
    }
  }

  lemma RetimedMirrorIff(h: seq<Alarm>, r: Reaction, next: seq<Alarm>, s: seq<Alarm>)
    requires HeadReplaced(h, r, next) && IsHeap(h) && Unique(multiset(h)) && Mirror(h, h[0].fn, s) && Repeats(h[0], r)
    ensures Mirror(next, h[0].fn, SetTime(s, h[0].count, Requeued(h[0], r).fireTime)) <==> StaysFirst(h, r)
  {
    var again := Requeued(h[0], r);
    HeadsAgree(h, s);
    RetimedIs(s, again);
    RetimedIsHeapIff(s, again);
    RetimedUnique(s, again);
    RetimedMembers(s, again);
    StaysFirstIff(h, r, s);
  }

  /** All but one function's heaps are known to agree. */
  lemma MirrorsButOne(q: Queue, fns: set<Fn>, fn: Fn)
    requires HeapValid(q.alarms, q.uniq) && q.approx.Keys <= fns && fn in q.approx
    requires MirrorsBut(q.alarms, q.approx, {fn})
    requires forall a :: a in q.alarms && a.fn in fns ==> a.active && a.fn in q.approx
    ensures Mirrors(q, fns) <==> Mirror(q.alarms, fn, q.approx[fn])
  {
    forall f | f in q.approx && f != fn ensures Mirror(q.alarms, f, q.approx[f]) {
      assert f !in {fn};
    }
  }

  /** The heaps agree after an approximate alarm reschedules itself if and only if it stays its function's first. */
  lemma RescheduleMirrorsIff(q: Queue, fns: set<Fn>, r: Reaction, next: Queue)
    requires Mirrors(q, fns) && q.alarms != [] && q.alarms[0].fn in fns && Reschedules(r)
    requires next == Rescheduled(q, r)
    ensures FireHead(q, r) == Some(next)
    ensures Mirrors(next, fns) <==> StaysFirst(q.alarms, r)
  {
    var h := q.alarms;
    var fn, time := h[0].fn, Requeued(h[0], r).fireTime;
    assert h[0] in h && fn in q.approx && Mirror(h, fn, q.approx[fn]);
    AfterValid(h, r, q.uniq);
    HeapAfterUnique(h, r);
    AfterActive(h, r, q.approx, fns);
    OtherTimes(h, r, q.approx, {}, time);
    assert {} + {fn} == {fn};
    MirrorsButOne(next, fns, fn);
    RetimedMirrorIff(h, r, next.alarms, q.approx[fn]);
  }

  /** The queue after its head has rescheduled itself. */
  function Rescheduled(q: Queue, r: Reaction): Queue
    requires q.alarms != [] && Reschedules(r)
  {
    var again := Requeued(q.alarms[0], r);
    q.(alarms := HeapAfter(q.alarms, r), approx := SetTimes(q.approx, again.count, again.fireTime))
  }

  /** The heaps agree before every alarm of the pass, and at its end. */
  ghost predicate MirrorsThroughout(q: Queue, fns: set<Fn>, start: int, callbacks: Callbacks)
    requires ClockForward(callbacks, start)
    decreases DueCount(multiset(q.alarms), start)
  {
    && Mirrors(q, fns)
    && (HeadDue(q, start) ==>
          var next := FireHead(q, callbacks(q.alarms[0].count));
          next.Some? &&
          (HeapAfterDecreases(q.alarms, callbacks(q.alarms[0].count), start);
           MirrorsThroughout(next.value, fns, start, callbacks)))
  }

  /** Every due alarm of `fns` that reschedules itself comes, at its new time, before all that are behind it now. */
  ghost predicate Orderly(h: seq<Alarm>, fns: set<Fn>, start: int, callbacks: Callbacks) {
    forall a, b ::
      (a in h && b in h && a.fn == b.fn && a.fn in fns && a.fireTime <= start && Less(a, b)
       && Reschedules(callbacks(a.count))) ==>
        Precedes(callbacks(a.count).now + callbacks(a.count).delay.value, a.count, b)
  }

  lemma OrderlyTurn(h: seq<Alarm>, r: Reaction, next: seq<Alarm>, fns: set<Fn>, start: int, callbacks: Callbacks)
    requires HeadReplaced(h, r, next) && IsHeap(h) && Unique(multiset(h)) && r == callbacks(h[0].count)
    requires h[0].fireTime <= start && ClockForward(callbacks, start) && (h[0].fn in fns ==> h[0].active)
    ensures Orderly(h, fns, start, callbacks)
       <==> (h[0].fn in fns && Reschedules(r) ==> StaysFirst(h, r)) && Orderly(next, fns, start, callbacks)
  {
    HeadBeforeAll(h);
    assert h[0] in h;
    assert forall b :: b in h && b != h[0] ==> b in next;
    if Orderly(h, fns, start, callbacks) {
      forall a, b | a in next && b in next && a.fn == b.fn && a.fn in fns && a.fireTime <= start && Less(a, b)
                    && Reschedules(callbacks(a.count))
        ensures Precedes(callbacks(a.count).now + callbacks(a.count).delay.value, a.count, b)
      {
        assert a in h && a != h[0] && Less(h[0], a);
      }
    }
    if (h[0].fn in fns && Reschedules(r) ==> StaysFirst(h, r)) && Orderly(next, fns, start, callbacks) {
      forall a, b | a in h && b in h && a.fn == b.fn && a.fn in fns && a.fireTime <= start && Less(a, b)
                    && Reschedules(callbacks(a.count))
        ensures Precedes(callbacks(a.count).now + callbacks(a.count).delay.value, a.count, b)
      {
        assert b != h[0];
      }
    }
  }

  /** One turn: the pass was orderly just if the heaps agree after it and the rest is orderly. */
  lemma OrderlyHead(q: Queue, fns: set<Fn>, start: int, callbacks: Callbacks) returns (next: Queue)
    requires Mirrors(q, fns) && ClockForward(callbacks, start) && HeadDue(q, start)
    ensures FireHead(q, callbacks(q.alarms[0].count)) == Some(next)
    ensures DueCount(multiset(next.alarms), start) < DueCount(multiset(q.alarms), start)
    ensures Orderly(q.alarms, fns, start, callbacks)
       <==> Mirrors(next, fns) && Orderly(next.alarms, fns, start, callbacks)
  {
    var h := q.alarms;
    var r := callbacks(h[0].count);
    assert h[0] in h;
    HeapAfterUnique(h, r);
    HeapAfterDecreases(h, r, start);
    OrderlyTurn(h, r, HeapAfter(h, r), fns, start, callbacks);
    if h[0].fn in fns && Reschedules(r) {
      next := Rescheduled(q, r);
      RescheduleMirrorsIff(q, fns, r, next);
    } else {
      FireHeadMirrors(q, fns, r);
      next := FireHead(q, r).value;
    }
  }

  lemma FireHeadMirrors(q: Queue, fns: set<Fn>, r: Reaction)
    requires Mirrors(q, fns) && q.alarms != []
    requires q.alarms[0].fn in fns ==> !Reschedules(r)
    ensures FireHead(q, r).Some? && Mirrors(FireHead(q, r).value, fns)
    ensures FireHead(q, r).value.alarms == HeapAfter(q.alarms, r)
  {
    FireHeadKeeps(q, fns, r);
  }

  /** The heaps stay in agreement throughout a pass if and only if every rescheduled alarm stays in front. */
  lemma {:induction false} MirrorsThroughoutIff(q: Queue, fns: set<Fn>, start: int, callbacks: Callbacks)
    requires Mirrors(q, fns) && ClockForward(callbacks, start)
    ensures MirrorsThroughout(q, fns, start, callbacks) <==> Orderly(q.alarms, fns, start, callbacks)
    decreases DueCount(multiset(q.alarms), start)
  {
    if HeadDue(q, start) {
      var next := OrderlyHead(q, fns, start, callbacks);
      if Mirrors(next, fns) {
        MirrorsThroughoutIff(next, fns, start, callbacks);
      }
    } else {
      NothingDue(q.alarms, start, callbacks);
    }
  }

  /** In an orderly pass the assertion never fails, and the next pass finds the heaps in agreement again. */
  lemma {:induction false} OrderlyPassKeeps(q: Queue, fns: set<Fn>, start: int, callbacks: Callbacks)
    requires ClockForward(callbacks, start) && MirrorsThroughout(q, fns, start, callbacks)
    ensures FirePass(q, start, callbacks).ok && Mirrors(FirePass(q, start, callbacks).queue, fns)
    decreases DueCount(multiset(q.alarms), start)
  {
    if HeadDue(q, start) {
      var r := callbacks(q.alarms[0].count);
      HeapAfterDecreases(q.alarms, r, start);
      PassGoesOn(q, start, callbacks, r, FireHead(q, r).value);
      OrderlyPassKeeps(FireHead(q, r).value, fns, start, callbacks);
    } else {
      PassEnds(q, start, callbacks);
    }
  }

  // ----- Whole runs -----

  /** Functions in `fns` are registered approximately only and never cancelled, and the clock does not go back. */
  ghost predicate Permitted(q: Queue, fns: set<Fn>, op: Op) {
    match op
    case OpRegister(fn, _) => fn !in fns
    case OpRegisterApprox(fn, _, _) => fn in fns
    case OpUnregister(count) => forall a :: a in q.alarms && a.count == count ==> a.fn !in fns
    case OpFire(start, callbacks) => ClockForward(callbacks, start)
  }

  ghost predicate AllPermitted(q: Queue, fns: set<Fn>, slop: Slop, ops: seq<Op>)
    decreases |ops|
  {
    ops != [] ==> Permitted(q, fns, ops[0]) && AllPermitted(Step(q, slop, ops[0]), fns, slop, ops[1..])
  }

  /** The heaps agree before and after every operation and between the alarms of every pass. */
  ghost predicate MirrorsAlways(q: Queue, fns: set<Fn>, slop: Slop, ops: seq<Op>)
    requires AllPermitted(q, fns, slop, ops)
    decreases |ops|
  {
    && Mirrors(q, fns)
    && (ops != [] ==>
          && (ops[0].OpFire? ==> MirrorsThroughout(q, fns, ops[0].start, ops[0].callbacks))
          && MirrorsAlways(Step(q, slop, ops[0]), fns, slop, ops[1..]))
  }

  /** Every pass of the run is orderly. */
  ghost predicate AllOrderly(q: Queue, fns: set<Fn>, slop: Slop, ops: seq<Op>)
    requires AllPermitted(q, fns, slop, ops)
    decreases |ops|
  {
    ops != [] ==>
      && (ops[0].OpFire? ==> Orderly(q.alarms, fns, ops[0].start, ops[0].callbacks))
      && AllOrderly(Step(q, slop, ops[0]), fns, slop, ops[1..])
  }

  lemma PermittedKeeps(q: Queue, fns: set<Fn>, slop: Slop, op: Op)
    requires Mirrors(q, fns) && Permitted(q, fns, op)
    requires op.OpFire? ==> Orderly(q.alarms, fns, op.start, op.callbacks)
    ensures Mirrors(Step(q, slop, op), fns)
    ensures op.OpFire? ==> FirePass(q, op.start, op.callbacks).ok
  {
    match op
    case OpRegister(fn, fireTime) => RegisterKeeps(q, fns, fn, fireTime);
    case OpRegisterApprox(fn, wanted, fireTime) => RegisterApproxKeeps(q, fns, fn, wanted, slop(fn), fireTime);
    case OpUnregister(count) => UnregisterKeeps(q, fns, count);
    case OpFire(start, callbacks) =>
      MirrorsThroughoutIff(q, fns, start, callbacks);
      OrderlyPassKeeps(q, fns, start, callbacks);
  }

  /** In a run the heaps agree all the time, so that no assertion fails, if and only if every pass is orderly. */
  lemma {:induction false} MirrorsAlwaysIff(q: Queue, fns: set<Fn>, slop: Slop, ops: seq<Op>)
    requires Mirrors(q, fns) && AllPermitted(q, fns, slop, ops)
    ensures MirrorsAlways(q, fns, slop, ops) <==> AllOrderly(q, fns, slop, ops)
    decreases |ops|
  {
    if ops != [] {
      var op := ops[0];
      if op.OpFire? {
        MirrorsThroughoutIff(q, fns, op.start, op.callbacks);
      }
      if op.OpFire? ==> Orderly(q.alarms, fns, op.start, op.callbacks) {
        PermittedKeeps(q, fns, slop, op);
        MirrorsAlwaysIff(Step(q, slop, op), fns, slop, ops[1..]);
      }
    }
  }
}
