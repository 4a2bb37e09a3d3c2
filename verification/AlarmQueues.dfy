/**
 `AlarmQueue`: the class whose methods push and pop the heaps in place, each proved to do what the function
 of AlarmPasses says.
 */
module AlarmQueues {
  import opened Basics
  import opened AlarmHeaps
  import opened AlarmPasses

  class AlarmQueue {
    var alarms: seq<Alarm>
    var uniqCount: nat
    var approxAlarmsScheduled: map<Fn, seq<Alarm>>

    ghost function View(): Queue
      reads this
    {
      Queue(alarms, uniqCount, approxAlarmsScheduled)
    }

    constructor ()
      ensures View() == EMPTY_QUEUE
    {
      alarms, uniqCount, approxAlarmsScheduled := [], 0, map[];
    }

    /** A negative delay raises. An alarm fired at once is returned without being queued. */
    method RegisterAlarm(fireDelay: int, fn: Fn, now: int, fireImmediately: bool) returns (id: Option<Alarm>)
      modifies this
      ensures id == if fireDelay < 0 then None else Some(Alarm(now + fireDelay, old(uniqCount), fn, true))
      ensures View() == if fireDelay < 0 || (fireImmediately && fireDelay == 0) then old(View())
                        else Register(old(View()), fn, now + fireDelay)
    {
      if fireDelay < 0 {
        return None;
      }
      var alarm := Alarm(now + fireDelay, uniqCount, fn, true);
      if fireImmediately && fireDelay == 0 {
        return Some(alarm);
      }
      alarms := HeapPush(alarms, alarm);
      uniqCount := uniqCount + 1;
      id := Some(alarm);
    }

    /** `now` is the clock at the window check, `later` the clock at the registration that follows. */
    method RegisterApproxAlarm(fireDelay: int, slop: int, fn: Fn, now: int, later: int) returns (raised: bool)
      modifies this
      ensures raised == (fireDelay < 0 || slop < 0)
      ensures View() == if raised then old(View())
                        else RegisterApprox(old(View()), fn, now + fireDelay, slop, later + fireDelay)
    {
      if fireDelay < 0 || slop < 0 {
        return true;
      }
      raised := false;
      if fn in approxAlarmsScheduled {
        var scheduled := approxAlarmsScheduled[fn];
        var lateTime, earlyTime := fireDelay + now + slop, fireDelay + now - slop;
        for i := 0 to |scheduled|
          invariant View() == old(View())
          invariant forall j :: 0 <= j < i ==> !(earlyTime <= scheduled[j].fireTime <= lateTime)
        {
          if earlyTime <= scheduled[i].fireTime <= lateTime {
            return;
          }
        }
        var id := RegisterAlarm(fireDelay, fn, later, false);
        approxAlarmsScheduled := approxAlarmsScheduled[fn := HeapPush(scheduled, id.value)];
      } else {
        var id := RegisterAlarm(fireDelay, fn, later, false);
        approxAlarmsScheduled := approxAlarmsScheduled[fn := [id.value]];
      }
    }

    method UnregisterAlarm(count: nat)
      modifies this
      ensures View() == Unregister(old(View()), count)
      ensures alarms != [] ==> alarms[0].active
    {
      alarms := Deactivate(alarms, count);
      approxAlarmsScheduled := map f | f in approxAlarmsScheduled :: Deactivate(approxAlarmsScheduled[f], count);
      while alarms != [] && !alarms[0].active
        invariant DropInactiveHeads(alarms) == DropInactiveHeads(Deactivate(old(alarms), count))
        invariant uniqCount == old(uniqCount)
        invariant approxAlarmsScheduled == Unregister(old(View()), count).approx
        decreases |alarms|
      {
        alarms := HeapPop(alarms);
      }
    }

    /** `_pop_and_cleanup_approx_alarm`; false where its assertion fails. */
    method PopAndCleanUp(a: Alarm) returns (ok: bool)
      requires a.fn in approxAlarmsScheduled
      modifies this`approxAlarmsScheduled
      ensures var rest := PopApprox(old(approxAlarmsScheduled), a);
              ok == rest.Some? && approxAlarmsScheduled == if ok then rest.value else old(approxAlarmsScheduled)
    {
      var heap := approxAlarmsScheduled[a.fn];
      if heap == [] || heap[0].count != a.count {
        return false;
      }
      heap := HeapPop(heap);
      approxAlarmsScheduled :=
        if heap == [] then approxAlarmsScheduled - {a.fn} else approxAlarmsScheduled[a.fn := heap];
      ok := true;
    }

    /** What firing the popped alarm does to the approximate alarms. */
    method UpdateApprox(a: Alarm, r: Reaction) returns (ok: bool)
      modifies this`approxAlarmsScheduled
      ensures var after := ApproxAfter(old(approxAlarmsScheduled), a, r);
              ok == after.Some? && approxAlarmsScheduled == if ok then after.value else old(approxAlarmsScheduled)
    {
      ok := true;
      if a.active {
        if Reschedules(r) {
          approxAlarmsScheduled := SetTimes(approxAlarmsScheduled, a.count, Requeued(a, r).fireTime);
        } else if a.fn in approxAlarmsScheduled {
          ok := PopAndCleanUp(a);
        }
      }
    }

    /** Pops the head and, if it is active, fires it: the body of the loop in `fire_alarms`. */
    method FireFirst(r: Reaction) returns (a: Alarm, ok: bool)
      requires alarms != []
      modifies this`alarms, this`approxAlarmsScheduled
      ensures a == old(alarms)[0]
      ensures var after := ApproxAfter(old(approxAlarmsScheduled), a, r);
              ok == after.Some? && approxAlarmsScheduled == if ok then after.value else old(approxAlarmsScheduled)
      ensures alarms == if ok then HeapAfter(old(alarms), r) else HeapPop(old(alarms))
    {
      a := alarms[0];
      alarms := HeapPop(alarms);
      ok := UpdateApprox(a, r);
      if ok && a.active && Reschedules(r) {
        alarms := HeapPush(alarms, Requeued(a, r));
      }
    }

    /** One turn of the loop in `fire_alarms`, towards what the whole pass is to end with. */
    method FireNext(start: int, callbacks: Callbacks, before: seq<Alarm>, ghost end: Pass)
        returns (fired: seq<Alarm>, ok: bool)
      requires ClockForward(callbacks, start) && HeadDue(View(), start)
      requires Before(before, FirePass(View(), start, callbacks)) == end
      modifies this`alarms, this`approxAlarmsScheduled
      ensures ok ==> DueCount(multiset(alarms), start) < DueCount(multiset(old(alarms)), start)
      ensures ok ==> Before(fired, FirePass(View(), start, callbacks)) == end
      ensures !ok ==> Pass(View(), fired, false) == end
    {
      ghost var q := View();
      var r := callbacks(alarms[0].count);
      var a;
      a, ok := FireFirst(r);
      fired := if a.active then before + [a] else before;
      if ok {
        TurnGoesOn(before, q, start, callbacks, r, View(), fired);
      } else {
        TurnFails(before, q, start, callbacks, r, View(), fired);
      }
    }

    /** Fires what is due at `start`; `ok` is false if the assertion about the approximate heads fails. */
    method FireAlarms(start: int, callbacks: Callbacks) returns (fired: seq<Alarm>, ok: bool)
      requires ClockForward(callbacks, start)
      modifies this
      ensures Pass(View(), fired, ok) == FirePass(old(View()), start, callbacks)
    {
      fired, ok := [], true;
      ghost var end := FirePass(View(), start, callbacks);
      BeforeNothing(end);
      while ok && alarms != [] && alarms[0].fireTime <= start
        invariant ok ==> Before(fired, FirePass(View(), start, callbacks)) == end
        invariant !ok ==> Pass(View(), fired, false) == end
        decreases ok, DueCount(multiset(alarms), start)
      {
        fired, ok := FireNext(start, callbacks, fired, end);
      }
      if ok {
        PassEnds(View(), start, callbacks);
        assert fired + [] == fired;
      }
    }
  }

  /** One turn of the pass, with what was fired before it. */
  lemma TurnGoesOn(before: seq<Alarm>, q: Queue, start: int, callbacks: Callbacks, r: Reaction,
                   next: Queue, fired: seq<Alarm>)
    requires ClockForward(callbacks, start) && HeadDue(q, start) && r == callbacks(q.alarms[0].count)
    requires next.uniq == q.uniq && next.alarms == HeapAfter(q.alarms, r)
    requires ApproxAfter(q.approx, q.alarms[0], r) == Some(next.approx)
    requires fired == if q.alarms[0].active then before + [q.alarms[0]] else before
    ensures DueCount(multiset(next.alarms), start) < DueCount(multiset(q.alarms), start)
    ensures Before(before, FirePass(q, start, callbacks)) == Before(fired, FirePass(next, start, callbacks))
  {
    HeapAfterDecreases(q.alarms, r, start);
    PassGoesOn(q, start, callbacks, r, next);
    BeforeTwice(before, if q.alarms[0].active then [q.alarms[0]] else [], FirePass(next, start, callbacks));
    assert before + [] == before;
  }

  lemma TurnFails(before: seq<Alarm>, q: Queue, start: int, callbacks: Callbacks, r: Reaction,
                  next: Queue, fired: seq<Alarm>)
    requires ClockForward(callbacks, start) && HeadDue(q, start) && r == callbacks(q.alarms[0].count)
    requires next == q.(alarms := HeapPop(q.alarms)) && ApproxAfter(q.approx, q.alarms[0], r).None?
    requires fired == if q.alarms[0].active then before + [q.alarms[0]] else before
    ensures Before(before, FirePass(q, start, callbacks)) == Pass(next, fired, false)
  {
    PassFails(q, start, callbacks, r);
  }
}
