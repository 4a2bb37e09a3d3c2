/**
 The alarm queue as a value: registering, cancelling and firing. An `AlarmId` that stands in two heaps is one
 object, so writing its fire time or its active flag writes every heap entry with its count.
 */
module AlarmPasses {
  import opened Basics
  import opened AlarmHeaps

  datatype Queue = Queue(alarms: seq<Alarm>, uniq: nat, approx: map<Fn, seq<Alarm>>)

  const EMPTY_QUEUE := Queue([], 0, map[])

  /** What a callback does when fired, and the clock afterwards. */
  datatype Reaction = Raises | Returns(delay: Option<int>, now: int)

  /** The reaction of each alarm, by its count. */
  type Callbacks = nat -> Reaction

  predicate Reschedules(r: Reaction) {
    r.Returns? && r.delay.Some? && r.delay.value > 0
  }

  function Requeued(a: Alarm, r: Reaction): Alarm
    requires Reschedules(r)
  {
    a.(fireTime := r.now + r.delay.value)
  }

  // ----- Registering -----

  function Register(q: Queue, fn: Fn, fireTime: int): Queue {
    q.(alarms := HeapPush(q.alarms, Alarm(fireTime, q.uniq, fn, true)), uniq := q.uniq + 1)
  }

  predicate Near(h: seq<Alarm>, time: int, slop: int) {
    exists i :: 0 <= i < |h| && time - slop <= h[i].fireTime <= time + slop
  }

  /** The window is checked around `wanted`; the alarm is then set for `fireTime`, from a later clock reading. */
  function RegisterApprox(q: Queue, fn: Fn, wanted: int, slop: int, fireTime: int): Queue {
    var a := Alarm(fireTime, q.uniq, fn, true);
    if fn !in q.approx then Register(q, fn, fireTime).(approx := q.approx[fn := [a]])
    else if Near(q.approx[fn], wanted, slop) then q
    else Register(q, fn, fireTime).(approx := q.approx[fn := HeapPush(q.approx[fn], a)])
  }

  // ----- Cancelling -----

  function Deactivate(h: seq<Alarm>, count: nat): (r: seq<Alarm>)
    ensures |r| == |h|
    ensures forall i :: 0 <= i < |h| ==> r[i] == if h[i].count == count then h[i].(active := false) else h[i]
  {
    seq(|h|, i requires 0 <= i < |h| => if h[i].count == count then h[i].(active := false) else h[i])
  }

  function DropInactiveHeads(h: seq<Alarm>): (r: seq<Alarm>)
    ensures IsHeap(h) ==> IsHeap(r)
    ensures r != [] ==> r[0].active
    decreases |h|
  {
    if h != [] && !h[0].active then DropInactiveHeads(HeapPop(h)) else h
  }

  function Unregister(q: Queue, count: nat): Queue {
    q.(alarms := DropInactiveHeads(Deactivate(q.alarms, count)),
       approx := map f | f in q.approx :: Deactivate(q.approx[f], count))
  }

  // ----- Firing -----

  function SetTime(h: seq<Alarm>, count: nat, time: int): (r: seq<Alarm>)
    ensures |r| == |h|
  {
    seq(|h|, i requires 0 <= i < |h| => if h[i].count == count then h[i].(fireTime := time) else h[i])
  }

  /** An alarm's new time, written wherever the alarm stands. */
  function SetTimes(approx: map<Fn, seq<Alarm>>, count: nat, time: int): map<Fn, seq<Alarm>> {
    map f | f in approx :: SetTime(approx[f], count, time)
  }

  /** `_pop_and_cleanup_approx_alarm`; None where its assertion about the head fails. */
  function PopApprox(approx: map<Fn, seq<Alarm>>, a: Alarm): Option<map<Fn, seq<Alarm>>>
    requires a.fn in approx
  {
    var h := approx[a.fn];
    if h == [] || h[0].count != a.count then None
    else
      var rest := HeapPop(h);
      Some(if rest == [] then approx - {a.fn} else approx[a.fn := rest])
  }

  predicate Repeats(a: Alarm, r: Reaction) {
    a.active && Reschedules(r)
  }

  /** The heap after its head was popped and pushed again if it is to repeat. */
  function HeapAfter(h: seq<Alarm>, r: Reaction): (s: seq<Alarm>)
    requires h != []
    ensures IsHeap(h) ==> IsHeap(s)
  {
    if Repeats(h[0], r) then HeapPush(HeapPop(h), Requeued(h[0], r)) else HeapPop(h)
  }

  /** The approximate alarms after alarm `a` was popped and, if active, fired; None where the assertion fails. */
  function ApproxAfter(approx: map<Fn, seq<Alarm>>, a: Alarm, r: Reaction): Option<map<Fn, seq<Alarm>>> {
    if !a.active then Some(approx)
    else if Reschedules(r) then Some(SetTimes(approx, a.count, Requeued(a, r).fireTime))
    else if a.fn in approx then PopApprox(approx, a)
    else Some(approx)
  }

  function FireHead(q: Queue, r: Reaction): Option<Queue>
    requires q.alarms != []
  {
    var approx := ApproxAfter(q.approx, q.alarms[0], r);
    if approx.None? then None else Some(q.(alarms := HeapAfter(q.alarms, r), approx := approx.value))
  }

  /** The clock never shows a time before the start of the pass. */
  ghost predicate ClockForward(callbacks: Callbacks, start: int) {
    forall c :: Reschedules(callbacks(c)) ==> callbacks(c).now >= start
  }

  ghost function DueCount(m: multiset<Alarm>, start: int): nat
    decreases |m|
  {
    if m == multiset{} then 0
    else
      var a :| a in m;
      (if a.fireTime <= start then 1 else 0) + DueCount(m - multiset{a}, start)
  }

  lemma {:induction false} DueCountSplit(m: multiset<Alarm>, a: Alarm, start: int)
    requires a in m
    ensures DueCount(m, start) == (if a.fireTime <= start then 1 else 0) + DueCount(m - multiset{a}, start)
    decreases |m|
  {
    var p :| p in m && DueCount(m, start) == (if p.fireTime <= start then 1 else 0) + DueCount(m - multiset{p}, start);
    if p != a {
      DueCountSplit(m - multiset{p}, a, start);
      DueCountSplit(m - multiset{a}, p, start);
      assert m - multiset{p} - multiset{a} == m - multiset{a} - multiset{p};
    }
  }

  predicate HeadDue(q: Queue, start: int) {
    q.alarms != [] && q.alarms[0].fireTime <= start
  }

  lemma HeapAfterDecreases(h: seq<Alarm>, r: Reaction, start: int)
    requires h != [] && h[0].fireTime <= start && (Reschedules(r) ==> r.now >= start)
    ensures DueCount(multiset(HeapAfter(h, r)), start) < DueCount(multiset(h), start)
  {
    var a := h[0];
    var rest := HeapPop(h);
    assert multiset(rest) == multiset(h) - multiset{a};
    DueCountSplit(multiset(h), a, start);
    if Repeats(a, r) {
      var b := Requeued(a, r);
      var next := HeapPush(rest, b);
      DueCountSplit(multiset(next), b, start);
      assert multiset(next) - multiset{b} == multiset(rest);
    }
  }

  /** The queue a pass leaves, the alarms it fired in order, and whether the assertion held throughout. */
  datatype Pass = Pass(queue: Queue, fired: seq<Alarm>, ok: bool)

  /** The pass with `fired` fired before it. */
  function Before(fired: seq<Alarm>, p: Pass): Pass {
    p.(fired := fired + p.fired)
  }

  lemma BeforeNothing(p: Pass)
    ensures Before([], p) == p
  {
    assert [] + p.fired == p.fired;
  }

  lemma BeforeTwice(first: seq<Alarm>, second: seq<Alarm>, p: Pass)
    ensures Before(first, Before(second, p)) == Before(first + second, p)
  {
    assert first + (second + p.fired) == first + second + p.fired;
  }

  function FirePass(q: Queue, start: int, callbacks: Callbacks): Pass
    requires ClockForward(callbacks, start)
    decreases DueCount(multiset(q.alarms), start)
  {
    if !HeadDue(q, start) then Pass(q, [], true)
    else
      var a := q.alarms[0];
      var next := FireHead(q, callbacks(a.count));
      if next.None? then Pass(q.(alarms := HeapPop(q.alarms)), [a], false)
      else
        HeapAfterDecreases(q.alarms, callbacks(a.count), start);
        var rest := FirePass(next.value, start, callbacks);
        if a.active then Before([a], rest) else rest
  }

  lemma PassEnds(q: Queue, start: int, callbacks: Callbacks)
    requires ClockForward(callbacks, start) && !HeadDue(q, start)
    ensures FirePass(q, start, callbacks) == Pass(q, [], true)
  {
  }

  lemma PassFails(q: Queue, start: int, callbacks: Callbacks, r: Reaction)
    requires ClockForward(callbacks, start) && HeadDue(q, start) && r == callbacks(q.alarms[0].count)
    requires FireHead(q, r).None?
    ensures FirePass(q, start, callbacks) == Pass(q.(alarms := HeapPop(q.alarms)), [q.alarms[0]], false)
  {
  }

  lemma PassGoesOn(q: Queue, start: int, callbacks: Callbacks, r: Reaction, next: Queue)
    requires ClockForward(callbacks, start) && HeadDue(q, start) && r == callbacks(q.alarms[0].count)
    requires FireHead(q, r) == Some(next)
    ensures FirePass(q, start, callbacks)
         == Before(if q.alarms[0].active then [q.alarms[0]] else [], FirePass(next, start, callbacks))
  {
    var p := FirePass(next, start, callbacks);
    assert [] + p.fired == p.fired;
  }

  // ----- One pass fires exactly what is due -----

  /** No alarm stands twice in the heap, and no two share a count. */
  ghost predicate Unique(m: multiset<Alarm>) {
    && (forall a :: m[a] <= 1)
    && (forall a, b :: a in m && b in m && a.count == b.count ==> a == b)
  }

  /** By fire time, then by count. */
  ghost predicate InOrder(s: seq<Alarm>) {
    forall i, j :: 0 <= i < j < |s| ==>
      s[i].fireTime < s[j].fireTime || (s[i].fireTime == s[j].fireTime && s[i].count < s[j].count)
  }

  /** `fired` lists, in order, exactly the active alarms that are due. */
  ghost predicate Fires(h: seq<Alarm>, start: int, fired: seq<Alarm>) {
    && InOrder(fired)
    && (forall a :: a in fired <==> a in h && a.active && a.fireTime <= start)
  }

  /** `b` is `a` again, the delay its callback returned, if positive, after the clock the callback left. */
  ghost predicate IsRepeat(a: Alarm, r: Reaction, b: Alarm) {
    && r.Returns? && r.delay.Some? && r.delay.value > 0
    && b.fireTime == r.now + r.delay.value && b.count == a.count && b.fn == a.fn && b.active
  }

  lemma RequeuedIsRepeat(a: Alarm, r: Reaction, b: Alarm)
    requires a.active
    ensures IsRepeat(a, r, b) <==> Repeats(a, r) && b == Requeued(a, r)
  {
  }

  /** `b` is an active alarm of `h` that was due, and is to repeat, at its next time. */
  ghost predicate Repeated(h: seq<Alarm>, start: int, callbacks: Callbacks, b: Alarm) {
    exists a :: a in h && a.active && a.fireTime <= start && IsRepeat(a, callbacks(a.count), b)
  }

  /** What stays queued: what was not due, untouched, and what was fired and repeats, each at its next time. */
  ghost predicate Leaves(h: seq<Alarm>, start: int, callbacks: Callbacks, left: seq<Alarm>) {
    forall b :: b in left <==> (b in h && b.fireTime > start) || Repeated(h, start, callbacks, b)
  }

  lemma HeadIsFirst(h: seq<Alarm>, a: Alarm)
    requires IsHeap(h) && Unique(multiset(h)) && a in h && a != h[0]
    ensures Less(h[0], a)
  {
    var i :| 0 <= i < |h| && h[i] == a;
    RootIsLeast(h, i);
    assert a in multiset(h) && h[0] in multiset(h);
  }

  lemma PopUnique(h: seq<Alarm>)
    requires h != [] && Unique(multiset(h))
    ensures Unique(multiset(HeapPop(h)))
    ensures forall a :: a in HeapPop(h) <==> a in h && a != h[0]
  {
    var rest := HeapPop(h);
    assert multiset(rest) == multiset(h) - multiset{h[0]};
    forall a ensures a in rest <==> a in h && a != h[0] {
      assert a in rest <==> a in multiset(rest);
      assert a in h <==> a in multiset(h);
    }
  }

  lemma PushMembers(h: seq<Alarm>, a: Alarm)
    ensures forall b :: b in HeapPush(h, a) <==> b in h || b == a
  {
    forall b ensures b in HeapPush(h, a) <==> b in h || b == a {
      assert b in HeapPush(h, a) <==> b in multiset(HeapPush(h, a));
      assert b in h <==> b in multiset(h);
    }
  }

  lemma PushUnique(h: seq<Alarm>, a: Alarm)
    requires Unique(multiset(h)) && forall b :: b in h ==> b.count != a.count
    ensures Unique(multiset(HeapPush(h, a)))
  {
    assert multiset(HeapPush(h, a)) == multiset(h) + multiset{a};
    forall b | b in multiset(h) ensures b.count != a.count {
      assert b in h;
    }
  }

  lemma HeapAfterUnique(h: seq<Alarm>, r: Reaction)
    requires h != [] && Unique(multiset(h))
    ensures Unique(multiset(HeapAfter(h, r)))
    ensures forall b :: b in HeapAfter(h, r) <==>
              (b in h && b != h[0]) || (Repeats(h[0], r) && b == Requeued(h[0], r))
  {
    PopUnique(h);
    if Repeats(h[0], r) {
      var rest, b := HeapPop(h), Requeued(h[0], r);
      forall a | a in rest ensures a.count != b.count {
        assert a in multiset(h) && h[0] in multiset(h);
      }
      PushMembers(rest, b);
      PushUnique(rest, b);
    }
  }

  lemma NothingDue(h: seq<Alarm>, start: int, callbacks: Callbacks)
    requires IsHeap(h) && (h == [] || h[0].fireTime > start)
    ensures Fires(h, start, []) && Leaves(h, start, callbacks, h)
  {
    forall a | a in h ensures a.fireTime > start {
      var i :| 0 <= i < |h| && h[i] == a;
      RootIsLeast(h, i);
    }
  }

  lemma InOrderCons(a: Alarm, s: seq<Alarm>)
    requires InOrder(s) && forall b :: b in s ==> Less(a, b)
    ensures InOrder([a] + s)
  {
    forall i, j | 0 <= i < j < |[a] + s| ensures Less(([a] + s)[i], ([a] + s)[j]) {
      assert ([a] + s)[j] == s[j - 1] && s[j - 1] in s;
    }
  }

  /** `next` holds what `h` does without its head, and the head again if it repeats. */
  ghost predicate HeadReplaced(h: seq<Alarm>, r: Reaction, next: seq<Alarm>) {
    && h != []
    && forall b :: b in next <==> (b in h && b != h[0]) || (Repeats(h[0], r) && b == Requeued(h[0], r))
  }

  lemma FiresMore(h: seq<Alarm>, next: seq<Alarm>, start: int, r: Reaction, fired: seq<Alarm>)
    requires HeadReplaced(h, r, next) && IsHeap(h) && Unique(multiset(h)) && h[0].fireTime <= start
    requires Reschedules(r) ==> r.now >= start
    requires Fires(next, start, fired)
    ensures Fires(h, start, if h[0].active then [h[0]] + fired else fired)
  {
    forall a | a in fired ensures Less(h[0], a) {
      HeadIsFirst(h, a);
    }
    InOrderCons(h[0], fired);
  }

  lemma RepeatedMore(h: seq<Alarm>, next: seq<Alarm>, start: int, callbacks: Callbacks, b: Alarm)
    requires h != [] && HeadReplaced(h, callbacks(h[0].count), next)
    requires h[0].fireTime <= start && ClockForward(callbacks, start)
    ensures Repeated(h, start, callbacks, b)
       <==> Repeated(next, start, callbacks, b) || (h[0].active && IsRepeat(h[0], callbacks(h[0].count), b))
  {
    assert h[0] in h;
    if Repeated(next, start, callbacks, b) {
      var a :| a in next && a.active && a.fireTime <= start && IsRepeat(a, callbacks(a.count), b);
      assert a in h;
    }
    if Repeated(h, start, callbacks, b) {
      var a :| a in h && a.active && a.fireTime <= start && IsRepeat(a, callbacks(a.count), b);
      assert a == h[0] || a in next;
    }
  }

  lemma LeavesMore(h: seq<Alarm>, next: seq<Alarm>, start: int, callbacks: Callbacks, left: seq<Alarm>)
    requires h != [] && HeadReplaced(h, callbacks(h[0].count), next)
    requires h[0].fireTime <= start && ClockForward(callbacks, start)
    requires Leaves(next, start, callbacks, left)
    ensures Leaves(h, start, callbacks, left)
  {
    var r := callbacks(h[0].count);
    forall b ensures b in left <==> (b in h && b.fireTime > start) || Repeated(h, start, callbacks, b) {
      RepeatedMore(h, next, start, callbacks, b);
      if h[0].active {
        RequeuedIsRepeat(h[0], r, b);
      }
    }
  }

  /**
   A pass fires every active alarm that is due at its start exactly once, in order of fire time and count, and no
   other; repeating ones are queued again, strictly later than the start, and the rest of the queue is untouched.
   */
  lemma {:induction false} PassFiresExactlyDue(q: Queue, start: int, callbacks: Callbacks)
    requires IsHeap(q.alarms) && Unique(multiset(q.alarms)) && ClockForward(callbacks, start)
    requires FirePass(q, start, callbacks).ok
    ensures var p := FirePass(q, start, callbacks);
            && Fires(q.alarms, start, p.fired) && Leaves(q.alarms, start, callbacks, p.queue.alarms)
            && IsHeap(p.queue.alarms) && Unique(multiset(p.queue.alarms)) && p.queue.uniq == q.uniq
            && (forall a :: a in p.queue.alarms ==> a.fireTime > start)
    decreases DueCount(multiset(q.alarms), start)
  {
    if HeadDue(q, start) {
      var r := callbacks(q.alarms[0].count);
      var next := FireHead(q, r).value;
      HeapAfterDecreases(q.alarms, r, start);
      HeapAfterUnique(q.alarms, r);
      PassFiresExactlyDue(next, start, callbacks);
      FiresMore(q.alarms, next.alarms, start, r, FirePass(next, start, callbacks).fired);
      LeavesMore(q.alarms, next.alarms, start, callbacks, FirePass(next, start, callbacks).queue.alarms);
    } else {
      NothingDue(q.alarms, start, callbacks);
    }
  }
}
