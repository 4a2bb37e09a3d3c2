/**
 Approximate alarms live in two heaps at once: the main one and a heap of their function. As long as their
 callbacks do not reschedule themselves, the two agree and the assertion about the heads never fails.
 */
module ApproxAlarms {
  import opened Basics
  import opened AlarmHeaps
  import opened AlarmPasses

  /** `s` is a heap of exactly the alarms of `fn` in the main heap. */
  ghost predicate Mirror(h: seq<Alarm>, fn: Fn, s: seq<Alarm>) {
    && s != [] && IsHeap(s) && Unique(multiset(s))
    && (forall a :: a in s <==> a in h && a.fn == fn)
  }

  ghost predicate HeapValid(h: seq<Alarm>, uniq: nat) {
    IsHeap(h) && Unique(multiset(h)) && forall a :: a in h ==> a.count < uniq
  }

  /** The functions in `fns` are scheduled as approximate alarms only. */
  ghost predicate Mirrors(q: Queue, fns: set<Fn>) {
    && HeapValid(q.alarms, q.uniq)
    && q.approx.Keys <= fns
    && (forall f :: f in q.approx ==> Mirror(q.alarms, f, q.approx[f]))
    && (forall a :: a in q.alarms && a.fn in fns ==> a.active && a.fn in q.approx)
  }

  /** The distance that `slop` leaves between two alarms when the clock moves by `drift` during registration. */
  type Slop = Fn -> int

  ghost predicate Spaced(h: seq<Alarm>, fns: set<Fn>, slop: Slop, drift: nat) {
    forall a, b :: a in h && b in h && a != b && a.fn == b.fn && a.fn in fns ==>
      a.fireTime - b.fireTime > slop(a.fn) - drift || b.fireTime - a.fireTime > slop(a.fn) - drift
  }

  // ----- Heap membership -----

  lemma PushValid(h: seq<Alarm>, a: Alarm)
    requires HeapValid(h, a.count)
    ensures HeapValid(HeapPush(h, a), a.count + 1)
  {
    PushMembers(h, a);
    PushUnique(h, a);
  }

  // ----- Registering -----

  /** A plain registration adds one alarm, under a fresh count, and changes nothing else. */
  lemma RegisterKeeps(q: Queue, fns: set<Fn>, fn: Fn, fireTime: int)
    requires Mirrors(q, fns) && fn !in fns
    ensures Mirrors(Register(q, fn, fireTime), fns)
    ensures var r := Register(q, fn, fireTime);
            && multiset(r.alarms) == multiset(q.alarms) + multiset{Alarm(fireTime, q.uniq, fn, true)}
            && r.uniq == q.uniq + 1 && r.approx == q.approx
  {
    var a := Alarm(fireTime, q.uniq, fn, true);
    PushValid(q.alarms, a);
    PushMembers(q.alarms, a);
    var r := Register(q, fn, fireTime);
    forall f | f in r.approx ensures Mirror(r.alarms, f, r.approx[f]) {
      assert Mirror(q.alarms, f, q.approx[f]);
    }
  }

  lemma MirrorPush(h: seq<Alarm>, fn: Fn, s: seq<Alarm>, a: Alarm)
    requires HeapValid(h, a.count) && a.fn == fn && Mirror(h, fn, s)
    ensures Mirror(HeapPush(h, a), fn, HeapPush(s, a))
  {
    PushMembers(h, a);
    PushMembers(s, a);
    PushUnique(s, a);
    assert a in HeapPush(s, a);
  }

  lemma MirrorFirst(h: seq<Alarm>, fn: Fn, a: Alarm)
    requires a.fn == fn && forall b :: b in h ==> b.fn != fn
    ensures Mirror(HeapPush(h, a), fn, [a])
  {
    PushMembers(h, a);
    assert multiset([a]) == multiset{a};
  }

  lemma MirrorOther(h: seq<Alarm>, fn: Fn, s: seq<Alarm>, a: Alarm)
    requires a.fn != fn && Mirror(h, fn, s)
    ensures Mirror(HeapPush(h, a), fn, s)
  {
    PushMembers(h, a);
  }

  lemma RegisterApproxKeeps(q: Queue, fns: set<Fn>, fn: Fn, wanted: int, slop: int, fireTime: int)
    requires Mirrors(q, fns) && fn in fns
    ensures Mirrors(RegisterApprox(q, fn, wanted, slop, fireTime), fns)
  {
    var a := Alarm(fireTime, q.uniq, fn, true);
    var r := RegisterApprox(q, fn, wanted, slop, fireTime);
    if r != q {
      PushValid(q.alarms, a);
      PushMembers(q.alarms, a);
      forall f | f in r.approx ensures Mirror(r.alarms, f, r.approx[f]) {
        if f != fn {
          MirrorOther(q.alarms, f, q.approx[f], a);
        } else if fn in q.approx {
          MirrorPush(q.alarms, fn, q.approx[fn], a);
        } else {
          MirrorFirst(q.alarms, fn, a);
        }
      }
    }
  }

  /** A registration that is not absorbed keeps its distance, up to the clock's drift, from every pending alarm. */
  lemma RegisterApproxSpaced(q: Queue, fns: set<Fn>, slop: Slop, drift: nat, fn: Fn, wanted: int, fireTime: int)
    requires Mirrors(q, fns) && fn in fns && Spaced(q.alarms, fns, slop, drift)
    requires wanted <= fireTime <= wanted + drift
    ensures Spaced(RegisterApprox(q, fn, wanted, slop(fn), fireTime).alarms, fns, slop, drift)
  {
    var a := Alarm(fireTime, q.uniq, fn, true);
    PushMembers(q.alarms, a);
    if fn in q.approx && !Near(q.approx[fn], wanted, slop(fn)) {
      forall b | b in q.alarms && b.fn == fn ensures b.fireTime < wanted - slop(fn) || b.fireTime > wanted + slop(fn) {
        assert b in q.approx[fn];
        var i :| 0 <= i < |q.approx[fn]| && q.approx[fn][i] == b;
      }
    }
  }

  /** Every pending alarm of `fn` is more than `slop` away from `time`. */
  ghost predicate Far(h: seq<Alarm>, fn: Fn, time: int, slop: int) {
    forall b :: b in h && b.fn == fn ==> b.fireTime < time - slop || b.fireTime > time + slop
  }

  /**
   A registration is absorbed exactly when an alarm of the function is pending in the window around the time wanted;
   otherwise one alarm is added, at its fire time, and nothing else changes in the main heap.
   */
  lemma RegisterApproxAdds(q: Queue, fns: set<Fn>, fn: Fn, wanted: int, slop: int, fireTime: int)
    requires Mirrors(q, fns) && fn in fns
    ensures var r := RegisterApprox(q, fn, wanted, slop, fireTime);
            if exists b :: b in q.alarms && b.fn == fn && wanted - slop <= b.fireTime <= wanted + slop then r == q
            else
              && multiset(r.alarms) == multiset(q.alarms) + multiset{Alarm(fireTime, q.uniq, fn, true)}
              && r.uniq == q.uniq + 1 && r.approx.Keys == q.approx.Keys + {fn}
  {
    if fn in q.approx {
      FarFromMirror(q.alarms, fn, q.approx[fn], wanted, slop);
    }
  }

  lemma FarFromMirror(h: seq<Alarm>, fn: Fn, s: seq<Alarm>, time: int, slop: int)
    requires Mirror(h, fn, s)
    ensures !Near(s, time, slop) <==> Far(h, fn, time, slop)
  {
    if !Near(s, time, slop) {
      forall b | b in h && b.fn == fn ensures b.fireTime < time - slop || b.fireTime > time + slop {
        assert b in s;
        var i :| 0 <= i < |s| && s[i] == b;
      }
    } else {
      var i :| 0 <= i < |s| && time - slop <= s[i].fireTime <= time + slop;
      assert s[i] in s;
    }
  }

  /**
   A registration that is not absorbed leaves pending alarms pairwise more than the slop apart if and only if the
   window check would pass at the fire time, too, which comes from a later reading of the clock.
   */
  lemma RegisterSpacedIff(q: Queue, fns: set<Fn>, slop: Slop, fn: Fn, wanted: int, fireTime: int)
    requires Mirrors(q, fns) && fn in fns && Spaced(q.alarms, fns, slop, 0)
    requires fn in q.approx ==> !Near(q.approx[fn], wanted, slop(fn))
    ensures Spaced(RegisterApprox(q, fn, wanted, slop(fn), fireTime).alarms, fns, slop, 0)
       <==> (fn in q.approx ==> !Near(q.approx[fn], fireTime, slop(fn)))
  {
    PushSpacedIff(q.alarms, Alarm(fireTime, q.uniq, fn, true), fns, slop);
    if fn in q.approx {
      FarFromMirror(q.alarms, fn, q.approx[fn], fireTime, slop(fn));
    }
  }

  lemma PushSpacedIff(h: seq<Alarm>, a: Alarm, fns: set<Fn>, slop: Slop)
    requires Spaced(h, fns, slop, 0) && a.fn in fns && HeapValid(h, a.count)
    ensures Spaced(HeapPush(h, a), fns, slop, 0) <==> Far(h, a.fn, a.fireTime, slop(a.fn))
  {
    var pushed := HeapPush(h, a);
    PushMembers(h, a);
    assert a in pushed && a !in h;
  }

  /** One alarm of `fn`, pending at `time`. */
  function OnePending(fn: Fn, time: int): Queue {
    Queue([Alarm(time, 0, fn, true)], 1, map[fn := [Alarm(time, 0, fn, true)]])
  }

  lemma OnePendingMirrors(fns: set<Fn>, slop: Slop, fn: Fn, time: int)
    requires fn in fns
    ensures Mirrors(OnePending(fn, time), fns) && Spaced(OnePending(fn, time).alarms, fns, slop, 0)
  {
    var a := Alarm(time, 0, fn, true);
    assert multiset([a]) == multiset{a};
  }

  ghost predicate SpacesAll(fns: set<Fn>, slop: Slop, fn: Fn, wanted: int, fireTime: int) {
    forall q: Queue :: Mirrors(q, fns) && Spaced(q.alarms, fns, slop, 0) ==>
      Spaced(RegisterApprox(q, fn, wanted, slop(fn), fireTime).alarms, fns, slop, 0)
  }

  /** A registration keeps the spacing of every queue if and only if the clock stands still during it. */
  lemma StandingClockSpacesIff(fns: set<Fn>, slop: Slop, fn: Fn, wanted: int, fireTime: int)
    requires fn in fns && slop(fn) >= 0 && wanted <= fireTime
    ensures SpacesAll(fns, slop, fn, wanted, fireTime) <==> fireTime == wanted
  {
    if fireTime == wanted {
      forall q: Queue | Mirrors(q, fns) && Spaced(q.alarms, fns, slop, 0)
        ensures Spaced(RegisterApprox(q, fn, wanted, slop(fn), fireTime).alarms, fns, slop, 0)
      {
        if fn in q.approx ==> !Near(q.approx[fn], wanted, slop(fn)) {
          RegisterSpacedIff(q, fns, slop, fn, wanted, fireTime);
        }
      }
    } else {
      var time := if fireTime - wanted <= 2 * slop(fn) + 1 then wanted + slop(fn) + 1 else fireTime;
      var q := OnePending(fn, time);
      OnePendingMirrors(fns, slop, fn, time);
      assert Near(q.approx[fn], fireTime, slop(fn)) by {
        assert q.approx[fn][0].fireTime == time;
      }
      RegisterSpacedIff(q, fns, slop, fn, wanted, fireTime);
    }
  }

  // ----- Cancelling -----

  lemma DeactivateMembers(h: seq<Alarm>, count: nat)
    ensures forall b :: b in Deactivate(h, count) <==>
              || (b in h && b.count != count)
              || (!b.active && b.count == count && exists a :: a in h && b == a.(active := false))
  {
    var r := Deactivate(h, count);
    forall b ensures b in r <==> (b in h && b.count != count) ||
                                 (!b.active && b.count == count && exists a :: a in h && b == a.(active := false)) {
      if b in r {
        var i :| 0 <= i < |r| && r[i] == b;
        assert h[i] in h;
      }
      if a :| a in h && a.count == count && b == a.(active := false) {
        var i :| 0 <= i < |h| && h[i] == a;
        assert r[i] == b;
      }
      if b in h && b.count != count {
        var i :| 0 <= i < |h| && h[i] == b;
        assert r[i] == b;
      }
    }
  }

  lemma UniqueToDistinct(h: seq<Alarm>, i: nat, j: nat)
    requires Unique(multiset(h)) && i < j < |h|
    ensures h[i].count != h[j].count
  {
    assert h[i] in multiset(h) && h[j] in multiset(h);
    assert h == h[..j] + h[j..];
    assert h[i] in h[..j] && h[j] in h[j..];
    assert h[i] == h[j] ==> multiset(h)[h[i]] >= 2;
  }

  lemma {:induction false} DistinctToUnique(h: seq<Alarm>)
    requires forall i, j :: 0 <= i < j < |h| ==> h[i].count != h[j].count
    ensures Unique(multiset(h))
  {
    if h != [] {
      var n := |h| - 1;
      DistinctToUnique(h[..n]);
      assert h == h[..n] + [h[n]];
      assert forall a :: a in multiset(h[..n]) ==> a in h[..n];
    }
  }

  lemma DeactivateUnique(h: seq<Alarm>, count: nat)
    requires Unique(multiset(h))
    ensures Unique(multiset(Deactivate(h, count)))
  {
    var r := Deactivate(h, count);
    forall i, j | 0 <= i < j < |r| ensures r[i].count != r[j].count {
      UniqueToDistinct(h, i, j);
    }
    DistinctToUnique(r);
  }

  lemma DeactivateHeap(h: seq<Alarm>, count: nat)
    requires IsHeap(h)
    ensures IsHeap(Deactivate(h, count))
  {
    var r := Deactivate(h, count);
    forall i | 0 < i < |r| ensures !Less(r[i], r[Parent(i)]) {
      assert !Less(h[i], h[Parent(i)]);
    }
  }

  lemma DeactivateValid(h: seq<Alarm>, count: nat, uniq: nat)
    requires HeapValid(h, uniq)
    ensures HeapValid(Deactivate(h, count), uniq)
  {
    var r := Deactivate(h, count);
    DeactivateUnique(h, count);
    DeactivateHeap(h, count);
    forall a | a in r ensures a.count < uniq {
      var i :| 0 <= i < |r| && r[i] == a;
      assert h[i] in h;
    }
  }

  lemma {:induction false} DropInactiveKeeps(h: seq<Alarm>, uniq: nat)
    requires HeapValid(h, uniq)
    ensures HeapValid(DropInactiveHeads(h), uniq)
    ensures forall a :: a in DropInactiveHeads(h) ==> a in h
    ensures forall a :: a in h && a.active ==> a in DropInactiveHeads(h)
    decreases |h|
  {
    if h != [] && !h[0].active {
      PopUnique(h);
      DropInactiveKeeps(HeapPop(h), uniq);
    }
  }

  lemma DeactivateForeign(s: seq<Alarm>, count: nat)
    requires forall a :: a in s ==> a.count != count
    ensures Deactivate(s, count) == s
  {
  }

  /** An approximate alarm is never cancelled: its registration gives no handle to its callers. */
  lemma UnregisterKeeps(q: Queue, fns: set<Fn>, count: nat)
    requires Mirrors(q, fns)
    requires forall a :: a in q.alarms && a.count == count ==> a.fn !in fns
    ensures Mirrors(Unregister(q, count), fns)
    ensures forall a: Alarm :: a.fn in fns ==> (a in Unregister(q, count).alarms <==> a in q.alarms)
    ensures forall a: Alarm :: a.active ==> (a in Unregister(q, count).alarms <==> a in q.alarms && a.count != count)
    ensures Unregister(q, count).alarms != [] ==> Unregister(q, count).alarms[0].active
  {
    var r := Unregister(q, count);
    var d := Deactivate(q.alarms, count);
    DeactivateValid(q.alarms, count, q.uniq);
    DeactivateMembers(q.alarms, count);
    DropInactiveKeeps(d, q.uniq);
    forall a: Alarm | a.fn in fns ensures a in r.alarms <==> a in q.alarms {
      if a in q.alarms {
        assert a in d;
      }
    }
    forall a: Alarm | a.active ensures a in r.alarms <==> a in q.alarms && a.count != count {
      assert a in r.alarms <==> a in d;
    }
    forall f | f in q.approx ensures r.approx[f] == q.approx[f] {
      assert Mirror(q.alarms, f, q.approx[f]);
      DeactivateForeign(q.approx[f], count);
    }
    forall f | f in r.approx ensures Mirror(r.alarms, f, r.approx[f]) {
      assert Mirror(q.alarms, f, q.approx[f]);
    }
  }

  /** A pass after a cancellation fires every other alarm that is due, and never the cancelled one. */
  lemma CancelledNeverFires(q: Queue, count: nat, start: int, callbacks: Callbacks)
    requires HeapValid(q.alarms, q.uniq) && ClockForward(callbacks, start)
    requires FirePass(Unregister(q, count), start, callbacks).ok
    ensures forall a :: a in FirePass(Unregister(q, count), start, callbacks).fired <==>
                          a in q.alarms && a.active && a.fireTime <= start && a.count != count
  {
    var r := Unregister(q, count);
    DeactivateValid(q.alarms, count, q.uniq);
    DeactivateMembers(q.alarms, count);
    DropInactiveKeeps(Deactivate(q.alarms, count), q.uniq);
    PassFiresExactlyDue(r, start, callbacks);
    forall a: Alarm | a.active ensures a in r.alarms <==> a in q.alarms && a.count != count {
      assert a in r.alarms <==> a in Deactivate(q.alarms, count);
    }
  }

  // ----- Firing -----

  /** No approximate alarm reschedules itself. */
  ghost predicate ApproxOnce(h: seq<Alarm>, fns: set<Fn>, callbacks: Callbacks) {
    forall a :: a in h && a.fn in fns ==> !Reschedules(callbacks(a.count))
  }

  lemma SetTimeForeign(s: seq<Alarm>, count: nat, time: int)
    requires forall a :: a in s ==> a.count != count
    ensures SetTime(s, count, time) == s
  {
  }

  /** The head of the main heap is the head of its function's heap. */
  lemma HeadsAgree(h: seq<Alarm>, s: seq<Alarm>)
    requires h != [] && IsHeap(h) && Unique(multiset(h)) && Mirror(h, h[0].fn, s)
    ensures s[0] == h[0]
  {
    assert h[0] in s && s[0] in s;
    if s[0] != h[0] {
      HeadIsFirst(h, s[0]);
      HeadIsFirst(s, h[0]);
    }
  }

  /** Popping the head from both heaps keeps them in agreement. */
  lemma PopMirror(h: seq<Alarm>, s: seq<Alarm>)
    requires h != [] && IsHeap(h) && Unique(multiset(h)) && Mirror(h, h[0].fn, s)
    ensures HeapPop(s) != [] ==> Mirror(HeapPop(h), h[0].fn, HeapPop(s))
    ensures HeapPop(s) == [] ==> forall a :: a in HeapPop(h) ==> a.fn != h[0].fn
  {
    HeadsAgree(h, s);
    PopUnique(h);
    PopUnique(s);
  }

  lemma AfterValid(h: seq<Alarm>, r: Reaction, uniq: nat)
    requires h != [] && HeapValid(h, uniq)
    ensures HeapValid(HeapAfter(h, r), uniq)
  {
    HeapAfterUnique(h, r);
    assert h[0] in h;
  }

  /** Other functions' heaps do not notice what happens to the head. */
  lemma AfterMirrorOther(h: seq<Alarm>, r: Reaction, fn: Fn, s: seq<Alarm>)
    requires h != [] && Unique(multiset(h)) && Mirror(h, fn, s) && h[0].fn != fn
    ensures Mirror(HeapAfter(h, r), fn, s)
    ensures forall a :: a in s ==> a.count != h[0].count
  {
    HeapAfterUnique(h, r);
    forall a | a in s ensures a.count != h[0].count {
      assert a in multiset(h) && h[0] in multiset(h);
    }
  }

  /** All heaps but those of `but` mirror the main heap. */
  ghost predicate MirrorsBut(h: seq<Alarm>, approx: map<Fn, seq<Alarm>>, but: set<Fn>) {
    forall f :: f in approx && f !in but ==> Mirror(h, f, approx[f])
  }

  lemma AfterMirrorsBut(h: seq<Alarm>, r: Reaction, approx: map<Fn, seq<Alarm>>)
    requires h != [] && Unique(multiset(h)) && MirrorsBut(h, approx, {})
    ensures MirrorsBut(HeapAfter(h, r), approx, {h[0].fn})
  {
    forall f | f in approx && f !in {h[0].fn} ensures Mirror(HeapAfter(h, r), f, approx[f]) {
      AfterMirrorOther(h, r, f, approx[f]);
    }
  }

  /** A plain alarm's new time is written to no approximate heap. */
  lemma RepeatKeepsApprox(h: seq<Alarm>, r: Reaction, approx: map<Fn, seq<Alarm>>)
    requires h != [] && Unique(multiset(h)) && MirrorsBut(h, approx, {}) && h[0].fn !in approx && Repeats(h[0], r)
    ensures ApproxAfter(approx, h[0], r) == Some(approx)
  {
    forall f | f in approx ensures SetTime(approx[f], h[0].count, Requeued(h[0], r).fireTime) == approx[f] {
      assert Mirror(h, f, approx[f]);
      AfterMirrorOther(h, r, f, approx[f]);
      SetTimeForeign(approx[f], h[0].count, Requeued(h[0], r).fireTime);
    }
    assert ApproxAfter(approx, h[0], r).value == approx;
  }

  /** What is left of the approximate heaps when the head alarm leaves the one of its function. */
  ghost function WithoutHead(h: seq<Alarm>, approx: map<Fn, seq<Alarm>>): map<Fn, seq<Alarm>>
    requires h != [] && h[0].fn in approx && approx[h[0].fn] != []
  {
    var rest := HeapPop(approx[h[0].fn]);
    if rest == [] then approx - {h[0].fn} else approx[h[0].fn := rest]
  }

  lemma HeadLeaves(h: seq<Alarm>, r: Reaction, approx: map<Fn, seq<Alarm>>)
    requires h != [] && IsHeap(h) && Unique(multiset(h)) && MirrorsBut(h, approx, {})
    requires h[0].fn in approx && h[0].active && !Reschedules(r)
    ensures approx[h[0].fn] != [] && ApproxAfter(approx, h[0], r) == Some(WithoutHead(h, approx))
    ensures MirrorsBut(HeapAfter(h, r), WithoutHead(h, approx), {})
    ensures h[0].fn !in WithoutHead(h, approx) ==> forall a :: a in HeapAfter(h, r) ==> a.fn != h[0].fn
  {
    var fn := h[0].fn;
    var s := approx[fn];
    assert Mirror(h, fn, s);
    HeadsAgree(h, s);
    PopMirror(h, s);
    var after := WithoutHead(h, approx);
    AfterMirrorsBut(h, r, approx);
    forall f | f in after ensures Mirror(HeapAfter(h, r), f, after[f]) {
      assert f != fn ==> f in approx && f !in {fn};
    }
  }

  lemma HeadElsewhere(h: seq<Alarm>, r: Reaction, approx: map<Fn, seq<Alarm>>)
    requires h != [] && Unique(multiset(h)) && MirrorsBut(h, approx, {}) && h[0].fn !in approx
    ensures ApproxAfter(approx, h[0], r) == Some(approx) && MirrorsBut(HeapAfter(h, r), approx, {})
  {
    AfterMirrorsBut(h, r, approx);
    if Repeats(h[0], r) {
      RepeatKeepsApprox(h, r, approx);
    }
  }

  /** The approximate heaps after the head alarm: the assertion holds, and they mirror what the main heap has become. */
  lemma ApproxAfterMirrors(h: seq<Alarm>, r: Reaction, approx: map<Fn, seq<Alarm>>)
    requires h != [] && IsHeap(h) && Unique(multiset(h)) && MirrorsBut(h, approx, {})
    requires h[0].fn in approx ==> h[0].active && !Reschedules(r)
    ensures var after := ApproxAfter(approx, h[0], r);
            && after.Some? && MirrorsBut(HeapAfter(h, r), after.value, {})
            && after.value.Keys <= approx.Keys <= after.value.Keys + {h[0].fn}
            && (h[0].fn in approx && h[0].fn !in after.value ==> forall a :: a in HeapAfter(h, r) ==> a.fn != h[0].fn)
  {
    if h[0].fn in approx {
      HeadLeaves(h, r, approx);
    } else {
      HeadElsewhere(h, r, approx);
    }
  }

  lemma FireHeadKeeps(q: Queue, fns: set<Fn>, r: Reaction)
    requires Mirrors(q, fns) && q.alarms != []
    requires q.alarms[0].fn in fns ==> !Reschedules(r)
    ensures FireHead(q, r).Some? && Mirrors(FireHead(q, r).value, fns)
    ensures forall a :: a in FireHead(q, r).value.alarms && a.fn in fns ==> a in q.alarms
  {
    var h := q.alarms;
    assert h[0] in h;
    AfterValid(h, r, q.uniq);
    HeapAfterUnique(h, r);
    ApproxAfterMirrors(h, r, q.approx);
    MirrorsAll(HeapAfter(h, r), ApproxAfter(q.approx, h[0], r).value);
  }

  lemma MirrorsAll(h: seq<Alarm>, approx: map<Fn, seq<Alarm>>)
    requires MirrorsBut(h, approx, {})
    ensures forall f :: f in approx ==> Mirror(h, f, approx[f])
  {
    forall f | f in approx ensures Mirror(h, f, approx[f]) {
      assert f !in {};
    }
  }

  /** In a pass the head assertion never fails, and the heaps still agree afterwards. */
  lemma {:induction false} PassKeeps(q: Queue, fns: set<Fn>, start: int, callbacks: Callbacks)
    requires Mirrors(q, fns) && ClockForward(callbacks, start) && ApproxOnce(q.alarms, fns, callbacks)
    ensures var p := FirePass(q, start, callbacks);
            && p.ok && Mirrors(p.queue, fns)
            && forall a :: a in p.queue.alarms && a.fn in fns ==> a in q.alarms
    decreases DueCount(multiset(q.alarms), start)
  {
    if HeadDue(q, start) {
      var r := callbacks(q.alarms[0].count);
      assert q.alarms[0] in q.alarms;
      FireHeadKeeps(q, fns, r);
      HeapAfterDecreases(q.alarms, r, start);
      PassKeeps(FireHead(q, r).value, fns, start, callbacks);
    }
  }

  // ----- Whole runs -----

  datatype Op =
    | OpRegister(fn: Fn, fireTime: int)
    | OpRegisterApprox(fn: Fn, wanted: int, fireTime: int)
    | OpUnregister(count: nat)
    | OpFire(start: int, callbacks: Callbacks)

  /**
   Functions in `fns` are only ever registered approximately, their callbacks do not reschedule themselves, and
   the clock moves by at most `drift` between the window check and the registration.
   */
  ghost predicate Allowed(q: Queue, fns: set<Fn>, drift: nat, op: Op) {
    match op
    case OpRegister(fn, _) => fn !in fns
    case OpRegisterApprox(fn, wanted, fireTime) => fn in fns && wanted <= fireTime <= wanted + drift
    case OpUnregister(count) => forall a :: a in q.alarms && a.count == count ==> a.fn !in fns
    case OpFire(start, callbacks) => ClockForward(callbacks, start) && ApproxOnce(q.alarms, fns, callbacks)
  }

  ghost function Step(q: Queue, slop: Slop, op: Op): Queue
    requires op.OpFire? ==> ClockForward(op.callbacks, op.start)
  {
    match op
    case OpRegister(fn, fireTime) => Register(q, fn, fireTime)
    case OpRegisterApprox(fn, wanted, fireTime) => RegisterApprox(q, fn, wanted, slop(fn), fireTime)
    case OpUnregister(count) => Unregister(q, count)
    case OpFire(start, callbacks) => FirePass(q, start, callbacks).queue
  }

  lemma StepKeeps(q: Queue, fns: set<Fn>, slop: Slop, drift: nat, op: Op)
    requires Mirrors(q, fns) && Spaced(q.alarms, fns, slop, drift) && Allowed(q, fns, drift, op)
    ensures Mirrors(Step(q, slop, op), fns) && Spaced(Step(q, slop, op).alarms, fns, slop, drift)
    ensures op.OpFire? ==> FirePass(q, op.start, op.callbacks).ok
  {
    match op
    case OpRegister(fn, fireTime) =>
      RegisterKeeps(q, fns, fn, fireTime);
      PushMembers(q.alarms, Alarm(fireTime, q.uniq, fn, true));
    case OpRegisterApprox(fn, wanted, fireTime) =>
      RegisterApproxKeeps(q, fns, fn, wanted, slop(fn), fireTime);
      RegisterApproxSpaced(q, fns, slop, drift, fn, wanted, fireTime);
    case OpUnregister(count) =>
      UnregisterKeeps(q, fns, count);
    case OpFire(start, callbacks) =>
      PassKeeps(q, fns, start, callbacks);
  }

  ghost predicate AllAllowed(fns: set<Fn>, slop: Slop, drift: nat, ops: seq<Op>)
    decreases |ops|, 0
  {
    ops == [] ||
    var n := |ops| - 1;
    AllAllowed(fns, slop, drift, ops[..n]) && Allowed(Run(fns, slop, drift, ops[..n]), fns, drift, ops[n])
  }

  /** In every reachable queue the heaps agree and pending approximate alarms keep their distance. */
  ghost function Run(fns: set<Fn>, slop: Slop, drift: nat, ops: seq<Op>): (q: Queue)
    requires AllAllowed(fns, slop, drift, ops)
    ensures Mirrors(q, fns) && Spaced(q.alarms, fns, slop, drift)
    decreases |ops|, 1
  {
    if ops == [] then EMPTY_QUEUE
    else
      var n := |ops| - 1;
      var before := Run(fns, slop, drift, ops[..n]);
      StepKeeps(before, fns, slop, drift, ops[n]);
      Step(before, slop, ops[n])
  }

  // ----- Where the promises end -----

  lemma PushLast(a: Alarm, b: Alarm)
    requires !Less(b, a)
    ensures HeapPush([a], b) == [a, b] && HeapPop([a, b]) == [b]
  {
    assert [a] + [b] == [a, b] && [a, b][..1] == [a] && [a][0 := b] == [b];
  }

  const EARLY := Alarm(10, 0, 0, true)
  const LATE := Alarm(20, 1, 0, true)
  const AGAIN := Alarm(25, 0, 0, true)

  /** Two approximate alarms of function 0, more than a slop of 1 apart. */
  lemma TwoPending()
    ensures RegisterApprox(RegisterApprox(EMPTY_QUEUE, 0, 10, 1, 10), 0, 20, 1, 20)
            == Queue([EARLY, LATE], 2, map[0 := [EARLY, LATE]])
  {
    assert HeapPush([], EARLY) == [EARLY];
    PushLast(EARLY, LATE);
  }

  lemma EarlyIsRequeued(r: Reaction)
    requires r == Returns(Some(15), 10)
    ensures HeapAfter([EARLY, LATE], r) == [LATE, AGAIN]
  {
    PushLast(EARLY, LATE);
    PushLast(LATE, AGAIN);
  }

  lemma EarlyIsRetimed(r: Reaction)
    requires r == Returns(Some(15), 10)
    ensures ApproxAfter(map[0 := [EARLY, LATE]], EARLY, r) == Some(map[0 := [AGAIN, LATE]])
  {
    var approx: map<Fn, seq<Alarm>> := map[0 := [EARLY, LATE]];
    assert SetTime([EARLY, LATE], 0, 25) == [AGAIN, LATE];
    assert SetTimes(approx, 0, 25) == map[0 := [AGAIN, LATE]];
  }

  /** The first one reschedules itself at time 10 for time 25. */
  lemma EarlyReschedules(callbacks: Callbacks)
    requires ClockForward(callbacks, 10) && callbacks(0) == Returns(Some(15), 10)
    ensures FirePass(Queue([EARLY, LATE], 2, map[0 := [EARLY, LATE]]), 10, callbacks)
            == Pass(Queue([LATE, AGAIN], 2, map[0 := [AGAIN, LATE]]), [EARLY], true)
  {
    var q := Queue([EARLY, LATE], 2, map[0 := [EARLY, LATE]]);
    var p := Queue([LATE, AGAIN], 2, map[0 := [AGAIN, LATE]]);
    EarlyIsRequeued(callbacks(0));
    EarlyIsRetimed(callbacks(0));
    PassGoesOn(q, 10, callbacks, callbacks(0), p);
    PassEnds(p, 10, callbacks);
    assert [EARLY] + [] == [EARLY];
  }

  /** At time 20 the second one fires, but its function's heap still has the first one in front. */
  lemma LateMeetsWrongHead(callbacks: Callbacks)
    requires ClockForward(callbacks, 20) && callbacks(1) == Returns(None, 20)
    ensures !FirePass(Queue([LATE, AGAIN], 2, map[0 := [AGAIN, LATE]]), 20, callbacks).ok
  {
    var p := Queue([LATE, AGAIN], 2, map[0 := [AGAIN, LATE]]);
    assert ApproxAfter(p.approx, LATE, callbacks(1)).None?;
    PassFails(p, 20, callbacks, callbacks(1));
  }

  /**
   An approximate alarm that reschedules itself keeps its place at the head of its function's heap although its
   time has moved behind the next one: when that one fires, the assertion about the heads fails.
   */
  lemma ReschedulingBreaksHeads(first: Callbacks, second: Callbacks)
    requires ClockForward(first, 10) && first(0) == Returns(Some(15), 10)
    requires ClockForward(second, 20) && second(1) == Returns(None, 20)
    ensures var q := RegisterApprox(RegisterApprox(EMPTY_QUEUE, 0, 10, 1, 10), 0, 20, 1, 20);
            FirePass(q, 10, first).ok && !FirePass(FirePass(q, 10, first).queue, 20, second).ok
  {
    TwoPending();
    EarlyReschedules(first);
    LateMeetsWrongHead(second);
  }

  /** When the clock moves during registration, two alarms can end up closer than the slop. */
  lemma DriftBreaksSpacing()
    ensures var q := RegisterApprox(EMPTY_QUEUE, 0, 100, 10, 100);
            var r := RegisterApprox(q, 0, 89, 10, 92);
            exists a, b :: a in r.alarms && b in r.alarms && a != b && a.fn == b.fn && a.fireTime - b.fireTime == 8
  {
    var a, b := Alarm(100, 0, 0, true), Alarm(92, 1, 0, true);
    assert HeapPush([], a) == [a];
    var q := RegisterApprox(EMPTY_QUEUE, 0, 100, 10, 100);
    assert q == Queue([a], 1, map[0 := [a]]);
    PushMembers([a], b);
    assert !Near([a], 89, 10);
    assert a in HeapPush([a], b) && b in HeapPush([a], b) && a.fireTime - b.fireTime == 8;
  }
}
