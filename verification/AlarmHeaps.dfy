/** Alarms and the binary heap of them: what `heapq` does to a list ordered by fire time and registration count. */
module AlarmHeaps {

  type Fn = nat

  /** An `AlarmId` with its function; `count` tells registered alarms apart. */
  datatype Alarm = Alarm(fireTime: int, count: nat, fn: Fn, active: bool)

  predicate Less(a: Alarm, b: Alarm) {
    a.fireTime < b.fireTime || (a.fireTime == b.fireTime && a.count < b.count)
  }

  function Parent(i: nat): nat
    requires i > 0
  {
    (i - 1) / 2
  }

  ghost predicate IsHeap(h: seq<Alarm>) {
    forall i :: 0 < i < |h| ==> !Less(h[i], h[Parent(i)])
  }

  /** Heap order holds but for `pos` against its parent. */
  ghost predicate HeapButAbove(h: seq<Alarm>, pos: nat) {
    && pos < |h|
    && (forall i :: 0 < i < |h| && i != pos ==> !Less(h[i], h[Parent(i)]))
    && (forall i :: 0 < i < |h| && Parent(i) == pos > 0 ==> !Less(h[i], h[Parent(pos)]))
  }

  /** Heap order holds but for `pos` against its parent and its children. */
  ghost predicate HeapButAround(h: seq<Alarm>, pos: nat) {
    && pos < |h|
    && (forall i :: 0 < i < |h| && i != pos && Parent(i) != pos ==> !Less(h[i], h[Parent(i)]))
    && (forall i :: 0 < i < |h| && Parent(i) == pos > 0 ==> !Less(h[i], h[Parent(pos)]))
  }

  function Swap(h: seq<Alarm>, i: nat, j: nat): (r: seq<Alarm>)
    requires i < |h| && j < |h|
    ensures |r| == |h| && multiset(r) == multiset(h)
  {
    h[i := h[j]][j := h[i]]
  }

  /** Swapped with its larger parent, the item is out of order at most against the parent's parent. */
  lemma SwapMovesHoleUp(h: seq<Alarm>, pos: nat)
    requires 0 < pos < |h| && Less(h[pos], h[Parent(pos)])
    ensures HeapButAbove(h, pos) ==> HeapButAbove(Swap(h, pos, Parent(pos)), Parent(pos))
  {
    var p := Parent(pos);
    var s := Swap(h, pos, p);
    if HeapButAbove(h, pos) {
      forall i | 0 < i < |s| && i != p ensures !Less(s[i], s[Parent(i)]) {
        assert i != pos ==> !Less(h[i], h[Parent(i)]);
        assert Parent(i) == pos ==> !Less(h[i], h[p]);
      }
      forall i | 0 < i < |s| && Parent(i) == p > 0 ensures !Less(s[i], s[Parent(p)]) {
        assert !Less(h[p], h[Parent(p)]);
        assert i != pos ==> !Less(h[i], h[p]);
      }
    }
  }

  /** `_siftdown`: the item at `pos` moves towards the root past larger parents. */
  function SiftDown(h: seq<Alarm>, pos: nat): (r: seq<Alarm>)
    requires pos < |h|
    ensures |r| == |h| && multiset(r) == multiset(h)
    ensures HeapButAbove(h, pos) ==> IsHeap(r)
    decreases pos
  {
    if pos > 0 && Less(h[pos], h[Parent(pos)]) then
      SwapMovesHoleUp(h, pos);
      SiftDown(Swap(h, pos, Parent(pos)), Parent(pos))
    else h
  }

  function SmallerChild(h: seq<Alarm>, pos: nat): (c: nat)
    requires 2 * pos + 1 < |h|
    ensures c < |h| && c > pos && Parent(c) == pos
    ensures forall i :: 0 < i < |h| && Parent(i) == pos ==> !Less(h[i], h[c])
  {
    var left, right := 2 * pos + 1, 2 * pos + 2;
    if right < |h| && !Less(h[left], h[right]) then right else left
  }

  /** `_siftup`: the smaller child moves up until a leaf is reached; the item then sifts down from there. */
  function SiftUp(h: seq<Alarm>, pos: nat): (r: seq<Alarm>)
    requires pos < |h|
    ensures |r| == |h| && multiset(r) == multiset(h)
    ensures HeapButAround(h, pos) ==> IsHeap(r)
    decreases |h| - pos
  {
    if 2 * pos + 1 < |h| then
      var c := SmallerChild(h, pos);
      var s := Swap(h, pos, c);
      assert HeapButAround(h, pos) ==> HeapButAround(s, c);
      SiftUp(s, c)
    else SiftDown(h, pos)
  }

  function HeapPush(h: seq<Alarm>, a: Alarm): (r: seq<Alarm>)
    ensures multiset(r) == multiset(h) + multiset{a}
    ensures IsHeap(h) ==> IsHeap(r)
  {
    SiftDown(h + [a], |h|)
  }

  /** What is left after `heappop` has returned h[0]. */
  function HeapPop(h: seq<Alarm>): (r: seq<Alarm>)
    requires h != []
    ensures multiset(r) + multiset{h[0]} == multiset(h) && |r| == |h| - 1
    ensures IsHeap(h) ==> IsHeap(r)
  {
    var last, rest := h[|h| - 1], h[..|h| - 1];
    assert h == rest + [last];
    if rest == [] then rest
    else
      assert rest == [h[0]] + rest[1..] && rest[0 := last] == [last] + rest[1..];
      SiftUp(rest[0 := last], 0)
  }

  lemma {:induction false} RootIsLeast(h: seq<Alarm>, i: nat)
    requires IsHeap(h) && i < |h|
    ensures !Less(h[i], h[0])
  {
    if i > 0 {
      RootIsLeast(h, Parent(i));
    }
  }
}
