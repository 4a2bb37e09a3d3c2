/**
 Byte buffers: little-endian unsigned integers, and sequences of items written one after the other and read
 back from an offset.
 */
module ByteBuffers {

  import opened Basics

  type byte = x: int | 0 <= x < 256

  // ----- Little-endian integers -----

  function Pow256(width: nat): nat {
    if width == 0 then 1 else 256 * Pow256(width - 1)
  }

  function Pack(n: nat, width: nat): (b: seq<byte>)
    ensures |b| == width
  {
    if width == 0 then [] else [n % 256] + Pack(n / 256, width - 1)
  }

  function Unpack(b: seq<byte>): nat {
    if b == [] then 0 else b[0] + 256 * Unpack(b[1..])
  }

  lemma {:induction false} UnpackPack(n: nat, width: nat)
    requires n < Pow256(width)
    ensures Unpack(Pack(n, width)) == n
  {
    if width > 0 {
      UnpackPack(n / 256, width - 1);
      assert Pack(n, width)[1..] == Pack(n / 256, width - 1);
    }
  }

  /** Least significant byte first: a single byte is its own value, and what follows counts that much more. */
  lemma {:induction false} UnpackConcat(a: seq<byte>, b: seq<byte>)
    ensures Unpack(a + b) == Unpack(a) + Pow256(|a|) * Unpack(b)
    ensures |a| == 1 ==> Unpack(a) == a[0]
    decreases |a|
  {
    if a == [] {
      assert a + b == b;
    } else {
      assert (a + b)[1..] == a[1..] + b;
      UnpackConcat(a[1..], b);
    }
  }

  /** `struct.unpack_from`, which raises when the buffer is too short. */
  function ReadInt(buf: seq<byte>, offset: nat, width: nat): Option<nat> {
    if offset + width <= |buf| then Some(Unpack(buf[offset..offset + width])) else None
  }

  function PackAll(ns: seq<nat>, width: nat): (b: seq<byte>)
    ensures |b| == |ns| * width
  {
    if ns == [] then [] else Pack(ns[0], width) + PackAll(ns[1..], width)
  }

  function ReadInts(buf: seq<byte>, offset: nat, width: nat, count: nat): Option<seq<nat>>
    decreases count
  {
    if count == 0 then Some([])
    else
      var first := ReadInt(buf, offset, width);
      var rest := ReadInts(buf, offset + width, width, count - 1);
      if first.Some? && rest.Some? then Some([first.value] + rest.value) else None
  }

  /** `buf` holds `part` at `offset`. */
  ghost predicate Holds(buf: seq<byte>, offset: nat, part: seq<byte>) {
    offset + |part| <= |buf| && buf[offset..offset + |part|] == part
  }

  lemma HoldsParts(buf: seq<byte>, offset: nat, a: seq<byte>, b: seq<byte>)
    ensures Holds(buf, offset, a + b) <==> Holds(buf, offset, a) && Holds(buf, offset + |a|, b)
  {
    if offset + |a + b| <= |buf| {
      var whole := buf[offset..offset + |a + b|];
      assert whole[..|a|] == buf[offset..offset + |a|];
      assert whole[|a|..] == buf[offset + |a|..offset + |a| + |b|];
      assert whole == whole[..|a|] + whole[|a|..];
      assert (a + b)[..|a|] == a && (a + b)[|a|..] == b;
    }
  }

  /** Each number of a packed list stands at its place. */
  lemma {:induction false} HoldsNth(buf: seq<byte>, offset: nat, ns: seq<nat>, width: nat, i: nat, at: nat)
    requires Holds(buf, offset, PackAll(ns, width)) && i < |ns| && at == offset + i * width
    ensures Holds(buf, at, Pack(ns[i], width))
    decreases |ns|
  {
    HoldsParts(buf, offset, Pack(ns[0], width), PackAll(ns[1..], width));
    if i > 0 {
      assert (i - 1) * width == i * width - width;
      HoldsNth(buf, offset + width, ns[1..], width, i - 1, at);
    }
  }

  lemma ReadPacked(buf: seq<byte>, offset: nat, n: nat, width: nat)
    requires n < Pow256(width) && Holds(buf, offset, Pack(n, width))
    ensures ReadInt(buf, offset, width) == Some(n)
  {
    UnpackPack(n, width);
  }

  lemma {:induction false} ReadAllPacked(buf: seq<byte>, offset: nat, ns: seq<nat>, width: nat)
    requires (forall i :: 0 <= i < |ns| ==> ns[i] < Pow256(width)) && Holds(buf, offset, PackAll(ns, width))
    ensures ReadInts(buf, offset, width, |ns|) == Some(ns)
    decreases |ns|
  {
    if ns != [] {
      assert [ns[0]] + ns[1..] == ns;
      HoldsParts(buf, offset, Pack(ns[0], width), PackAll(ns[1..], width));
      ReadPacked(buf, offset, ns[0], width);
      ReadAllPacked(buf, offset + width, ns[1..], width);
    }
  }

  /** A Python slice, cut off at the end of the buffer. */
  function Slice(buf: seq<byte>, lo: nat, hi: nat): seq<byte> {
    if lo <= hi <= |buf| then buf[lo..hi] else if lo <= |buf| < hi then buf[lo..] else []
  }

  // ----- Items written one after the other -----

  function FlatMap<T>(write: T -> seq<byte>, xs: seq<T>): seq<byte> {
    if xs == [] then [] else write(xs[0]) + FlatMap(write, xs[1..])
  }

  lemma ConcatAssociative(a: seq<byte>, b: seq<byte>, c: seq<byte>)
    ensures a + (b + c) == (a + b) + c
  {
  }

  lemma {:induction false} FlatMapConcat<T>(write: T -> seq<byte>, a: seq<T>, b: seq<T>)
    ensures FlatMap(write, a + b) == FlatMap(write, a) + FlatMap(write, b)
  {
    if a == [] {
      assert a + b == b;
    } else {
      FlatMapConcat(write, a[1..], b);
      assert (a + b)[1..] == a[1..] + b;
      ConcatAssociative(write(a[0]), FlatMap(write, a[1..]), FlatMap(write, b));
    }
  }

  /** The offset at which the i-th item starts when the first one starts at `offset`. */
  function StartOf<T>(write: T -> seq<byte>, xs: seq<T>, offset: nat, i: nat): nat
    requires i <= |xs|
  {
    offset + |FlatMap(write, xs[..i])|
  }

  lemma FlatMapOne<T>(write: T -> seq<byte>, x: T)
    ensures FlatMap(write, [x]) == write(x)
  {
    assert FlatMap(write, [x]) == write(x) + FlatMap(write, []);
  }

  lemma FlatMapMiddle<T>(write: T -> seq<byte>, xs: seq<T>, i: nat, j: nat)
    requires i <= j <= |xs|
    ensures FlatMap(write, xs) == FlatMap(write, xs[..i]) + (FlatMap(write, xs[i..j]) + FlatMap(write, xs[j..]))
    ensures |FlatMap(write, xs[..j])| == |FlatMap(write, xs[..i])| + |FlatMap(write, xs[i..j])|
  {
    var before, part, after := xs[..i], xs[i..j], xs[j..];
    assert xs[..j] == before + part && xs == before + (part + after);
    FlatMapConcat(write, before, part);
    FlatMapConcat(write, part, after);
    FlatMapConcat(write, before, part + after);
  }

  lemma StartOfNext<T>(write: T -> seq<byte>, buf: seq<byte>, offset: nat, xs: seq<T>, i: nat)
    requires i < |xs| && Holds(buf, offset, FlatMap(write, xs))
    ensures StartOf(write, xs, offset, i + 1) == StartOf(write, xs, offset, i) + |write(xs[i])|
    ensures Holds(buf, StartOf(write, xs, offset, i), write(xs[i]))
  {
    var after := FlatMap(write, xs[i + 1..]);
    assert xs[i..i + 1] == [xs[i]];
    FlatMapOne(write, xs[i]);
    FlatMapMiddle(write, xs, i, i + 1);
    HoldsParts(buf, offset, FlatMap(write, xs[..i]), write(xs[i]) + after);
    HoldsParts(buf, StartOf(write, xs, offset, i), write(xs[i]), after);
  }

  lemma SliceOfPart(buf: seq<byte>, offset: nat, a: seq<byte>, part: seq<byte>, b: seq<byte>, lo: nat, hi: nat)
    requires Holds(buf, offset, a + (part + b)) && lo == offset + |a| && hi == lo + |part|
    ensures hi <= |buf| && Slice(buf, lo, hi) == part
  {
    HoldsParts(buf, offset, a, part + b);
    HoldsParts(buf, lo, part, b);
  }

  lemma SliceOfItems<T>(write: T -> seq<byte>, buf: seq<byte>, offset: nat, xs: seq<T>, i: nat, j: nat)
    requires i <= j <= |xs| && Holds(buf, offset, FlatMap(write, xs))
    ensures StartOf(write, xs, offset, i) <= StartOf(write, xs, offset, j) <= |buf|
    ensures Slice(buf, StartOf(write, xs, offset, i), StartOf(write, xs, offset, j)) == FlatMap(write, xs[i..j])
  {
    FlatMapMiddle(write, xs, i, j);
    SliceOfPart(buf, offset, FlatMap(write, xs[..i]), FlatMap(write, xs[i..j]), FlatMap(write, xs[j..]),
                StartOf(write, xs, offset, i), StartOf(write, xs, offset, j));
  }

  /** Reads `count` items one after the other. */
  function ReadMany<T>(read: (seq<byte>, nat) -> Option<(T, nat)>, buf: seq<byte>, offset: nat,
      count: nat): Option<seq<T>>
    decreases count
  {
    if count == 0 then Some([])
    else
      var first := read(buf, offset);
      if first.None? then None else Prepend([first.value.0], ReadMany(read, buf, first.value.1, count - 1))
  }

  function Prepend<T>(xs: seq<T>, rest: Option<seq<T>>): Option<seq<T>> {
    if rest.None? then None else Some(xs + rest.value)
  }

  lemma PrependTwice<T>(xs: seq<T>, ys: seq<T>, rest: Option<seq<T>>)
    ensures Prepend(xs, Prepend(ys, rest)) == Prepend(xs + ys, rest)
  {
    if rest.Some? {
      assert xs + (ys + rest.value) == xs + ys + rest.value;
    }
  }

  /** From each offset of `at`, `read` yields the next item of `xs` and the next offset. */
  ghost predicate ReadsAs<T(!new)>(read: (seq<byte>, nat) -> Option<(T, nat)>, buf: seq<byte>, xs: seq<T>,
      at: seq<nat>) {
    |at| == |xs| + 1 && forall i :: 0 <= i < |xs| ==> read(buf, at[i]) == Some((xs[i], at[i + 1]))
  }

  lemma {:induction false} ReadManyReads<T(!new)>(
      read: (seq<byte>, nat) -> Option<(T, nat)>, buf: seq<byte>, xs: seq<T>, at: seq<nat>, more: nat)
    requires ReadsAs(read, buf, xs, at)
    ensures ReadMany(read, buf, at[0], |xs| + more) == Prepend(xs, ReadMany(read, buf, at[|xs|], more))
    decreases |xs|
  {
    var left := ReadMany(read, buf, at[|xs|], more);
    if xs == [] {
      if left.Some? {
        assert [] + left.value == left.value;
      }
    } else {
      ReadManyReads(read, buf, xs[1..], at[1..], more);
      PrependTwice([xs[0]], xs[1..], left);
      assert [xs[0]] + xs[1..] == xs;
    }
  }

  /** From the start of each item, `read` finds the item and the start of the next one. */
  ghost predicate ReadsEach<T(!new)>(
    read: (seq<byte>, nat) -> Option<(T, nat)>, write: T -> seq<byte>, buf: seq<byte>, offset: nat, xs: seq<T>)
  {
    forall i {:trigger xs[i]} :: 0 <= i < |xs| ==>
      read(buf, StartOf(write, xs, offset, i)) == Some((xs[i], StartOf(write, xs, offset, i + 1)))
  }

  /** Items that `read` finds one behind the other are read together, and reading goes on behind them. */
  lemma ReadBack<T(!new)>(
      read: (seq<byte>, nat) -> Option<(T, nat)>, write: T -> seq<byte>, buf: seq<byte>, offset: nat, xs: seq<T>,
      more: nat)
    requires ReadsEach(read, write, buf, offset, xs)
    ensures ReadMany(read, buf, offset, |xs| + more)
            == Prepend(xs, ReadMany(read, buf, offset + |FlatMap(write, xs)|, more))
  {
    var at := seq(|xs| + 1, i requires 0 <= i <= |xs| => StartOf(write, xs, offset, i));
    assert xs[..|xs|] == xs && at[0] == offset && at[|xs|] == offset + |FlatMap(write, xs)|;
    ReadManyReads(read, buf, xs, at, more);
  }

  /** Items written one after the other, each of which is read back, are all read back. */
  lemma AllRead<T(!new)>(read: (seq<byte>, nat) -> Option<(T, nat)>, write: T -> seq<byte>,
                         buf: seq<byte>, offset: nat, xs: seq<T>, count: nat)
    requires ReadsEach(read, write, buf, offset, xs) && count == |xs|
    ensures ReadMany(read, buf, offset, count) == Some(xs)
  {
    ReadBack(read, write, buf, offset, xs, 0);
    ReadNothing(read, buf, offset + |FlatMap(write, xs)|, xs);
  }

  lemma ReadNothing<T>(read: (seq<byte>, nat) -> Option<(T, nat)>, buf: seq<byte>, offset: nat, xs: seq<T>)
    ensures Prepend(xs, ReadMany(read, buf, offset, 0)) == Some(xs)
  {
    assert xs + [] == xs;
  }
}
