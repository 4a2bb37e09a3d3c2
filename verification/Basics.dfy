/** Notions that several components share. */
module Basics {

  datatype Option<+T> = None | Some(value: T)

  /** Prices, rates and ratios are integers scaled by this. */
  const EXP_SCALE := 1_000_000_000_000_000_000

  /** The short id that means none. */
  const NULL_TX_SID: nat := 0

  // ----- Floor division -----

  /** Python's floor division, which raises on zero. */
  function FloorDiv(n: int, d: int): int
    requires d != 0
  {
    if d > 0 then n / d else (-n) / (-d)
  }

  lemma FloorBounds(n: int, d: int)
    requires d > 0
    ensures FloorDiv(n, d) * d <= n < FloorDiv(n, d) * d + d
  {
  }

  /** A quotient is at least v exactly when the dividend is at least v times the divisor. */
  lemma FloorAtLeastIff(n: int, d: int, v: int)
    requires d > 0
    ensures FloorDiv(n, d) >= v <==> n >= v * d
  {
    var q := FloorDiv(n, d);
    FloorBounds(n, d);
    if q >= v {
      assert q * d >= v * d;
    } else {
      assert v * d >= (q + 1) * d;
    }
  }

  lemma ScaleMonotone(a: int, b: int, c: int)
    requires a <= b && c >= 0
    ensures a * c <= b * c
  {
  }

  // ----- Clock readings -----

  /** The first of the readings that is not zero, or zero if there is none. */
  ghost predicate IsFirstNonzero(readings: seq<int>, time: int) {
    if time == 0 then forall j :: 0 <= j < |readings| ==> readings[j] == 0
    else exists j :: 0 <= j < |readings| && readings[j] == time && forall i :: 0 <= i < j ==> readings[i] == 0
  }

  lemma FirstNonzeroNext(readings: seq<int>, now: int, time: int, next: int)
    requires IsFirstNonzero(readings, time) && next == if time == 0 then now else time
    ensures IsFirstNonzero(readings + [now], next)
  {
    var all := readings + [now];
    assert all[|readings|] == now && forall j :: 0 <= j < |readings| ==> all[j] == readings[j];
    if time != 0 {
      var j :| 0 <= j < |readings| && readings[j] == time && forall i :: 0 <= i < j ==> readings[i] == 0;
      assert all[j] == time;
    }
  }

  // ----- Strings -----

  /** Python's order on strings, by code points. */
  predicate StringLess(a: string, b: string) {
    if b == "" then false
    else if a == "" then true
    else a[0] < b[0] || (a[0] == b[0] && StringLess(a[1..], b[1..]))
  }

  /** The two strings agree up to a place where the first has the smaller character. */
  ghost predicate SmallerAt(a: string, b: string, k: nat) {
    k < |a| && k < |b| && a[..k] == b[..k] && a[k] < b[k]
  }

  /** One string is less than another if it is a proper prefix of it or smaller where they first differ. */
  lemma {:induction false} StringLessIff(a: string, b: string)
    ensures StringLess(a, b) <==> a < b || exists k: nat :: SmallerAt(a, b, k)
    decreases |a|
  {
    if a != "" && b != "" {
      StringLessIff(a[1..], b[1..]);
      assert a == [a[0]] + a[1..] && b == [b[0]] + b[1..];
      if a[0] < b[0] {
        assert SmallerAt(a, b, 0);
      }
      if k: nat :| SmallerAt(a[1..], b[1..], k) && a[0] == b[0] {
        assert a[..k + 1] == [a[0]] + a[1..][..k] && b[..k + 1] == [b[0]] + b[1..][..k];
        assert SmallerAt(a, b, k + 1);
      }
      if k: nat :| SmallerAt(a, b, k) && k > 0 {
        assert a[..k][0] == a[0] && b[..k][0] == b[0];
        assert a[1..][..k - 1] == a[..k][1..] && b[1..][..k - 1] == b[..k][1..];
        assert SmallerAt(a[1..], b[1..], k - 1);
      }
    }
  }

  lemma {:induction false} StringOrder(a: string, b: string, c: string)
    ensures StringLess(a, b) ==> !StringLess(b, a)
    ensures !StringLess(a, b) && !StringLess(b, c) ==> !StringLess(a, c)
    ensures !StringLess(a, b) && !StringLess(b, a) ==> a == b
  {
    if a != "" && b != "" {
      StringOrder(a[1..], b[1..], if c == "" then "" else c[1..]);
      assert a == [a[0]] + a[1..] && b == [b[0]] + b[1..];
    }
  }
}
