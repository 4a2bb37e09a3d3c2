/** Python's OrderedDict as a value: the keys in insertion order, and their values. */
module OrderedDicts {

  ghost predicate NoDup<T>(s: seq<T>) {
    forall i, j :: 0 <= i < j < |s| ==> s[i] != s[j]
  }

  function SetOf<T>(s: seq<T>): set<T> {
    set x | x in s
  }

  /** The subsequence of the elements outside `gone`, in their order. */
  function Minus<T(==, !new)>(s: seq<T>, gone: set<T>): (r: seq<T>)
    ensures forall x :: x in r <==> x in s && x !in gone
    ensures |r| <= |s|
  {
    if s == [] then []
    else if s[0] in gone then Minus(s[1..], gone)
    else [s[0]] + Minus(s[1..], gone)
  }

  lemma MinusNoDup<T(!new)>(s: seq<T>, gone: set<T>)
    requires NoDup(s)
    ensures NoDup(Minus(s, gone))
  {
    if s != [] {
      MinusNoDup(s[1..], gone);
    }
  }

  lemma {:induction false} MinusMinus<T(!new)>(s: seq<T>, a: set<T>, b: set<T>)
    ensures Minus(Minus(s, a), b) == Minus(s, a + b)
  {
    if s != [] {
      MinusMinus(s[1..], a, b);
      var rest := Minus(s[1..], a);
      if s[0] !in a {
        assert ([s[0]] + rest)[1..] == rest;
      }
    }
  }

  lemma {:induction false} MinusDisjoint<T(!new)>(s: seq<T>, gone: set<T>)
    requires forall x :: x in gone ==> x !in s
    ensures Minus(s, gone) == s
  {
    if s != [] {
      MinusDisjoint(s[1..], gone);
    }
  }

  lemma {:induction false} MinusPrefix<T(!new)>(s: seq<T>, n: nat)
    requires NoDup(s) && n <= |s|
    ensures Minus(s, SetOf(s[..n])) == s[n..]
  {
    if n == 0 {
      MinusDisjoint(s, SetOf(s[..0]));
    } else {
      var t := s[1..];
      MinusPrefix(t, n - 1);
      assert s[..n] == [s[0]] + t[..n - 1];
      MinusSame(t, SetOf(s[..n]), SetOf(t[..n - 1]));
      assert s[n..] == t[n - 1..];
    }
  }

  lemma {:induction false} MinusSame<T(!new)>(s: seq<T>, a: set<T>, b: set<T>)
    requires forall x :: x in s ==> (x in a <==> x in b)
    ensures Minus(s, a) == Minus(s, b)
  {
    if s != [] {
      MinusSame(s[1..], a, b);
    }
  }

  /** An insertion-ordered dictionary; `order` lists exactly the keys of `vals`, once each. */
  datatype OrderedDict<K(==, !new), V> = OrderedDict(order: seq<K>, vals: map<K, V>) {

    ghost predicate Valid() {
      && NoDup(order)
      && forall k :: k in order <==> k in vals
    }

    /** Assigning to a present key keeps its position. */
    function Set(k: K, v: V): (r: OrderedDict<K, V>)
      ensures Valid() ==> r.Valid()
    {
      OrderedDict(if k in vals then order else order + [k], vals[k := v])
    }

    function DeleteAll(gone: set<K>): (r: OrderedDict<K, V>)
      ensures Valid() ==> r.Valid()
      ensures r.order != [] ==> order != []
      ensures r.vals == vals - gone
    {
      MinusNoDupIf(order, gone);
      OrderedDict(Minus(order, gone), vals - gone)
    }

    function Delete(k: K): (r: OrderedDict<K, V>)
      ensures Valid() ==> r.Valid()
      ensures r.order != [] ==> order != []
      ensures r.vals == vals - {k}
    {
      DeleteAll({k})
    }

    /** `popitem(last=False)`, without the item. */
    function DropFirst(): (r: OrderedDict<K, V>)
      requires order != []
      ensures Valid() ==> r.Valid()
    {
      OrderedDict(order[1..], vals - {order[0]})
    }
  }

  lemma MinusNoDupIf<T(!new)>(s: seq<T>, gone: set<T>)
    ensures NoDup(s) ==> NoDup(Minus(s, gone))
  {
    if NoDup(s) {
      MinusNoDup(s, gone);
    }
  }

  lemma DeleteTwice<K(!new), V>(d: OrderedDict<K, V>, a: set<K>, b: set<K>)
    ensures d.DeleteAll(a).DeleteAll(b) == d.DeleteAll(a + b)
  {
    MinusMinus(d.order, a, b);
    assert d.vals - a - b == d.vals - (a + b);
  }

  lemma DeleteAbsent<K(!new), V>(d: OrderedDict<K, V>, gone: set<K>)
    requires d.Valid()
    requires forall k :: k in gone ==> k !in d.vals
    ensures d.DeleteAll(gone) == d
  {
    MinusDisjoint(d.order, gone);
    assert d.vals - gone == d.vals;
  }

  function EmptyDict<K(!new), V>(): (r: OrderedDict<K, V>)
    ensures r.Valid()
  {
    OrderedDict([], map[])
  }
}
