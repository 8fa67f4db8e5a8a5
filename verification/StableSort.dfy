/**
 Array.prototype.sort by a numeric key, which keeps elements with equal keys in their
 order. Elements are known by their index in a list of keys.
 */
module StableSort {
  import Sequences

  /** Strictly ascending by key, and by index where keys are equal. */
  predicate Before(keys: seq<int>, i: nat, j: nat)
    requires i < |keys| && j < |keys|
  {
    keys[i] < keys[j] || (keys[i] == keys[j] && i < j)
  }

  predicate InRange(keys: seq<int>, order: seq<nat>) {
    forall a :: 0 <= a < |order| ==> order[a] < |keys|
  }

  predicate Ordered(keys: seq<int>, order: seq<nat>)
    requires InRange(keys, order)
  {
    forall a, b :: 0 <= a < b < |order| ==> Before(keys, order[a], order[b])
  }

  predicate Ascending(s: seq<nat>) {
    forall a, b :: 0 <= a < b < |s| ==> s[a] < s[b]
  }

  function Insert(keys: seq<int>, i: nat, order: seq<nat>): (r: seq<nat>)
    requires i < |keys| && InRange(keys, order)
    ensures forall x :: x in r <==> x == i || x in order
    ensures |r| == |order| + 1 && InRange(keys, r)
  {
    if order == [] then [i]
    else if keys[i] <= keys[order[0]] then [i] + order
    else
      assert order == [order[0]] + order[1..];
      [order[0]] + Insert(keys, i, order[1..])
  }

  /** The elements listed by ascending index, put in order. */
  function Sorted(keys: seq<int>, listed: seq<nat>): (r: seq<nat>)
    requires InRange(keys, listed)
    ensures forall x :: x in r <==> x in listed
    ensures |r| == |listed| && InRange(keys, r)
  {
    if listed == [] then []
    else
      assert listed == [listed[0]] + listed[1..];
      Insert(keys, listed[0], Sorted(keys, listed[1..]))
  }

  lemma {:induction false} InsertKeepsOrder(keys: seq<int>, i: nat, order: seq<nat>)
    requires i < |keys| && InRange(keys, order) && Ordered(keys, order)
    requires forall a :: 0 <= a < |order| ==> i < order[a]
    ensures Ordered(keys, Insert(keys, i, order))
  {
    hide Ordered;
    if order == [] {
      PutInFront(keys, i, order);
      assert [i] + order == [i];
    } else {
      FrontIsLeast(keys, order);
      if keys[i] <= keys[order[0]] {
        PutInFront(keys, i, order);
      } else {
        InsertKeepsOrder(keys, i, order[1..]);
        PutInFront(keys, order[0], Insert(keys, i, order[1..]));
      }
    }
  }

  lemma PutInFront(keys: seq<int>, i: nat, rest: seq<nat>)
    requires i < |keys| && InRange(keys, rest) && Ordered(keys, rest)
    requires forall x :: x in rest ==> Before(keys, i, x)
    ensures Ordered(keys, [i] + rest)
  {
  }

  lemma FrontIsLeast(keys: seq<int>, order: seq<nat>)
    requires order != [] && InRange(keys, order) && Ordered(keys, order)
    ensures Ordered(keys, order[1..])
    ensures forall x :: x in order[1..] ==> Before(keys, order[0], x)
    ensures forall x :: x in order ==> x == order[0] || x in order[1..]
  {
    assert order == [order[0]] + order[1..];
  }

  lemma {:induction false} SortedIsOrdered(keys: seq<int>, listed: seq<nat>)
    requires InRange(keys, listed) && Ascending(listed)
    ensures Ordered(keys, Sorted(keys, listed))
  {
    if listed != [] {
      SortedIsOrdered(keys, listed[1..]);
      var rest := Sorted(keys, listed[1..]);
      forall a | 0 <= a < |rest|
        ensures listed[0] < rest[a]
      {
        assert rest[a] in rest;
        var c :| 0 <= c < |listed[1..]| && listed[1..][c] == rest[a];
        assert listed[c + 1] == rest[a];
      }
      InsertKeepsOrder(keys, listed[0], rest);
    }
  }

  function UpTo(n: nat): (listed: seq<nat>)
    ensures |listed| == n && forall i :: 0 <= i < n ==> listed[i] == i
    ensures forall i: nat :: i < n <==> i in listed
  {
    if n == 0 then [] else UpTo(n - 1) + [n - 1]
  }

  /** The places of a whole list, in the order of its keys. */
  function InOrder(keys: seq<int>): (order: seq<nat>)
    ensures |order| == |keys| && InRange(keys, order) && Ordered(keys, order)
    ensures forall i: nat :: i < |keys| <==> i in order
  {
    SortedIsOrdered(keys, UpTo(|keys|));
    Sorted(keys, UpTo(|keys|))
  }

  /** An order of given elements by key and index is unique, so `Sorted` is what a stable sort returns. */
  lemma OrderIsUnique(keys: seq<int>, s: seq<nat>, t: seq<nat>)
    requires InRange(keys, s) && InRange(keys, t) && Ordered(keys, s) && Ordered(keys, t)
    requires forall x :: x in s <==> x in t
    ensures s == t
  {
    var less := (i: nat, j: nat) => i < |keys| && j < |keys| && Before(keys, i, j);
    Sequences.OrderIsUnique(less, s, t);
  }
}
