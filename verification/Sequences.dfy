/** Facts about sequences that the solver does not use on its own. */
module Sequences {

  lemma Associate<T>(a: seq<T>, b: seq<T>, c: seq<T>)
    ensures a + b + c == a + (b + c)
  {
  }

  // ----- Strictly ordered lists -----

  ghost predicate Strict<T(!new)>(less: (T, T) -> bool) {
    forall x, y :: less(x, y) ==> !less(y, x)
  }

  predicate Ordered<T>(less: (T, T) -> bool, s: seq<T>) {
    forall i, j :: 0 <= i < j < |s| ==> less(s[i], s[j])
  }

  /** There is only one order of given elements. */
  lemma {:induction false} OrderIsUnique<T(!new)>(less: (T, T) -> bool, s: seq<T>, t: seq<T>)
    requires Strict(less) && Ordered(less, s) && Ordered(less, t)
    requires forall x :: x in s <==> x in t
    ensures s == t
  {
    if s == [] {
      assert forall i :: 0 <= i < |t| ==> t[i] in t;
    } else {
      LeastIsFirst(less, s, t);
      LeastIsFirst(less, t, s);
      assert s == [s[0]] + s[1..] && t == [t[0]] + t[1..];
      forall x
        ensures x in s[1..] <==> x in t[1..]
      {
        TailMember(less, s, x);
        TailMember(less, t, x);
      }
      OrderIsUnique(less, s[1..], t[1..]);
    }
  }

  lemma LeastIsFirst<T>(less: (T, T) -> bool, s: seq<T>, t: seq<T>)
    requires Ordered(less, t) && s != [] && s[0] in t
    ensures t != [] && (s[0] == t[0] || less(t[0], s[0]))
  {
    var i :| 0 <= i < |t| && t[i] == s[0];
    assert i > 0 ==> less(t[0], t[i]);
  }

  lemma TailMember<T(!new)>(less: (T, T) -> bool, s: seq<T>, x: T)
    requires Strict(less) && Ordered(less, s) && s != []
    ensures x in s[1..] <==> x in s && x != s[0]
  {
    if x in s[1..] {
      var i :| 0 <= i < |s[1..]| && s[1..][i] == x;
      assert less(s[0], s[i + 1]);
    }
    if x in s && x != s[0] {
      var i :| 0 <= i < |s| && s[i] == x;
      assert s[1..][i - 1] == x;
    }
  }
}
