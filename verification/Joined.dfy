/** Texts joined by a separator that the parts do not contain. */
module Joined {

  predicate Free(c: char, s: string) {
    c !in s
  }

  /** How many characters come before the first `c`. */
  function Before(c: char, s: string): nat {
    if s == "" || s[0] == c then 0 else 1 + Before(c, s[1..])
  }

  lemma {:induction false} BeforeJoint(c: char, a: string, b: string)
    requires Free(c, a)
    ensures Before(c, a + [c] + b) == |a|
  {
    if a == "" {
      assert (a + [c] + b)[0] == c;
    } else {
      assert (a + [c] + b)[0] == a[0] && (a + [c] + b)[1..] == a[1..] + [c] + b;
      BeforeJoint(c, a[1..], b);
    }
  }

  lemma {:induction false} FreeHasNoJoint(c: char, a: string)
    requires Free(c, a)
    ensures Before(c, a) == |a|
  {
    if a != "" {
      FreeHasNoJoint(c, a[1..]);
    }
  }

  /** The first separator is the joint. */
  lemma SplitAtJoint(c: char, a: string, b: string, a': string, b': string)
    requires Free(c, a) && Free(c, a') && a + [c] + b == a' + [c] + b'
    ensures a == a' && b == b'
  {
    var left, right := a + [c] + b, a' + [c] + b';
    BeforeJoint(c, a, b);
    BeforeJoint(c, a', b');
    assert left[..|a|] == a && right[..|a'|] == a';
    assert left[|a| + 1..] == b && right[|a'| + 1..] == b';
  }
}
