/** Strictly increasing sequences. */
module Sequences {
  predicate Increasing<T(!new)>(s: seq<T>, less: (T, T) -> bool) {
    forall i, j :: 0 <= i < j < |s| ==> less(s[i], s[j])
  }

  ghost predicate Asymmetric<T(!new)>(less: (T, T) -> bool) {
    forall x, y :: less(x, y) ==> !less(y, x)
  }

  /** What comes after the first element. */
  lemma LaterMembers<T(!new)>(s: seq<T>, less: (T, T) -> bool, x: T)
    requires Asymmetric(less) && Increasing(s, less) && s != []
    ensures x in s[1..] <==> x in s && x != s[0]
  {
    if x in s && x != s[0] {
      var i :| 0 <= i < |s| && s[i] == x;
      assert s[1..][i - 1] == x;
    }
    if x in s[1..] {
      var i :| 0 <= i < |s[1..]| && s[1..][i] == x;
      assert less(s[0], s[i + 1]);
    }
  }

  lemma FirstComesFirst<T(!new)>(s: seq<T>, less: (T, T) -> bool, x: T)
    requires Increasing(s, less) && x in s
    ensures x == s[0] || less(s[0], x)
  {
  }

  /** Two increasing sequences with the same elements are the same sequence. */
  lemma {:induction false} IncreasingUnique<T(!new)>(a: seq<T>, b: seq<T>, less: (T, T) -> bool)
    requires Asymmetric(less) && Increasing(a, less) && Increasing(b, less)
    requires forall x :: x in a <==> x in b
    ensures a == b
  {
    assert a != [] ==> a[0] in b;
    assert b != [] ==> b[0] in a;
    if a != [] {
      FirstComesFirst(a, less, b[0]);
      FirstComesFirst(b, less, a[0]);
      forall x
        ensures x in a[1..] <==> x in b[1..]
      {
        LaterMembers(a, less, x);
        LaterMembers(b, less, x);
      }
      IncreasingUnique(a[1..], b[1..], less);
      assert a == [a[0]] + a[1..] && b == [b[0]] + b[1..];
    }
  }
}
