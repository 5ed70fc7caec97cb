/** Sums of a weight over the elements of a sequence, used to count goroutines and to measure progress. */
module Sums {

  function Sum<T>(s: seq<T>, w: T -> int): int {
    if s == [] then 0 else w(s[0]) + Sum(s[1..], w)
  }

  lemma {:induction false} SumUpdate<T>(s: seq<T>, i: nat, x: T, w: T -> int)
    requires i < |s|
    ensures Sum(s[i := x], w) == Sum(s, w) - w(s[i]) + w(x)
  {
    if i == 0 {
      assert s[i := x][1..] == s[1..];
    } else {
      assert s[i := x][1..] == s[1..][i - 1 := x];
      SumUpdate(s[1..], i - 1, x, w);
    }
  }

  lemma {:induction false} SumAppend<T>(s: seq<T>, x: T, w: T -> int)
    ensures Sum(s + [x], w) == Sum(s, w) + w(x)
  {
    if s == [] {
      assert [x][1..] == [];
    } else {
      assert (s + [x])[1..] == s[1..] + [x];
      SumAppend(s[1..], x, w);
    }
  }

  /** A sum of non-negative weights is at least each of its terms. */
  lemma {:induction false} SumAtLeast<T>(s: seq<T>, i: nat, w: T -> int)
    requires i < |s|
    requires forall k | 0 <= k < |s| :: w(s[k]) >= 0
    ensures Sum(s, w) >= w(s[i])
  {
    SumNonNegative(s[1..], w);
    if i > 0 {
      SumAtLeast(s[1..], i - 1, w);
    }
  }

  lemma {:induction false} SumNonNegative<T>(s: seq<T>, w: T -> int)
    requires forall k | 0 <= k < |s| :: w(s[k]) >= 0
    ensures Sum(s, w) >= 0
  {
    if s != [] {
      assert forall k | 0 <= k < |s[1..]| :: s[1..][k] == s[k + 1];
      SumNonNegative(s[1..], w);
    }
  }

  /** A positive sum of non-negative weights has a positive term. */
  lemma {:induction false} SumPositive<T>(s: seq<T>, w: T -> int) returns (i: nat)
    requires Sum(s, w) > 0
    ensures i < |s| && w(s[i]) > 0
  {
    if w(s[0]) > 0 {
      i := 0;
    } else {
      var j := SumPositive(s[1..], w);
      i := j + 1;
    }
  }

  lemma {:induction false} SumZero<T>(s: seq<T>, w: T -> int)
    requires forall k | 0 <= k < |s| :: w(s[k]) == 0
    ensures Sum(s, w) == 0
  {
    if s != [] {
      assert forall k | 0 <= k < |s[1..]| :: s[1..][k] == s[k + 1];
      SumZero(s[1..], w);
    }
  }

  /** The positions that weigh one. */
  function Ones<T>(s: seq<T>, f: T -> int): set<nat> {
    set i: nat | i < |s| && f(s[i]) == 1
  }

  /** With weights zero and one the sum is the number of positions that weigh one. */
  lemma {:induction false} SumIsCount<T>(s: seq<T>, f: T -> int)
    requires forall i | 0 <= i < |s| :: f(s[i]) == 0 || f(s[i]) == 1
    ensures Sum(s, f) == |Ones(s, f)|
  {
    if s == [] {
    } else {
      var last := |s| - 1;
      SumLast(s, f);
      SumIsCount(s[..last], f);
      OnesLast(s, f);
    }
  }

  lemma SumLast<T>(s: seq<T>, f: T -> int)
    requires s != []
    ensures Sum(s, f) == Sum(s[..|s| - 1], f) + f(s[|s| - 1])
  {
    assert s == s[..|s| - 1] + [s[|s| - 1]];
    SumAppend(s[..|s| - 1], s[|s| - 1], f);
  }

  lemma OnesLast<T>(s: seq<T>, f: T -> int)
    requires s != []
    ensures var last := |s| - 1;
            |Ones(s, f)| == |Ones(s[..last], f)| + (if f(s[last]) == 1 then 1 else 0)
  {
    var last := |s| - 1;
    assert Ones(s, f) == if f(s[last]) == 1 then Ones(s[..last], f) + {last} else Ones(s[..last], f);
  }
}
