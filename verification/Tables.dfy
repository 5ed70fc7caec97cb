/** What the services need from the database: query pages, ordered ids, and the largest element of a set of ids. */
module Tables {

  datatype Error =
    | Disabled             // the feature flag is off
    | DatabaseFault        // a statement failed for a reason outside the model
    | UniqueViolation
    | ForeignKeyViolation

  datatype Outcome = Done | Failed(error: Error)

  /** A statement may fail at any time. */
  method DatabaseFails() returns (failed: bool) {
    failed := *;
  }

  /** A statement or a call to storage may fail, unless these are reliable. */
  method Faults(reliable: bool) returns (failed: bool)
    ensures failed ==> !reliable
  {
    failed := *;
    failed := failed && !reliable;
  }

  function Min(a: int, b: int): int {
    if a < b then a else b
  }

  function Max(a: int, b: int): int {
    if a < b then b else a
  }

  predicate Distinct<T(==)>(s: seq<T>) {
    forall i, j | 0 <= i < j < |s| :: s[i] != s[j]
  }

  function Elements<T>(s: seq<T>): set<T> {
    set x | x in s
  }

  lemma {:induction false} DistinctSize<T>(s: seq<T>)
    requires Distinct(s)
    ensures |Elements(s)| == |s|
  {
    if s == [] {
      assert Elements(s) == {};
    } else {
      var last := |s| - 1;
      assert Elements(s) == Elements(s[..last]) + {s[last]};
      DistinctSize(s[..last]);
    }
  }

  lemma SubsetSize<T>(small: set<T>, large: set<T>)
    requires small <= large
    ensures |small| <= |large| && (|small| == |large| <==> small == large)
  {
    assert large == small + (large - small);
    assert |large| == |small| + |large - small|;
  }

  /** Two disjoint parts of a set; the first is empty when the second has the size of the whole. */
  lemma PartSizes<T>(a: set<T>, b: set<T>, all: set<T>)
    requires a <= all && b <= all && a !! b
    ensures |a| + |b| <= |all| && (|b| == |all| ==> a == {})
  {
    assert |a + b| == |a| + |b|;
    SubsetSize(a + b, all);
    SubsetSize(b, all);
  }

  /** A set splits into what another one has and what it has not. */
  lemma SplitBy<T>(a: set<T>, b: set<T>)
    ensures |a| == |b * a| + |a - b| && (|a - b| == 0 <==> a <= b)
  {
    assert a == (b * a) + (a - b);
    assert |a| == |b * a| + |a - b|;
    if |a - b| == 0 {
      assert a - b == {};
    }
  }

  /** A grouped query with a limit: distinct rows of the table in any order, as many as there are up to the limit. */
  method SelectPage<T(==)>(rows: set<T>, limit: nat) returns (page: seq<T>)
    ensures Distinct(page) && Elements(page) <= rows
    ensures |page| == Min(|rows|, limit)
  {
    page := [];
    var rest := rows;
    while |page| < limit && rest != {}
      invariant Distinct(page) && Elements(page) == rows - rest && rest <= rows
      invariant |page| + |rest| == |rows| && |page| <= limit
      decreases |rest|
    {
      var x :| x in rest;
      assert Elements(page + [x]) == Elements(page) + {x};
      page := page + [x];
      rest := rest - {x};
    }
  }

  /** The largest id of a non-empty set. */
  ghost function MaxOf(s: set<nat>): (m: nat)
    requires s != {}
    ensures m in s && forall x | x in s :: x <= m
  {
    var x :| x in s;
    if s == {x} then x
    else
      var m := MaxOf(s - {x});
      assert s == (s - {x}) + {x};
      if x < m then m else x
  }

  predicate Descending(s: seq<nat>) {
    forall i, j | 0 <= i < j < |s| :: s[i] > s[j]
  }

  /** A descending listing of a non-empty set starts with its largest element. */
  lemma DescendingHead(sorted: seq<nat>, ids: set<nat>)
    requires Descending(sorted) && Elements(sorted) == ids && ids != {}
    ensures sorted[0] == MaxOf(ids) && Elements(sorted[1..]) == ids - {MaxOf(ids)}
  {
    var m := MaxOf(ids);
    assert sorted != [];
    var i :| 0 <= i < |sorted| && sorted[i] == m;
    assert sorted[0] in Elements(sorted);
    forall x | x in Elements(sorted[1..]) ensures x in ids && x != m {
      var j :| 0 <= j < |sorted[1..]| && sorted[1..][j] == x;
      assert sorted[j + 1] == x && sorted[0] > sorted[j + 1];
    }
    forall x | x in ids && x != m ensures x in Elements(sorted[1..]) {
      var j :| 0 <= j < |sorted| && sorted[j] == x;
      assert sorted[1..][j - 1] == x;
    }
  }

  /** An id query ordered by id descending. */
  method SelectDescending(ids: set<nat>) returns (sorted: seq<nat>)
    ensures Descending(sorted) && Elements(sorted) == ids && |sorted| == |ids|
    ensures ids != {} ==> sorted[0] == MaxOf(ids) && Elements(sorted[1..]) == ids - {MaxOf(ids)}
  {
    sorted := [];
    var rest := ids;
    while rest != {}
      invariant rest <= ids && |sorted| + |rest| == |ids|
      invariant forall x :: x in sorted <==> x in ids && x !in rest
      invariant Descending(sorted)
      invariant forall i, x | 0 <= i < |sorted| && x in rest :: sorted[i] > x
      decreases |rest|
    {
      var m := PickMax(rest);
      sorted := sorted + [m];
      rest := rest - {m};
    }
    if ids != {} {
      DescendingHead(sorted, ids);
    }
  }

  method PickMax(s: set<nat>) returns (m: nat)
    requires s != {}
    ensures m in s && forall y | y in s :: y <= m
  {
    m :| m in s;
    var rest := s - {m};
    while rest != {}
      invariant m in s && rest <= s && forall y | y in s && y !in rest :: y <= m
      decreases |rest|
    {
      var x :| x in rest;
      rest := rest - {x};
      if m < x {
        m := x;
      }
    }
  }
}
