/** Queries for one row, ordered by id. */
module Queries {

  /** The row a query ordered by id finds first among those that satisfy the condition. */
  predicate First(rows: set<nat>, x: nat) {
    x in rows && forall y | y in rows :: x <= y
  }

  ghost function FirstOf(rows: set<nat>): nat
    requires rows != {}
    ensures First(rows, FirstOf(rows))
  {
    FirstExists(rows);
    var x :| First(rows, x);
    x
  }

  lemma {:induction false} FirstExists(rows: set<nat>)
    requires rows != {}
    ensures exists x :: First(rows, x)
  {
    var x :| x in rows;
    if rows == {x} {
      assert First(rows, x);
    } else {
      var others := rows - {x};
      FirstExists(others);
      var y :| First(others, y);
      assert forall z | z in rows :: z == x || z in others;
      assert First(rows, x) || First(rows, y);
    }
  }

  /** The row a query ordered by id finds first. */
  method PickFirst(rows: set<nat>) returns (x: nat)
    requires rows != {}
    ensures x in rows && x == FirstOf(rows)
  {
    FirstExists(rows);
    x :| x in rows && First(rows, x);
  }
}
