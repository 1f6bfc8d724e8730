/** Counting and selecting the rows of a table that have a property. */
module Counting {

  function Count<T>(rows: seq<T>, p: T -> bool): nat {
    if rows == [] then 0
    else Count(rows[..|rows| - 1], p) + (if p(rows[|rows| - 1]) then 1 else 0)
  }

  lemma CountAppend<T>(rows: seq<T>, x: T, p: T -> bool)
    ensures Count(rows + [x], p) == Count(rows, p) + if p(x) then 1 else 0
  {
    assert (rows + [x])[..|rows + [x]| - 1] == rows;
  }

  lemma {:induction false} CountUpdate<T>(rows: seq<T>, i: nat, x: T, p: T -> bool)
    requires i < |rows|
    ensures Count(rows[i := x], p) + (if p(rows[i]) then 1 else 0) == Count(rows, p) + (if p(x) then 1 else 0)
    decreases |rows|
  {
    var front := rows[..|rows| - 1];
    var after := rows[i := x];
    if i < |front| {
      CountUpdate(front, i, x, p);
      assert after[..|after| - 1] == front[i := x];
    } else {
      assert after[..|after| - 1] == front;
    }
  }

  // ---------- selecting ----------

  /** The rows with the property, in table order. */
  function Select<T>(rows: seq<T>, p: T -> bool): seq<T> {
    if rows == [] then []
    else Select(rows[..|rows| - 1], p) + (if p(rows[|rows| - 1]) then [rows[|rows| - 1]] else [])
  }

  lemma {:induction false} SelectConcat<T>(a: seq<T>, b: seq<T>, p: T -> bool)
    ensures Select(a + b, p) == Select(a, p) + Select(b, p)
  {
    if b == [] {
      assert a + b == a;
    } else {
      assert (a + b)[..|a + b| - 1] == a + b[..|b| - 1];
      SelectConcat(a, b[..|b| - 1], p);
    }
  }

  lemma {:induction false} SelectUniform<T>(rows: seq<T>, p: T -> bool, all: bool)
    requires forall i | 0 <= i < |rows| :: p(rows[i]) == all
    ensures Select(rows, p) == if all then rows else []
  {
    if rows != [] {
      SelectUniform(rows[..|rows| - 1], p, all);
    }
  }

  lemma {:induction false} SelectNone<T>(rows: seq<T>, p: T -> bool)
    ensures Select(rows, p) == [] <==> forall i | 0 <= i < |rows| :: !p(rows[i])
  {
    if rows != [] {
      var front, last := rows[..|rows| - 1], rows[|rows| - 1];
      SelectNone(front, p);
      assert forall i | 0 <= i < |front| :: front[i] == rows[i];
      assert Select(rows, p) == [] ==> !p(rows[|rows| - 1]);
    }
  }
}
