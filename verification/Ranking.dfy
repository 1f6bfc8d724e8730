/** "The first k of a stable sort", as the matcher's shortlist and the pricing
    window use it. Rows are named by their ids; `rows` lists them in query order. */
module Ranking {

  ghost predicate Distinct(rows: seq<nat>) {
    forall i, j | 0 <= i < j < |rows| :: rows[i] != rows[j]
  }

  /** Python's `list.sort` is stable: an element goes in front of the first one
      that is not strictly smaller, later elements having been placed already. */
  function Insert(x: nat, sorted: seq<nat>, key: nat -> real): seq<nat> {
    if sorted == [] || key(x) <= key(sorted[0]) then [x] + sorted
    else [sorted[0]] + Insert(x, sorted[1..], key)
  }

  function StableSort(rows: seq<nat>, key: nat -> real): seq<nat> {
    if rows == [] then [] else Insert(rows[0], StableSort(rows[1..], key), key)
  }

  function Take(rows: seq<nat>, k: nat): seq<nat> {
    if |rows| <= k then rows else rows[..k]
  }

  ghost predicate Before(rows: seq<nat>, a: nat, b: nat) {
    exists i, j | 0 <= i < j < |rows| :: rows[i] == a && rows[j] == b
  }

  /** Strictly smaller key, or the same key and earlier in the query. */
  ghost predicate Precedes(rows: seq<nat>, key: nat -> real, a: nat, b: nat) {
    key(a) < key(b) || (key(a) == key(b) && Before(rows, a, b))
  }

  /** The reference definition: `best` is the k first rows, in order, where
      nothing left out precedes anything kept. */
  ghost predicate IsBest(rows: seq<nat>, key: nat -> real, k: nat, best: seq<nat>) {
    && |best| == (if |rows| <= k then |rows| else k)
    && (forall x | x in best :: x in rows)
    && (forall i, j | 0 <= i < j < |best| :: Precedes(rows, key, best[i], best[j]))
    && (forall x, y | x in rows && x !in best && y in best :: Precedes(rows, key, y, x))
  }

  // ---------- the sort ----------

  lemma {:induction false} InsertContents(x: nat, sorted: seq<nat>, key: nat -> real)
    ensures multiset(Insert(x, sorted, key)) == multiset{x} + multiset(sorted)
  {
    if sorted != [] && key(x) > key(sorted[0]) {
      InsertContents(x, sorted[1..], key);
      assert sorted == [sorted[0]] + sorted[1..];
    }
  }

  lemma {:induction false} SortContents(rows: seq<nat>, key: nat -> real)
    ensures multiset(StableSort(rows, key)) == multiset(rows)
    ensures |StableSort(rows, key)| == |rows|
    ensures forall x :: x in StableSort(rows, key) <==> x in rows
  {
    if rows != [] {
      SortContents(rows[1..], key);
      InsertContents(rows[0], StableSort(rows[1..], key), key);
      assert rows == [rows[0]] + rows[1..];
    }
    assert |StableSort(rows, key)| == |multiset(StableSort(rows, key))|;
    assert forall x :: x in StableSort(rows, key) <==> x in multiset(StableSort(rows, key));
  }

  ghost predicate Ordered(rows: seq<nat>, key: nat -> real, s: seq<nat>) {
    forall i, j | 0 <= i < j < |s| :: Precedes(rows, key, s[i], s[j])
  }

  lemma {:induction false} InsertOrdered(rows: seq<nat>, x: nat, sorted: seq<nat>, key: nat -> real)
    requires Ordered(rows, key, sorted)
    requires forall y | y in sorted :: Before(rows, x, y)
    ensures Ordered(rows, key, Insert(x, sorted, key))
    ensures forall y :: y in Insert(x, sorted, key) <==> y == x || y in sorted
  {
    if sorted == [] {
    } else if key(x) <= key(sorted[0]) {
      var r := [x] + sorted;
      forall j | 0 < j < |r| ensures Precedes(rows, key, x, r[j]) {
        assert r[j] == sorted[j - 1];
        assert j > 1 ==> Precedes(rows, key, sorted[0], sorted[j - 1]);
      }
    } else {
      var rest := Insert(x, sorted[1..], key);
      InsertOrdered(rows, x, sorted[1..], key);
      var r := [sorted[0]] + rest;
      forall j | 0 < j < |r| ensures Precedes(rows, key, r[0], r[j]) {
        assert r[j] == rest[j - 1];
        if r[j] != x {
          assert r[j] in rest;
          assert r[j] in sorted[1..];
          var m :| 0 <= m < |sorted[1..]| && sorted[1..][m] == r[j];
          assert Precedes(rows, key, sorted[0], sorted[m + 1]);
        }
      }
    }
  }

  lemma BeforeTail(rows: seq<nat>, a: nat, b: nat)
    requires rows != [] && Before(rows[1..], a, b)
    ensures Before(rows, a, b)
  {
    var i, j :| 0 <= i < j < |rows[1..]| && rows[1..][i] == a && rows[1..][j] == b;
    assert rows[i + 1] == a && rows[j + 1] == b;
  }

  lemma {:induction false} SortOrdered(rows: seq<nat>, key: nat -> real)
    ensures Ordered(rows, key, StableSort(rows, key))
  {
    if rows != [] {
      var tail := rows[1..];
      SortOrdered(tail, key);
      SortContents(tail, key);
      var s := StableSort(tail, key);
      forall i, j | 0 <= i < j < |s| ensures Precedes(rows, key, s[i], s[j]) {
        assert Precedes(tail, key, s[i], s[j]);
        if Before(tail, s[i], s[j]) {
          BeforeTail(rows, s[i], s[j]);
        }
      }
      forall y | y in s ensures Before(rows, rows[0], y) {
        var m :| 0 <= m < |tail| && tail[m] == y;
        assert rows[m + 1] == y;
      }
      InsertOrdered(rows, rows[0], s, key);
    }
  }

  // ---------- the first k ----------

  lemma PrecedesAsymmetric(rows: seq<nat>, key: nat -> real, a: nat, b: nat)
    requires Distinct(rows) && Precedes(rows, key, a, b)
    ensures !Precedes(rows, key, b, a)
  {
  }

  lemma ShortlistIsBest(rows: seq<nat>, key: nat -> real, k: nat)
    requires Distinct(rows)
    ensures IsBest(rows, key, k, Take(StableSort(rows, key), k))
  {
    var s := StableSort(rows, key);
    var best := Take(s, k);
    SortContents(rows, key);
    SortOrdered(rows, key);
    forall x | x in best ensures x in rows {
      assert x in s;
    }
    forall x, y | x in rows && x !in best && y in best ensures Precedes(rows, key, y, x) {
      var i :| 0 <= i < |best| && best[i] == y;
      assert x in s;
      var j :| 0 <= j < |s| && s[j] == x;
      assert j >= |best| by {
        assert forall m | 0 <= m < |best| :: best[m] == s[m];
      }
      assert Precedes(rows, key, s[i], s[j]);
    }
  }

  /** At every position both lists hold the one row that precedes all the rest. */
  lemma {:induction false} BestAgree(rows: seq<nat>, key: nat -> real, k: nat, r: seq<nat>, s: seq<nat>, n: nat)
    requires Distinct(rows)
    requires IsBest(rows, key, k, r) && IsBest(rows, key, k, s)
    requires n <= |r|
    ensures r[..n] == s[..n]
  {
    if n > 0 {
      BestAgree(rows, key, k, r, s, n - 1);
      forall m | 0 <= m < n - 1 ensures r[m] == s[m] {
        assert r[..n - 1][m] == s[..n - 1][m];
      }
      var a, b := r[n - 1], s[n - 1];
      if a != b {
        NextPrecedes(rows, key, k, r, s, n - 1);
        NextPrecedes(rows, key, k, s, r, n - 1);
        PrecedesAsymmetric(rows, key, a, b);
        assert false;
      }
    }
  }

  lemma NextPrecedes(rows: seq<nat>, key: nat -> real, k: nat, r: seq<nat>, s: seq<nat>, n: nat)
    requires Distinct(rows)
    requires IsBest(rows, key, k, r) && IsBest(rows, key, k, s)
    requires n < |r| && r[n] != s[n]
    requires forall m | 0 <= m < n :: r[m] == s[m]
    ensures Precedes(rows, key, s[n], r[n])
  {
    if r[n] in s {
      var j :| 0 <= j < |s| && s[j] == r[n];
      if j < n {
        assert Precedes(rows, key, r[j], r[n]);
        PrecedesAsymmetric(rows, key, r[j], r[n]);
        assert false;
      }
      assert Precedes(rows, key, s[n], s[j]);
    }
  }

  /** Filter, stable sort, take k computes the reference definition, and
      nothing else satisfies it. */
  lemma ShortlistExactly(rows: seq<nat>, key: nat -> real, k: nat, best: seq<nat>)
    requires Distinct(rows)
    ensures best == Take(StableSort(rows, key), k) <==> IsBest(rows, key, k, best)
  {
    ShortlistIsBest(rows, key, k);
    var s := Take(StableSort(rows, key), k);
    if IsBest(rows, key, k, best) {
      BestAgree(rows, key, k, best, s, |best|);
      assert best[..|best|] == best && s[..|best|] == s;
    }
  }
}
