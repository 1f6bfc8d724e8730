/** The matcher agent: hard filters, the shortlist, and one match row per scored
    item. The language model's reply is a parameter: any list of items, or none
    when the call itself fails. */
module Matcher {
  import opened Wrappers
  import opened Text
  import opened Ranking
  import opened Tables
  import opened UnitOfWork

  const MAX_CANDIDATES_TO_SCORE := 10
  const MISSING_DISTANCE: real := 9999.0

  // ---------- compatibility ----------

  /** Python's `needle in hay` on texts. */
  predicate Contains(hay: string, needle: string) {
    needle <= hay || (hay != [] && Contains(hay[1..], needle))
  }

  ghost predicate OccursAt(hay: string, needle: string, i: nat) {
    i + |needle| <= |hay| && hay[i..i + |needle|] == needle
  }

  /** A text contains another iff the other occurs somewhere in it. */
  lemma {:induction false} ContainsIsOccurrence(hay: string, needle: string)
    ensures Contains(hay, needle) <==> exists i: nat :: OccursAt(hay, needle, i)
  {
    if needle <= hay {
      assert OccursAt(hay, needle, 0);
    } else if hay != [] {
      ContainsIsOccurrence(hay[1..], needle);
      if i: nat :| OccursAt(hay[1..], needle, i) {
        OccursLater(hay, needle, i);
      }
      if i: nat :| OccursAt(hay, needle, i) {
        assert i > 0;
        OccursLater(hay, needle, i - 1);
      }
    }
  }

  lemma OccursLater(hay: string, needle: string, i: nat)
    requires hay != []
    ensures OccursAt(hay[1..], needle, i) <==> OccursAt(hay, needle, i + 1)
  {
    if i + 1 + |needle| <= |hay| {
      assert hay[1..][i..i + |needle|] == hay[i + 1..i + 1 + |needle|];
    }
  }

  predicate BodyFits(loadType: string, vehicleType: string) {
    Contains(Lower(vehicleType), Lower(loadType)) || Contains(Lower(loadType), Lower(vehicleType))
  }

  predicate BodyCompatible(loadTypes: Option<seq<string>>, vehicleType: Option<string>) {
    if loadTypes.None? || loadTypes.value == [] then true
    else if !Truthy(vehicleType) then false
    else exists i | 0 <= i < |loadTypes.value| :: BodyFits(loadTypes.value[i], vehicleType.value)
  }

  /** Letter case is irrelevant on both sides. */
  lemma BodyFitsIgnoresCase(loadType: string, vehicleType: string)
    ensures BodyFits(Upper(loadType), vehicleType) == BodyFits(loadType, vehicleType)
    ensures BodyFits(loadType, Upper(vehicleType)) == BodyFits(loadType, vehicleType)
    ensures BodyFits(loadType, vehicleType) == BodyFits(vehicleType, loadType)
  {
    assert Lower(Upper(loadType)) == Lower(loadType);
    assert Lower(Upper(vehicleType)) == Lower(vehicleType);
  }

  predicate CapacityOk(loadWeight: Option<int>, vehicleCapacity: Option<int>) {
    if loadWeight.None? || vehicleCapacity.None? then true else vehicleCapacity.value >= loadWeight.value
  }

  predicate SameCountry(l: Load, v: Vehicle) {
    !(Truthy(l.origin.country) && Truthy(v.origin.country) && l.origin.country != v.origin.country)
  }

  predicate Compatible(l: Load, v: Vehicle) {
    SameCountry(l, v) && BodyCompatible(l.bodyTypes, v.bodyType) && CapacityOk(l.weight, v.capacity)
  }

  /** Available and compatible with the load. */
  predicate Viable(db: Db, l: Load, v: nat) {
    HasVehicle(db, v) && db.vehicles[v].value.status == Available && Compatible(l, db.vehicles[v].value)
  }

  /** One of the two texts occurs in the other, letter case aside. */
  ghost predicate OneInTheOther(a: string, b: string) {
    || (exists i: nat :: OccursAt(Lower(a), Lower(b), i))
    || (exists i: nat :: OccursAt(Lower(b), Lower(a), i))
  }

  /** The vehicle may carry the load: it is available; neither known to be too small
      nor known to be in another country; and if the load names body types, its own
      is named and fits one of them. */
  ghost predicate MayCarry(l: Load, v: Vehicle) {
    && v.status == Available
    && !(l.weight.Some? && v.capacity.Some? && v.capacity.value < l.weight.value)
    && !(exists a, b :: l.origin.country == Some(a) && v.origin.country == Some(b) && a != "" && b != "" && a != b)
    && (l.bodyTypes == None || l.bodyTypes == Some([])
        || (v.bodyType.Some? && v.bodyType.value != ""
            && exists t | t in l.bodyTypes.value :: OneInTheOther(t, v.bodyType.value)))
  }

  /** The vehicle exists and may carry the load. */
  ghost predicate IsCandidate(db: Db, l: Load, v: nat) {
    v < |db.vehicles| && db.vehicles[v].Some? && MayCarry(l, db.vehicles[v].value)
  }

  lemma BodyFitsMeans(a: string, b: string)
    ensures BodyFits(a, b) <==> OneInTheOther(a, b)
  {
    ContainsIsOccurrence(Lower(b), Lower(a));
    ContainsIsOccurrence(Lower(a), Lower(b));
  }

  lemma BodyCompatibleMeans(types: Option<seq<string>>, vehicleType: Option<string>)
    ensures BodyCompatible(types, vehicleType) <==>
            types == None || types == Some([])
            || (vehicleType.Some? && vehicleType.value != ""
                && exists t | t in types.value :: OneInTheOther(t, vehicleType.value))
  {
    if types.Some? && types.value != [] && vehicleType.Some? && vehicleType.value != "" {
      forall t ensures BodyFits(t, vehicleType.value) <==> OneInTheOther(t, vehicleType.value) {
        BodyFitsMeans(t, vehicleType.value);
      }
      hide BodyFits, OneInTheOther;
    }
  }

  lemma SameCountryMeans(l: Load, v: Vehicle)
    ensures SameCountry(l, v) <==>
            !(exists a, b :: l.origin.country == Some(a) && v.origin.country == Some(b) && a != "" && b != "" && a != b)
  {
    if !SameCountry(l, v) {
      var a, b := l.origin.country.value, v.origin.country.value;
      assert l.origin.country == Some(a) && v.origin.country == Some(b) && a != "" && b != "" && a != b;
    }
  }

  /** What passes the filters is what may carry the load. */
  lemma ViableIsCandidate(db: Db, l: Load, v: nat)
    ensures Viable(db, l, v) <==> IsCandidate(db, l, v)
  {
    if HasVehicle(db, v) {
      BodyCompatibleMeans(l.bodyTypes, db.vehicles[v].value.bodyType);
      SameCountryMeans(l, db.vehicles[v].value);
      hide BodyCompatible, SameCountry, OneInTheOther;
    }
  }

  /** The great-circle distance is a parameter; missing coordinates are far away. */
  type Metric = (int, int, int, int) -> real

  function RoughDistance(metric: Metric, a: Place, b: Place): real {
    if a.lat.None? || a.lon.None? || b.lat.None? || b.lon.None? then MISSING_DISTANCE
    else metric(a.lat.value, a.lon.value, b.lat.value, b.lon.value)
  }

  /** The distance between two places, latitude first; 9999 unless both are located. */
  function Kilometres(metric: Metric, a: Place, b: Place): real {
    match (a.lat, a.lon, b.lat, b.lon)
    case (Some(p), Some(q), Some(r), Some(s)) => metric(p, q, r, s)
    case _ => 9999.0
  }

  function DistanceTo(db: Db, l: Load, metric: Metric, v: nat): real {
    if HasVehicle(db, v) then RoughDistance(metric, l.origin, db.vehicles[v].value.origin) else MISSING_DISTANCE
  }

  /** The sort key, on vehicle ids. */
  function DistanceKey(db: Db, l: Load, metric: Metric): nat -> real {
    (v: nat) => DistanceTo(db, l, metric, v)
  }

  // ---------- the shortlist ----------

  function ViableOf(db: Db, l: Load, query: seq<nat>): seq<nat> {
    if query == [] then []
    else
      var front, last := ViableOf(db, l, query[..|query| - 1]), query[|query| - 1];
      if Viable(db, l, last) then front + [last] else front
  }

  function Shortlist(db: Db, l: Load, query: seq<nat>, metric: Metric): seq<nat> {
    Take(StableSort(ViableOf(db, l, query), DistanceKey(db, l, metric)), MAX_CANDIDATES_TO_SCORE)
  }

  /** The answer to "which vehicles are available", in whatever order it came. */
  ghost predicate ListsAvailable(db: Db, query: seq<nat>) {
    && Distinct(query)
    && forall v: nat :: v in query <==> HasVehicle(db, v) && db.vehicles[v].value.status == Available
  }

  /** The vehicle's origin is strictly closer to the load's, or equally far and the
      vehicle earlier in the query. */
  ghost predicate Closer(db: Db, l: Load, metric: Metric, query: seq<nat>, a: nat, b: nat) {
    && HasVehicle(db, a) && HasVehicle(db, b)
    && var here, there := Kilometres(metric, l.origin, db.vehicles[a].value.origin),
                          Kilometres(metric, l.origin, db.vehicles[b].value.origin);
       here < there || (here == there && Before(query, a, b))
  }

  ghost predicate IsBestTen(db: Db, l: Load, metric: Metric, query: seq<nat>, best: seq<nat>) {
    && (forall v: nat | v in best :: IsCandidate(db, l, v))
    && (forall i, j | 0 <= i < j < |best| :: Closer(db, l, metric, query, best[i], best[j]))
    && (forall v: nat, w: nat | IsCandidate(db, l, v) && v !in best && w in best ::
          Closer(db, l, metric, query, w, v))
    && (|best| == 10 || (|best| < 10 && forall v: nat | IsCandidate(db, l, v) :: v in best))
  }

  lemma {:induction false} ViableOfMembers(db: Db, l: Load, query: seq<nat>)
    ensures forall v: nat :: v in ViableOf(db, l, query) <==> v in query && Viable(db, l, v)
    ensures Distinct(query) ==> Distinct(ViableOf(db, l, query))
  {
    if query != [] {
      var front, last := query[..|query| - 1], query[|query| - 1];
      ViableOfMembers(db, l, front);
      assert query == front + [last];
    }
  }

  lemma {:induction false} ViableOfKeepsOrder(db: Db, l: Load, query: seq<nat>, a: nat, b: nat)
    ensures Before(ViableOf(db, l, query), a, b) <==> Before(query, a, b) && Viable(db, l, a) && Viable(db, l, b)
  {
    if query != [] {
      var front, last := query[..|query| - 1], query[|query| - 1];
      ViableOfKeepsOrder(db, l, front, a, b);
      ViableOfMembers(db, l, front);
      assert query == front + [last];
      BeforeAppend(front, last, a, b);
      BeforeAppend(ViableOf(db, l, front), last, a, b);
    }
  }

  lemma BeforeAppend(rows: seq<nat>, x: nat, a: nat, b: nat)
    ensures Before(rows + [x], a, b) <==> Before(rows, a, b) || (a in rows && b == x)
  {
    var all := rows + [x];
    if Before(rows, a, b) {
      var i, j :| 0 <= i < j < |rows| && rows[i] == a && rows[j] == b;
      assert all[i] == a && all[j] == b;
    }
    if a in rows && b == x {
      var i :| 0 <= i < |rows| && rows[i] == a;
      assert all[i] == a && all[|rows|] == b;
    }
  }

  lemma CloserIsPrecedes(db: Db, l: Load, metric: Metric, query: seq<nat>, a: nat, b: nat)
    requires Viable(db, l, a) && Viable(db, l, b)
    ensures Precedes(ViableOf(db, l, query), DistanceKey(db, l, metric), a, b) <==> Closer(db, l, metric, query, a, b)
  {
    ViableOfKeepsOrder(db, l, query, a, b);
  }

  /** Everything viable is in the query, so the two descriptions of the best ten
      are one. */
  lemma BestTenIsBest(db: Db, l: Load, metric: Metric, query: seq<nat>, best: seq<nat>)
    requires ListsAvailable(db, query)
    ensures IsBestTen(db, l, metric, query, best) <==>
            IsBest(ViableOf(db, l, query), DistanceKey(db, l, metric), MAX_CANDIDATES_TO_SCORE, best)
  {
    var rows, key := ViableOf(db, l, query), DistanceKey(db, l, metric);
    ViableOfMembers(db, l, query);
    forall v: nat ensures v in rows <==> Viable(db, l, v) && IsCandidate(db, l, v) {
      ViableIsCandidate(db, l, v);
    }
    assert forall v: nat :: Viable(db, l, v) <==> IsCandidate(db, l, v) by {
      forall v: nat ensures Viable(db, l, v) <==> IsCandidate(db, l, v) {
        ViableIsCandidate(db, l, v);
      }
    }
    hide IsCandidate, Viable;
    if IsBestTen(db, l, metric, query, best) {
      BestIsDistinct(db, l, metric, query, best);
      SubsetSize(best, rows);
      if |best| < MAX_CANDIDATES_TO_SCORE {
        SubsetSize(rows, best);
      }
      forall i, j | 0 <= i < j < |best| ensures Precedes(rows, key, best[i], best[j]) {
        CloserIsPrecedes(db, l, metric, query, best[i], best[j]);
      }
      forall x, y | x in rows && x !in best && y in best ensures Precedes(rows, key, y, x) {
        CloserIsPrecedes(db, l, metric, query, y, x);
      }
    }
    if IsBest(rows, key, MAX_CANDIDATES_TO_SCORE, best) {
      forall i, j | 0 <= i < j < |best| ensures Closer(db, l, metric, query, best[i], best[j]) {
        CloserIsPrecedes(db, l, metric, query, best[i], best[j]);
      }
      forall v: nat, w: nat | Viable(db, l, v) && v !in best && w in best ensures Closer(db, l, metric, query, w, v) {
        CloserIsPrecedes(db, l, metric, query, w, v);
      }
      if |best| < MAX_CANDIDATES_TO_SCORE {
        forall i, j | 0 <= i < j < |best| ensures best[i] != best[j] {
          assert Precedes(rows, key, best[i], best[j]);
        }
        EqualSizeMeansAll(best, rows);
      }
    }
  }

  lemma BestIsDistinct(db: Db, l: Load, metric: Metric, query: seq<nat>, best: seq<nat>)
    requires Distinct(query) && IsBestTen(db, l, metric, query, best)
    ensures Distinct(best)
  {
    forall i, j | 0 <= i < j < |best| ensures best[i] != best[j] {
      assert Closer(db, l, metric, query, best[i], best[j]);
    }
  }

  lemma {:induction false} SubsetSize(a: seq<nat>, b: seq<nat>)
    requires Distinct(a) && forall x | x in a :: x in b
    ensures |a| <= |b|
    decreases |a|
  {
    if a != [] {
      var x := a[|a| - 1];
      assert x in a;
      var i :| 0 <= i < |b| && b[i] == x;
      var rest := b[..i] + b[i + 1..];
      forall y | y in a[..|a| - 1] ensures y in rest {
        var k :| 0 <= k < |a| - 1 && a[k] == y;
        assert y != x && y in a;
        var m :| 0 <= m < |b| && b[m] == y;
        assert m < i ==> rest[m] == y;
        assert m > i ==> rest[m - 1] == y;
      }
      SubsetSize(a[..|a| - 1], rest);
    }
  }

  lemma EqualSizeMeansAll(a: seq<nat>, b: seq<nat>)
    requires Distinct(a) && |a| == |b| && (forall x | x in a :: x in b)
    ensures forall x | x in b :: x in a
  {
    forall x | x in b ensures x in a {
      if x !in a {
        var more := a + [x];
        assert Distinct(more);
        SubsetSize(more, b);
        assert false;
      }
    }
  }

  /** Filter, stable sort and truncate give the best ten: kept vehicles are
      available and compatible, nothing left out is closer, ties keep query
      order, and no other list has these properties. */
  lemma ShortlistIsBestTen(db: Db, l: Load, metric: Metric, query: seq<nat>, best: seq<nat>)
    requires ListsAvailable(db, query)
    ensures best == Shortlist(db, l, query, metric) <==> IsBestTen(db, l, metric, query, best)
  {
    var key := DistanceKey(db, l, metric);
    ViableOfMembers(db, l, query);
    BestTenIsBest(db, l, metric, query, best);
    ShortlistExactly(ViableOf(db, l, query), key, MAX_CANDIDATES_TO_SCORE, best);
  }

  // ---------- scored items ----------

  /** One item of the reply; a missing field raises when it is read. */
  datatype ScoredItem = ScoredItem(vehicle: Option<nat>, score: Option<int>)

  /** The rows the loop adds, or None if it raises. Pairs matched earlier are
      skipped; rows added in this loop are still pending and go unnoticed. */
  function NewMatches(db: Db, load: nat, items: seq<ScoredItem>): Option<seq<Match>> {
    if items == [] then Some([])
    else
      var before, item := NewMatches(db, load, items[..|items| - 1]), items[|items| - 1];
      if before.None? || item.vehicle.None? then None
      else if FindMatch(db.matches, load, item.vehicle.value).Some? then before
      else if item.score.None? then None
      else Some(before.value + [Match(load, item.vehicle.value, Proposed, item.score.value, None, None)])
  }

  predicate Insertable(db: Db, rows: seq<Match>) {
    && (forall i | 0 <= i < |rows| :: Admits(db, MatchRow(rows[i])))
    && (forall i, j | 0 <= i < j < |rows| :: !(rows[i].load == rows[j].load && rows[i].vehicle == rows[j].vehicle))
  }

  function SetLoadStatus(db: Db, load: nat, status: LoadStatus): Db
    requires load < |db.loads|
  {
    db.(loads := db.loads[load := db.loads[load].(status := status)])
  }

  predicate HasCandidate(db: Db, l: Load) {
    exists v | 0 <= v < |db.vehicles| :: Viable(db, l, v)
  }

  /** The model is asked iff some vehicle may carry the load. */
  lemma HasCandidateMeans(db: Db, l: Load)
    ensures HasCandidate(db, l) <==> exists v: nat :: IsCandidate(db, l, v)
  {
    if v: nat :| IsCandidate(db, l, v) {
      ViableIsCandidate(db, l, v);
    }
    if v :| 0 <= v < |db.vehicles| && Viable(db, l, v) {
      ViableIsCandidate(db, l, v);
    }
  }

  /** One load's turn, which ends in a commit of its own. */
  function MatchLoad(db: Db, load: nat, reply: Option<seq<ScoredItem>>): Result<Db>
    requires load < |db.loads|
  {
    if !HasCandidate(db, db.loads[load]) then Ok(db)
    else if reply.None? then Raised(500)
    else
      var rows := NewMatches(db, load, reply.value);
      if rows.None? || !Insertable(db, rows.value) then Raised(500)
      else
        var marked := if rows.value == [] then db else SetLoadStatus(db, load, Matched);
        Ok(marked.(matches := db.matches + rows.value))
  }

  function ReplyFor(replies: map<nat, seq<ScoredItem>>, load: nat): Option<seq<ScoredItem>> {
    if load in replies then Some(replies[load]) else None
  }

  predicate InTable(db: Db, order: seq<nat>) {
    forall i | 0 <= i < |order| :: order[i] < |db.loads|
  }

  /** The loads in listing order; the first exception ends the run and keeps what
      was committed before it. The second component is the returned total. */
  function MatchAll(db: Db, order: seq<nat>, replies: map<nat, seq<ScoredItem>>): (r: (Db, Option<nat>))
    requires InTable(db, order)
    ensures |r.0.loads| == |db.loads| && db.matches <= r.0.matches
  {
    if order == [] then (db, Some(0))
    else
      var (before, total) := MatchAll(db, order[..|order| - 1], replies);
      if total.None? then (before, None)
      else
        var load := order[|order| - 1];
        var r := MatchLoad(before, load, ReplyFor(replies, load));
        if r.Raised? then (before, None)
        else (r.value, Some(total.value + |r.value.matches| - |before.matches|))
  }

  // ---------- the flush of a load's rows ----------

  function MatchRows(rows: seq<Match>): seq<Row> {
    seq(|rows|, i requires 0 <= i < |rows| => MatchRow(rows[i]))
  }

  lemma {:induction false} FlushMatches(t: Db, rows: seq<Match>)
    ensures FlushRows(t, MatchRows(rows)) ==
            if Insertable(t, rows) then Some(t.(matches := t.matches + rows)) else None
  {
    if rows == [] {
      assert t.matches + rows == t.matches;
    } else {
      var front, last := rows[..|rows| - 1], rows[|rows| - 1];
      FlushMatches(t, front);
      assert MatchRows(rows) == MatchRows(front) + [MatchRow(last)];
      FlushOneMore(t, MatchRows(front), MatchRow(last));
      assert rows == front + [last];
      InsertableOneMore(t, front, last);
      hide Insertable, FlushRows, MatchRows, FindMatch;
      assert t.matches + front + [last] == t.matches + rows;
    }
  }

  /** A pair is in neither the table nor the rows iff it is not in the longer table. */
  lemma FindInBoth(t: Db, rows: seq<Match>, load: nat, vehicle: nat)
    ensures FindMatch(t.matches + rows, load, vehicle).None? <==>
            && FindMatch(t.matches, load, vehicle).None?
            && forall i | 0 <= i < |rows| :: !(rows[i].load == load && rows[i].vehicle == vehicle)
  {
    var all := t.matches + rows;
    assert forall i | 0 <= i < |rows| :: all[|t.matches| + i] == rows[i];
    assert forall i | 0 <= i < |t.matches| :: all[i] == t.matches[i];
    if FindMatch(all, load, vehicle).None? {
      forall i | 0 <= i < |rows| ensures !(rows[i].load == load && rows[i].vehicle == vehicle) {
        assert !IsPair(all[|t.matches| + i], load, vehicle);
      }
    }
  }

  predicate PairsDiffer(rows: seq<Match>, m: Match) {
    forall i | 0 <= i < |rows| :: !(rows[i].load == m.load && rows[i].vehicle == m.vehicle)
  }

  lemma InsertableSplit(t: Db, rows: seq<Match>, m: Match)
    ensures Insertable(t, rows + [m]) <==> Insertable(t, rows) && Admits(t, MatchRow(m)) && PairsDiffer(rows, m)
  {
    hide Admits;
    var all := rows + [m];
    assert all[|rows|] == m;
    assert forall i | 0 <= i < |rows| :: all[i] == rows[i];
    if Insertable(t, all) {
      forall i | 0 <= i < |rows|
        ensures Admits(t, MatchRow(rows[i])) && !(rows[i].load == m.load && rows[i].vehicle == m.vehicle)
      {
        assert Admits(t, MatchRow(all[i]));
        assert !(all[i].load == all[|rows|].load && all[i].vehicle == all[|rows|].vehicle);
      }
      assert Admits(t, MatchRow(all[|rows|]));
    }
  }

  lemma InsertableOneMore(t: Db, rows: seq<Match>, m: Match)
    ensures Insertable(t, rows + [m]) <==>
            Insertable(t, rows) && Admits(t.(matches := t.matches + rows), MatchRow(m))
  {
    InsertableSplit(t, rows, m);
    FindInBoth(t, rows, m.load, m.vehicle);
    hide Insertable, FindMatch;
  }

  // ---------- the agent ----------

  class MatcherAgent {
    const session: Session

    constructor (session: Session)
      ensures this.session == session
    {
      this.session := session;
    }

    /** `query` is the answer of the database to the query for available vehicles. */
    method PrefilterCandidates(l: Load, query: seq<nat>, metric: Metric) returns (best: seq<nat>)
      requires ListsAvailable(session.tx, query)
      ensures best == Shortlist(session.tx, l, query, metric)
      ensures IsBestTen(session.tx, l, metric, query, best)
    {
      var viable: seq<nat> := [];
      for i := 0 to |query|
        invariant viable == ViableOf(session.tx, l, query[..i])
      {
        assert query[..i + 1][..i] == query[..i];
        var id := query[i];
        assert HasVehicle(session.tx, id);
        var v := session.tx.vehicles[id].value;
        if Truthy(l.origin.country) && Truthy(v.origin.country) && l.origin.country != v.origin.country {
          continue;
        }
        var bodyOk := BodyCompatible(l.bodyTypes, v.bodyType);
        var capacityOk := CapacityOk(l.weight, v.capacity);
        if !(bodyOk && capacityOk) {
          continue;
        }
        viable := viable + [id];
      }
      assert query[..|query|] == query;
      viable := StableSort(viable, DistanceKey(session.tx, l, metric));
      best := Take(viable, MAX_CANDIDATES_TO_SCORE);
      ShortlistIsBestTen(session.tx, l, metric, query, best);
    }

    /** The loop over the scored items: one pending row per new pair. */
    method AddScored(load: nat, items: seq<ScoredItem>) returns (r: Result<nat>)
      requires session.Idle()
      modifies session
      ensures session.db == old(session.db) && session.tx == session.db
      ensures var rows := NewMatches(session.db, load, items);
              && r == (if rows.Some? then Ok(|rows.value|) else Raised(500))
              && session.pending == (if rows.Some? then MatchRows(rows.value) else [])
    {
      ghost var db := session.db;
      var created := 0;
      ghost var rows: seq<Match> := [];
      for i := 0 to |items|
        invariant session.db == db && session.tx == db
        invariant NewMatches(db, load, items[..i]) == Some(rows)
        invariant session.pending == MatchRows(rows) && created == |rows|
      {
        assert items[..i + 1][..i] == items[..i];
        var item := items[i];
        if item.vehicle.None? {
          RaisesForGood(db, load, items, i + 1);
          session.Rollback();
          return Raised(500);
        }
        var existing := FindMatch(session.tx.matches, load, item.vehicle.value);
        if existing.Some? {
          continue;
        }
        if item.score.None? {
          RaisesForGood(db, load, items, i + 1);
          session.Rollback();
          return Raised(500);
        }
        var row := Match(load, item.vehicle.value, Proposed, item.score.value, None, None);
        session.Add(MatchRow(row));
        rows := rows + [row];
        assert MatchRows(rows) == MatchRows(rows[..|rows| - 1]) + [MatchRow(row)];
        created := created + 1;
      }
      assert items[..|items|] == items;
      return Ok(created);
    }

    /** `query` answers the vehicle query; `reply` is what the model answers, if
        it is asked at all. */
    method MatchOne(load: nat, query: seq<nat>, metric: Metric, reply: Option<seq<ScoredItem>>) returns (r: Result<nat>)
      requires session.Idle() && load < |session.db.loads|
      requires ListsAvailable(session.db, query)
      modifies session
      ensures session.Idle()
      ensures var spec := MatchLoad(old(session.db), load, reply);
              && (r.Ok? <==> spec.Ok?)
              && session.db == (if spec.Ok? then spec.value else old(session.db))
              && (r.Ok? ==> r.value == |session.db.matches| - |old(session.db.matches)|)
    {
      var candidates := PrefilterCandidates(session.tx.loads[load], query, metric);
      CandidatesExist(session.db, session.db.loads[load], metric, query, candidates);
      hide IsBestTen, ListsAvailable, HasCandidate, Shortlist;
      if candidates == [] {
        return Ok(0);
      }
      if reply.None? {
        return Raised(500);
      }
      var created := AddScored(load, reply.value);
      if created.Raised? {
        return Raised(created.code);
      }
      FlushOfTurn(session.db, load, NewMatches(session.db, load, reply.value).value);
      if created.value > 0 {
        session.tx := SetLoadStatus(session.tx, load, Matched);
      }
      hide Insertable, NewMatches;
      var ok := session.Commit();
      return if ok then Ok(created.value) else Raised(500);
    }

    /** `order` lists the NEW loads; `queries` are the answers to the vehicle
        query at each load's turn. */
    method MatchAllNewLoads(order: seq<nat>, queries: seq<seq<nat>>, metric: Metric, replies: map<nat, seq<ScoredItem>>)
      returns (r: Result<nat>)
      requires session.Idle() && InTable(session.db, order) && |queries| == |order|
      requires forall i | 0 <= i < |queries| :: ListsAvailable(session.db, queries[i])
      modifies session
      ensures session.Idle()
      ensures session.db == MatchAll(old(session.db), order, replies).0
      ensures r == match MatchAll(old(session.db), order, replies).1 case Some(n) => Ok(n) case None => Raised(500)
    {
      ghost var db := session.db;
      var total := 0;
      for i := 0 to |order|
        invariant session.Idle() && session.db.vehicles == db.vehicles
        invariant InTable(session.db, order)
        invariant MatchAll(db, order[..i], replies) == (session.db, Some(total))
      {
        assert order[..i + 1][..i] == order[..i];
        SameListing(db, session.db, queries[i]);
        TurnKeepsVehicles(session.db, order[i], ReplyFor(replies, order[i]));
        TurnOf(db, order, replies, i);
        hide MatchLoad, MatchAll, ListsAvailable;
        var created := MatchOne(order[i], queries[i], metric, ReplyFor(replies, order[i]));
        if created.Raised? {
          return Raised(500);
        }
        total := total + created.value;
      }
      assert order[..|order|] == order;
      return Ok(total);
    }
  }

  lemma SameListing(a: Db, b: Db, query: seq<nat>)
    requires ListsAvailable(a, query) && a.vehicles == b.vehicles
    ensures ListsAvailable(b, query)
  {
  }

  lemma TurnKeepsVehicles(db: Db, load: nat, reply: Option<seq<ScoredItem>>)
    requires load < |db.loads|
    ensures var r := MatchLoad(db, load, reply);
            r.Ok? ==> r.value.vehicles == db.vehicles && |r.value.loads| == |db.loads|
  {
  }

  lemma CandidatesExist(db: Db, l: Load, metric: Metric, query: seq<nat>, best: seq<nat>)
    requires ListsAvailable(db, query) && IsBestTen(db, l, metric, query, best)
    ensures best == [] <==> !HasCandidate(db, l)
  {
    if best != [] {
      ViableIsCandidate(db, l, best[0]);
      assert best[0] in best;
    }
    if HasCandidate(db, l) {
      var v :| 0 <= v < |db.vehicles| && Viable(db, l, v);
      ViableIsCandidate(db, l, v);
    }
  }

  lemma {:induction false} RaisesForGood(db: Db, load: nat, items: seq<ScoredItem>, n: nat)
    requires n <= |items| && NewMatches(db, load, items[..n]).None?
    ensures NewMatches(db, load, items).None?
    decreases |items| - n
  {
    if n == |items| {
      assert items[..n] == items;
    } else {
      assert items[..n + 1][..n] == items[..n];
      RaisesForGood(db, load, items, n + 1);
    }
  }

  lemma {:induction false} StopsForGood(db: Db, order: seq<nat>, replies: map<nat, seq<ScoredItem>>, n: nat)
    requires n <= |order| && InTable(db, order)
    requires MatchAll(db, order[..n], replies).1.None?
    ensures MatchAll(db, order, replies) == MatchAll(db, order[..n], replies)
    decreases |order| - n
  {
    if n == |order| {
      assert order[..n] == order;
    } else {
      assert order[..n + 1][..n] == order[..n];
      StopsForGood(db, order, replies, n + 1);
    }
  }

  /** The run up to and including a load's turn; a raising turn ends it. */
  lemma TurnOf(db: Db, order: seq<nat>, replies: map<nat, seq<ScoredItem>>, i: nat)
    requires i < |order| && InTable(db, order)
    requires InTable(db, order[..i]) && InTable(db, order[..i + 1])
    requires MatchAll(db, order[..i], replies).1.Some?
    ensures var (before, total) := MatchAll(db, order[..i], replies);
            var r := MatchLoad(before, order[i], ReplyFor(replies, order[i]));
            && (r.Ok? ==> MatchAll(db, order[..i + 1], replies) ==
                          (r.value, Some(total.value + |r.value.matches| - |before.matches|)))
            && (r.Raised? ==> MatchAll(db, order, replies) == (before, None))
  {
    hide MatchLoad;
    assert order[..i + 1][..i] == order[..i];
    if MatchLoad(MatchAll(db, order[..i], replies).0, order[i], ReplyFor(replies, order[i])).Raised? {
      StopsForGood(db, order, replies, i + 1);
    }
  }

  /** What the commit at the end of a load's turn does. */
  lemma FlushOfTurn(db: Db, load: nat, rows: seq<Match>)
    requires load < |db.loads|
    ensures var marked := if rows == [] then db else SetLoadStatus(db, load, Matched);
            FlushRows(marked, MatchRows(rows)) ==
            if Insertable(db, rows) then Some(marked.(matches := db.matches + rows)) else None
  {
    var marked := if rows == [] then db else SetLoadStatus(db, load, Matched);
    FlushMatches(marked, rows);
    InsertableIgnoresStatus(db, marked, rows);
  }

  lemma InsertableIgnoresStatus(a: Db, b: Db, rows: seq<Match>)
    requires a.vehicles == b.vehicles && a.matches == b.matches && |a.loads| == |b.loads|
    ensures Insertable(a, rows) <==> Insertable(b, rows)
  {
    assert forall i | 0 <= i < |rows| :: Admits(a, MatchRow(rows[i])) <==> Admits(b, MatchRow(rows[i]));
  }
}
