/** What a run of the matcher adds, for arbitrary replies of the language model. */
module Accounting {
  import opened Wrappers
  import opened Counting
  import opened Ranking
  import opened Tables
  import opened UnitOfWork
  import opened Matcher
  import opened Lifecycle
  import opened Invariants
  import opened Causes

  function IsFor(load: nat): Match -> bool {
    (m: Match) => m.load == load
  }

  /** The load's match rows, in table order. */
  function RowsFor(matches: seq<Match>, load: nat): seq<Match> {
    Select(matches, IsFor(load))
  }

  lemma NoRows(matches: seq<Match>, load: nat)
    ensures RowsFor(matches, load) == [] <==> !HasMatch(matches, load)
  {
    SelectNone(matches, IsFor(load));
  }

  /** Every item is complete, and the vehicles exist and are all different. */
  ghost predicate ReplyOk(db: Db, items: seq<ScoredItem>) {
    && (forall i | 0 <= i < |items| ::
          items[i].vehicle.Some? && items[i].score.Some? && HasVehicle(db, items[i].vehicle.value))
    && (forall i, j | 0 <= i < j < |items| :: items[i].vehicle != items[j].vehicle)
  }

  function RowOfItem(load: nat, item: ScoredItem): Match
    requires item.vehicle.Some? && item.score.Some?
  {
    Match(load, item.vehicle.value, Proposed, item.score.value, None, None)
  }

  predicate Complete(items: seq<ScoredItem>) {
    forall i | 0 <= i < |items| :: items[i].vehicle.Some? && items[i].score.Some?
  }

  /** One row per item, in order. */
  function ItemRows(load: nat, items: seq<ScoredItem>): seq<Match>
    requires Complete(items)
  {
    seq(|items|, i requires 0 <= i < |items| && Complete(items) => RowOfItem(load, items[i]))
  }

  /** The pair of the item has no match yet. */
  function IsUnmatched(db: Db, load: nat): ScoredItem -> bool {
    (item: ScoredItem) => !(item.vehicle.Some? && exists i | 0 <= i < |db.matches| ::
        db.matches[i].load == load && db.matches[i].vehicle == item.vehicle.value)
  }

  lemma FreshPair(matches: seq<Match>, load: nat, vehicle: nat)
    requires !HasMatch(matches, load)
    ensures FindMatch(matches, load, vehicle).None?
  {
    assert forall i | 0 <= i < |matches| :: matches[i].load != load;
  }

  lemma UnmatchedMeans(db: Db, load: nat, item: ScoredItem)
    requires item.vehicle.Some?
    ensures FindMatch(db.matches, load, item.vehicle.value).None? <==> IsUnmatched(db, load)(item)
  {
    if FindMatch(db.matches, load, item.vehicle.value).Some? {
      var i := FindMatch(db.matches, load, item.vehicle.value).value;
      assert db.matches[i].load == load && db.matches[i].vehicle == item.vehicle.value;
    } else if i :| 0 <= i < |db.matches| && db.matches[i].load == load && db.matches[i].vehicle == item.vehicle.value {
      assert IsPair(db.matches[i], load, item.vehicle.value);
    }
  }

  /** For any load the loop skips the pairs matched before and turns every other item
      into a row, in order. It raises iff an item names no vehicle, or has no score
      and is not skipped. */
  lemma {:induction false} LoopGives(db: Db, load: nat, items: seq<ScoredItem>)
    ensures NewMatches(db, load, items).Some? <==>
            forall i | 0 <= i < |items| ::
              items[i].vehicle.Some? && (IsUnmatched(db, load)(items[i]) ==> items[i].score.Some?)
    ensures NewMatches(db, load, items).Some? ==>
              var kept := Select(items, IsUnmatched(db, load));
              Complete(kept) && NewMatches(db, load, items).value == ItemRows(load, kept)
  {
    if items != [] {
      var front, last := items[..|items| - 1], items[|items| - 1];
      assert forall i | 0 <= i < |front| :: front[i] == items[i];
      LoopGives(db, load, front);
      if last.vehicle.Some? {
        UnmatchedMeans(db, load, last);
      }
      hide IsUnmatched, FindMatch;
      if NewMatches(db, load, items).Some? {
        ItemRowsOneMore(load, Select(front, IsUnmatched(db, load)), last);
        assert Select(front, IsUnmatched(db, load)) + [] == Select(front, IsUnmatched(db, load));
      }
    }
  }

  lemma ItemRowsOneMore(load: nat, items: seq<ScoredItem>, last: ScoredItem)
    requires Complete(items)
    ensures last.vehicle.Some? && last.score.Some? ==>
              Complete(items + [last])
              && ItemRows(load, items + [last]) == ItemRows(load, items) + [RowOfItem(load, last)]
  {
  }

  /** For a load without matches the loop turns every item into a row. */
  lemma {:induction false} FreshItems(db: Db, load: nat, items: seq<ScoredItem>)
    requires !HasMatch(db.matches, load)
    ensures NewMatches(db, load, items).Some? <==>
            forall i | 0 <= i < |items| :: items[i].vehicle.Some? && items[i].score.Some?
    ensures NewMatches(db, load, items).Some? ==>
              && |NewMatches(db, load, items).value| == |items|
              && forall i | 0 <= i < |items| :: NewMatches(db, load, items).value[i] == RowOfItem(load, items[i])
  {
    if items != [] {
      var front, last := items[..|items| - 1], items[|items| - 1];
      FreshItems(db, load, front);
      if last.vehicle.Some? {
        FreshPair(db.matches, load, last.vehicle.value);
      }
    }
  }

  /** What the rows of a fresh load look like, and when they can be inserted. */
  lemma FreshRows(db: Db, load: nat, items: seq<ScoredItem>)
    requires load < |db.loads| && !HasMatch(db.matches, load)
    ensures var rows := NewMatches(db, load, items);
            && (rows.Some? && Insertable(db, rows.value) <==> ReplyOk(db, items))
            && (rows.Some? ==> |rows.value| == |items|)
            && (rows.Some? ==> forall i | 0 <= i < |items| ::
                  items[i].vehicle.Some? && items[i].score.Some? && rows.value[i] == RowOfItem(load, items[i]))
  {
    FreshItems(db, load, items);
    var rows := NewMatches(db, load, items);
    if rows.Some? {
      forall i | 0 <= i < |rows.value| ensures FindMatch(db.matches, load, rows.value[i].vehicle).None? {
        FreshPair(db.matches, load, rows.value[i].vehicle);
      }
      InsertableIsReplyOk(db, load, items, rows.value);
    }
  }

  /** A NEW load's turn succeeds iff there is no candidate to ask about or the
      reply is usable, and then gives one row per item, in order. */
  lemma MatchLoadOutcome(db: Db, load: nat, reply: Option<seq<ScoredItem>>)
    requires load < |db.loads| && !HasMatch(db.matches, load)
    ensures var r, asked := MatchLoad(db, load, reply), HasCandidate(db, db.loads[load]);
            && (r.Ok? <==> (asked ==> reply.Some? && ReplyOk(db, reply.value)))
            && (r.Ok? ==> r.value.vehicles == db.vehicles && |r.value.loads| == |db.loads|)
            && (r.Ok? && asked ==>
                  && r.value.matches == db.matches + ItemRows(load, reply.value)
                  && r.value.loads[load].status == (if reply.value == [] then db.loads[load].status else Matched))
            && (r.Ok? && !asked ==> r.value == db)
  {
    if HasCandidate(db, db.loads[load]) && reply.Some? {
      FreshRows(db, load, reply.value);
      hide Insertable, HasCandidate, HasMatch;
      if MatchLoad(db, load, reply).Ok? {
        assert NewMatches(db, load, reply.value).value == ItemRows(load, reply.value);
      }
    }
  }

  lemma InsertableIsReplyOk(db: Db, load: nat, items: seq<ScoredItem>, rows: seq<Match>)
    requires load < |db.loads| && |rows| == |items|
    requires forall i | 0 <= i < |items| ::
               items[i].vehicle.Some? && items[i].score.Some? && rows[i] == RowOfItem(load, items[i])
    requires forall i | 0 <= i < |rows| :: FindMatch(db.matches, load, rows[i].vehicle).None?
    ensures Insertable(db, rows) <==> ReplyOk(db, items)
  {
    if Insertable(db, rows) {
      forall i | 0 <= i < |items| ensures HasVehicle(db, items[i].vehicle.value) {
        assert Admits(db, MatchRow(rows[i]));
      }
      forall i, j | 0 <= i < j < |items| ensures items[i].vehicle != items[j].vehicle {
        assert !(rows[i].load == rows[j].load && rows[i].vehicle == rows[j].vehicle);
      }
    }
  }

  /** The load's turn will not raise. */
  ghost predicate TurnOk(db: Db, load: nat, replies: map<nat, seq<ScoredItem>>)
    requires load < |db.loads|
  {
    HasCandidate(db, db.loads[load]) ==> load in replies && ReplyOk(db, replies[load])
  }

  /** The rows a NEW load gains in a run that gets to it. */
  ghost function Due(db: Db, load: nat, replies: map<nat, seq<ScoredItem>>): seq<Match>
    requires load < |db.loads|
  {
    if HasCandidate(db, db.loads[load]) && load in replies && Complete(replies[load])
    then ItemRows(load, replies[load]) else []
  }

  lemma SameTurn(a: Db, b: Db, load: nat, replies: map<nat, seq<ScoredItem>>)
    requires a.vehicles == b.vehicles && load < |a.loads| && load < |b.loads| && a.loads[load] == b.loads[load]
    ensures TurnOk(a, load, replies) == TurnOk(b, load, replies)
    ensures Due(a, load, replies) == Due(b, load, replies)
  {
    assert forall v: nat :: Viable(a, a.loads[load], v) <==> Viable(b, b.loads[load], v);
    assert HasCandidate(a, a.loads[load]) <==> HasCandidate(b, b.loads[load]);
    if load in replies {
      assert ReplyOk(a, replies[load]) <==> ReplyOk(b, replies[load]);
    }
  }

  ghost predicate AllNew(db: Db, order: seq<nat>) {
    InTable(db, order) && Distinct(order) && forall i | 0 <= i < |order| :: db.loads[order[i]].status == New
  }

  ghost predicate TurnsOk(db: Db, order: seq<nat>, replies: map<nat, seq<ScoredItem>>)
    requires InTable(db, order)
  {
    forall i | 0 <= i < |order| :: TurnOk(db, order[i], replies)
  }

  /** Every listed load gained the rows it was due. */
  ghost predicate AllGained(db: Db, order: seq<nat>, replies: map<nat, seq<ScoredItem>>, after: Db)
    requires InTable(db, order)
  {
    forall i | 0 <= i < |order| :: RowsFor(after.matches, order[i]) == Due(db, order[i], replies)
  }

  /** A listed load is MATCHED iff it has rows. */
  ghost predicate MatchedIffRows(order: seq<nat>, after: Db)
    requires InTable(after, order)
  {
    forall i | 0 <= i < |order| :: after.loads[order[i]].status == Matched <==> RowsFor(after.matches, order[i]) != []
  }

  ghost predicate OthersKept(db: Db, order: seq<nat>, after: Db) {
    forall l: nat | l !in order :: RowsFor(after.matches, l) == RowsFor(db.matches, l)
  }

  ghost predicate Accounted(db: Db, order: seq<nat>, replies: map<nat, seq<ScoredItem>>)
    requires AllNew(db, order)
  {
    var (after, total) := MatchAll(db, order, replies);
    && after.vehicles == db.vehicles
    && (total.Some? <==> TurnsOk(db, order, replies))
    && (total.Some? ==> total.value == |after.matches| - |db.matches|)
    && (total.Some? ==> AllGained(db, order, replies, after))
    && MatchedIffRows(order, after)
    && OthersKept(db, order, after)
  }

  lemma TurnsOneMore(db: Db, front: seq<nat>, load: nat, replies: map<nat, seq<ScoredItem>>)
    requires InTable(db, front) && InTable(db, front + [load]) && load < |db.loads|
    ensures TurnsOk(db, front + [load], replies) <==> TurnsOk(db, front, replies) && TurnOk(db, load, replies)
  {
    var order := front + [load];
    assert order[|front|] == load && forall i | 0 <= i < |front| :: order[i] == front[i];
  }

  /** The account after a turn that gave `load` its rows and no other load any. */
  lemma GainsOneMore(db: Db, front: seq<nat>, load: nat, replies: map<nat, seq<ScoredItem>>, before: Db, after: Db)
    requires InTable(db, front + [load]) && InTable(db, front) && load < |db.loads|
    requires |before.loads| == |db.loads| && |after.loads| == |db.loads| && load !in front
    requires forall l: nat | l != load :: RowsFor(after.matches, l) == RowsFor(before.matches, l)
    requires forall l | 0 <= l < |db.loads| && l != load :: after.loads[l] == before.loads[l]
    requires after.loads[load].status == Matched <==> RowsFor(after.matches, load) != []
    requires MatchedIffRows(front, before) && OthersKept(db, front, before)
    ensures MatchedIffRows(front + [load], after) && OthersKept(db, front + [load], after)
    ensures AllGained(db, front, replies, before) && RowsFor(after.matches, load) == Due(db, load, replies) ==>
              AllGained(db, front + [load], replies, after)
  {
    hide RowsFor, Due;
    var order := front + [load];
    assert order[|front|] == load && forall i | 0 <= i < |front| :: order[i] == front[i] && front[i] in front;
    assert load in order;
  }

  lemma RowsGrow(a: seq<Match>, added: seq<Match>, load: nat, other: nat)
    requires forall i | 0 <= i < |added| :: added[i].load == load
    ensures RowsFor(a + added, other) == RowsFor(a, other) + if other == load then added else []
  {
    SelectConcat(a, added, IsFor(other));
    SelectUniform(added, IsFor(other), other == load);
  }

  /** The rows a turn with this reply adds if it does not raise. */
  ghost function Added(db: Db, load: nat, reply: Option<seq<ScoredItem>>): seq<Match>
    requires load < |db.loads|
  {
    if HasCandidate(db, db.loads[load]) && reply.Some? && Complete(reply.value) then ItemRows(load, reply.value) else []
  }

  /** What the turn of the next NEW load does to the account. */
  lemma TurnAccounted(before: Db, load: nat, reply: Option<seq<ScoredItem>>)
    requires Inv(before) && load < |before.loads| && before.loads[load].status == New
    requires MatchLoad(before, load, reply).Ok?
    ensures var after, due := MatchLoad(before, load, reply).value, Added(before, load, reply);
            && after.vehicles == before.vehicles
            && after.matches == before.matches + due
            && (after.loads[load].status == Matched <==> due != [])
            && RowsFor(before.matches, load) == []
            && forall l: nat :: RowsFor(after.matches, l) == RowsFor(before.matches, l) + if l == load then due else []
  {
    assert LoadInv(before.loads[load], load, before.matches, before.deals);
    MatchLoadOutcome(before, load, reply);
    NoRows(before.matches, load);
    hide Inv, MatchLoad, RowsFor;
    var due := Added(before, load, reply);
    assert due == [] ==> before.matches + due == before.matches;
    forall l: nat
      ensures RowsFor(before.matches + due, l) == RowsFor(before.matches, l) + if l == load then due else []
    {
      RowsGrow(before.matches, due, load, l);
    }
  }

  lemma TurnSucceeds(db: Db, front: seq<nat>, load: nat, replies: map<nat, seq<ScoredItem>>)
    requires Inv(db) && AllNew(db, front) && load < |db.loads| && db.loads[load].status == New && load !in front
    requires MatchAll(db, front, replies).0.vehicles == db.vehicles
    ensures var before := MatchAll(db, front, replies).0;
            && Inv(before) && before.loads[load] == db.loads[load]
            && (MatchLoad(before, load, ReplyFor(replies, load)).Ok? <==> TurnOk(db, load, replies))
            && (TurnOk(db, load, replies) ==>
                  Due(db, load, replies) == Added(before, load, ReplyFor(replies, load)))
  {
    var before := MatchAll(db, front, replies).0;
    MatchAllInv(db, front, replies);
    assert LoadInv(before.loads[load], load, before.matches, before.deals);
    MatchLoadOutcome(before, load, ReplyFor(replies, load));
    SameTurn(before, db, load, replies);
  }

  lemma NotInFront(db: Db, front: seq<nat>, load: nat)
    requires AllNew(db, front + [load])
    ensures AllNew(db, front) && load !in front && load < |db.loads| && db.loads[load].status == New
  {
    var order := front + [load];
    assert order[|front|] == load;
    assert forall i | 0 <= i < |front| :: order[i] == front[i] && order[i] != order[|front|];
  }

  /** One more load in the listing, whose turn succeeds. */
  lemma AccountedSuccess(db: Db, front: seq<nat>, load: nat, replies: map<nat, seq<ScoredItem>>)
    requires Inv(db) && AllNew(db, front + [load]) && AllNew(db, front) && Accounted(db, front, replies)
    requires MatchAll(db, front, replies).1.Some? && load < |db.loads| && TurnOk(db, load, replies)
    ensures Accounted(db, front + [load], replies)
  {
    hide Inv, MatchLoad, RowsFor, TurnOk, Due, TurnsOk, AllGained, MatchedIffRows, OthersKept, Added;
    var order := front + [load];
    assert order[..|order| - 1] == front && order[|order| - 1] == load;
    NotInFront(db, front, load);
    TurnSucceeds(db, front, load, replies);
    TurnsOneMore(db, front, load, replies);
    var before := MatchAll(db, front, replies).0;
    TurnAccounted(before, load, ReplyFor(replies, load));
    MatchLoadInv(before, load, ReplyFor(replies, load));
    var (after, total) := MatchAll(db, order, replies);
    assert after == MatchLoad(before, load, ReplyFor(replies, load)).value;
    GainsOneMore(db, front, load, replies, before, after);
  }

  /** One more load in the listing, whose turn raises. */
  lemma AccountedFailure(db: Db, front: seq<nat>, load: nat, replies: map<nat, seq<ScoredItem>>)
    requires Inv(db) && AllNew(db, front + [load]) && AllNew(db, front) && Accounted(db, front, replies)
    requires MatchAll(db, front, replies).1.Some? && load < |db.loads| && !TurnOk(db, load, replies)
    ensures Accounted(db, front + [load], replies)
  {
    var order := front + [load];
    assert order[..|order| - 1] == front && order[|order| - 1] == load;
    NotInFront(db, front, load);
    TurnSucceeds(db, front, load, replies);
    TurnsOneMore(db, front, load, replies);
    var before := MatchAll(db, front, replies).0;
    UntouchedLoad(before, load);
    assert MatchAll(db, order, replies).0 == before;
    hide Inv, MatchLoad, RowsFor, TurnOk, TurnsOk, AllGained, MatchedIffRows, OthersKept;
    GainsOneMore(db, front, load, replies, before, before);
  }

  lemma UntouchedLoad(db: Db, load: nat)
    requires Inv(db) && load < |db.loads| && db.loads[load].status == New
    ensures RowsFor(db.matches, load) == []
  {
    assert LoadInv(db.loads[load], load, db.matches, db.deals);
    NoRows(db.matches, load);
  }

  lemma AccountedOneMore(db: Db, front: seq<nat>, load: nat, replies: map<nat, seq<ScoredItem>>)
    requires Inv(db) && AllNew(db, front + [load]) && AllNew(db, front) && Accounted(db, front, replies)
    requires MatchAll(db, front, replies).1.Some?
    ensures Accounted(db, front + [load], replies)
  {
    NotInFront(db, front, load);
    if TurnOk(db, load, replies) {
      AccountedSuccess(db, front, load, replies);
    } else {
      AccountedFailure(db, front, load, replies);
    }
  }

  lemma NothingAccounted(db: Db, replies: map<nat, seq<ScoredItem>>)
    ensures Accounted(db, [], replies)
  {
  }

  lemma {:induction false} MatchAllAccounted(db: Db, order: seq<nat>, replies: map<nat, seq<ScoredItem>>)
    requires Inv(db) && AllNew(db, order)
    ensures Accounted(db, order, replies)
  {
    hide Inv, Accounted;
    if order == [] {
      NothingAccounted(db, replies);
    } else {
      var front, load := order[..|order| - 1], order[|order| - 1];
      assert order == front + [load];
      MatchAllAccounted(db, front, replies);
      if MatchAll(db, front, replies).1.Some? {
        AccountedOneMore(db, front, load, replies);
      } else {
        LaterLoadsUntouched(db, front, load, replies);
      }
    }
  }

  /** A run that has already failed does not reach the next load. */
  lemma LaterLoadsUntouched(db: Db, front: seq<nat>, load: nat, replies: map<nat, seq<ScoredItem>>)
    requires Inv(db) && AllNew(db, front + [load]) && AllNew(db, front) && Accounted(db, front, replies)
    requires MatchAll(db, front, replies).1.None?
    ensures Accounted(db, front + [load], replies)
  {
    var order := front + [load];
    assert order[..|order| - 1] == front && order[|order| - 1] == load;
    NotInFront(db, front, load);
    MatchAllInv(db, front, replies);
    TurnsOneMore(db, front, load, replies);
    var before := MatchAll(db, front, replies).0;
    UntouchedLoad(before, load);
    hide Inv, RowsFor, TurnOk, TurnsOk, AllGained, MatchedIffRows, OthersKept;
    GainsOneMore(db, front, load, replies, before, before);
  }

  /** The matcher's account over all NEW loads of a reachable state: the returned
      total is the growth of the match table; the run succeeds iff every load that
      has a candidate gets a usable reply, and then each NEW load gained one row
      per item; a load became MATCHED iff it gained a row. */
  lemma MatcherAccounting(steps: seq<Step>, order: seq<nat>, replies: map<nat, seq<ScoredItem>>)
    requires ListsNewLoads(Run(EMPTY, steps), order)
    ensures AllNew(Run(EMPTY, steps), order) && Accounted(Run(EMPTY, steps), order, replies)
    ensures forall l | 0 <= l < |Run(EMPTY, steps).loads| && l !in order ::
              MatchAll(Run(EMPTY, steps), order, replies).0.loads[l] == Run(EMPTY, steps).loads[l]
  {
    RunInv(steps);
    var db := Run(EMPTY, steps);
    assert forall i | 0 <= i < |order| :: order[i] in order;
    MatchAllAccounted(db, order, replies);
    MatchAllInv(db, order, replies);
  }

  /** The run raises at the n-th load and keeps what the loads before it committed. */
  ghost predicate StopsAt(db: Db, order: seq<nat>, replies: map<nat, seq<ScoredItem>>, n: nat)
    requires InTable(db, order) && n < |order|
  {
    && !TurnOk(db, order[n], replies)
    && MatchAll(db, order[..n], replies).1.Some?
    && MatchAll(db, order, replies).0 == MatchAll(db, order[..n], replies).0
  }

  /** A failed run keeps exactly what it had committed for the loads before the
      first one whose turn raises. */
  lemma {:induction false} FailureKeepsCommitted(db: Db, order: seq<nat>, replies: map<nat, seq<ScoredItem>>)
    requires Inv(db) && AllNew(db, order)
    requires MatchAll(db, order, replies).1.None?
    ensures exists n | 0 <= n < |order| :: StopsAt(db, order, replies, n)
  {
    hide Inv, TurnOk, RowsFor, MatchLoad;
    var front, load := order[..|order| - 1], order[|order| - 1];
    assert order == front + [load];
    NotInFront(db, front, load);
    if MatchAll(db, front, replies).1.None? {
      FailureKeepsCommitted(db, front, replies);
      var n :| 0 <= n < |front| && StopsAt(db, front, replies, n);
      assert front[..n] == order[..n] && order[n] == front[n];
      assert StopsAt(db, order, replies, n);
    } else {
      MatchAllAccounted(db, front, replies);
      TurnSucceeds(db, front, load, replies);
      assert StopsAt(db, order, replies, |front|);
    }
  }

  // ---------- running the matcher again after a failure ----------

  /** Where the first run could use the reply, the second gets the same one. */
  ghost predicate SameUsable(
      db: Db, order: seq<nat>, first: map<nat, seq<ScoredItem>>, second: map<nat, seq<ScoredItem>>)
    requires InTable(db, order)
  {
    forall i | 0 <= i < |order| && HasCandidate(db, db.loads[order[i]]) && TurnOk(db, order[i], first) ::
      order[i] in second && second[order[i]] == first[order[i]]
  }

  ghost predicate LoadPartlyDone(db: Db, l: nat, replies: map<nat, seq<ScoredItem>>, mid: Db)
    requires l < |db.loads| == |mid.loads|
  {
    && (RowsFor(mid.matches, l) == Due(db, l, replies) || RowsFor(mid.matches, l) == [])
    && (mid.loads[l].status == Matched <==> RowsFor(mid.matches, l) != [])
  }

  /** Every listed load has its rows, or has not been reached and is as it was. */
  ghost predicate PartlyDone(db: Db, order: seq<nat>, replies: map<nat, seq<ScoredItem>>, mid: Db)
    requires InTable(db, order)
  {
    && OnlyMatched(db, mid) && OthersKept(db, order, mid)
    && forall i | 0 <= i < |order| :: LoadPartlyDone(db, order[i], replies, mid)
  }

  lemma SameDue(db: Db, load: nat, first: map<nat, seq<ScoredItem>>, second: map<nat, seq<ScoredItem>>)
    requires load < |db.loads|
    requires HasCandidate(db, db.loads[load]) ==> load in first && load in second && second[load] == first[load]
    ensures Due(db, load, second) == Due(db, load, first)
  {
  }

  /** What a run leaves, finished or not, measured by the replies of the next. */
  lemma RunPartlyDone(db: Db, order: seq<nat>, first: map<nat, seq<ScoredItem>>, second: map<nat, seq<ScoredItem>>)
    requires Inv(db) && AllNew(db, order) && SameUsable(db, order, first, second)
    ensures PartlyDone(db, order, second, MatchAll(db, order, first).0)
  {
    var n := |order|;
    assert order[..n] == order;
    if MatchAll(db, order, first).1.None? {
      FailureKeepsCommitted(db, order, first);
      n :| 0 <= n < |order| && StopsAt(db, order, first, n);
    }
    PrefixPartlyDone(db, order, n, first, second);
  }

  lemma PrefixPartlyDone(
      db: Db, order: seq<nat>, n: nat, first: map<nat, seq<ScoredItem>>, second: map<nat, seq<ScoredItem>>)
    requires Inv(db) && AllNew(db, order) && SameUsable(db, order, first, second) && n <= |order|
    requires InTable(db, order[..n]) && MatchAll(db, order[..n], first).1.Some?
    ensures PartlyDone(db, order, second, MatchAll(db, order[..n], first).0)
  {
    hide MatchAll, RowsFor, Inv, OnlyMatched, AllGained, MatchedIffRows, LoadPartlyDone, TurnOk, HasCandidate;
    var done := order[..n];
    AllNewPrefix(db, order, n);
    MatchAllAccounted(db, done, first);
    MatchAllOnlyMatched(db, done, first);
    SameCount(db, MatchAll(db, done, first).0);
    var mid := MatchAll(db, done, first).0;
    forall i | 0 <= i < |order| ensures LoadPartlyDone(db, order[i], second, mid) {
      if i < n {
        assert done[i] == order[i];
        DoneLoad(db, done, i, first, second, mid);
      } else {
        assert order[i] !in done;
        WaitingLoad(db, done, first, second, mid, order[i]);
      }
    }
  }

  lemma AllNewPrefix(db: Db, order: seq<nat>, n: nat)
    requires AllNew(db, order) && n <= |order|
    ensures AllNew(db, order[..n])
  {
  }

  lemma SameCount(a: Db, b: Db)
    requires OnlyMatched(a, b)
    ensures |b.loads| == |a.loads|
  {
  }

  lemma WaitingLoad(
      db: Db, done: seq<nat>, first: map<nat, seq<ScoredItem>>, second: map<nat, seq<ScoredItem>>, mid: Db, l: nat)
    requires Inv(db) && AllNew(db, done) && l < |db.loads| && l !in done && db.loads[l].status == New
    requires mid == MatchAll(db, done, first).0 && |mid.loads| == |db.loads| && OthersKept(db, done, mid)
    ensures LoadPartlyDone(db, l, second, mid)
  {
    UntouchedLoad(db, l);
    NotMatchedOutside(db, done, first, mid, l);
    hide MatchAll, RowsFor, Inv, Due;
  }

  lemma DoneLoad(
      db: Db, done: seq<nat>, i: nat, first: map<nat, seq<ScoredItem>>, second: map<nat, seq<ScoredItem>>, mid: Db)
    requires InTable(db, done) && i < |done| && |mid.loads| == |db.loads|
    requires TurnsOk(db, done, first) && AllGained(db, done, first, mid) && MatchedIffRows(done, mid)
    requires HasCandidate(db, db.loads[done[i]]) && TurnOk(db, done[i], first) ==>
               done[i] in second && second[done[i]] == first[done[i]]
    ensures LoadPartlyDone(db, done[i], second, mid)
  {
    assert TurnOk(db, done[i], first);
    assert RowsFor(mid.matches, done[i]) == Due(db, done[i], first);
    SameDue(db, done[i], first, second);
    hide RowsFor, Due, HasCandidate, ReplyOk;
  }

  lemma NotMatchedOutside(db: Db, done: seq<nat>, replies: map<nat, seq<ScoredItem>>, mid: Db, l: nat)
    requires Inv(db) && AllNew(db, done) && l < |db.loads| && l !in done && db.loads[l].status == New
    requires mid == MatchAll(db, done, replies).0 && |mid.loads| == |db.loads|
    ensures mid.loads[l].status != Matched
  {
    MatchAllInv(db, done, replies);
  }

  /** A run that failed is made good by a second one over the loads that are still
      NEW, in whatever order they are listed: it succeeds, and every load ends with
      the status and the rows, in order, that one uninterrupted run would have given
      it. What the first run committed is neither lost nor repeated. */
  lemma RetryCompletes(
      steps: seq<Step>, order: seq<nat>, retry: seq<nat>,
      first: map<nat, seq<ScoredItem>>, second: map<nat, seq<ScoredItem>>)
    requires ListsNewLoads(Run(EMPTY, steps), order) && SameUsable(Run(EMPTY, steps), order, first, second)
    requires TurnsOk(Run(EMPTY, steps), order, second)
    requires ListsNewLoads(MatchAll(Run(EMPTY, steps), order, first).0, retry)
    ensures var db := Run(EMPTY, steps);
            var whole, again := MatchAll(db, order, second), MatchAll(MatchAll(db, order, first).0, retry, second);
            && again.1.Some? && whole.1.Some?
            && again.0.loads == whole.0.loads && again.0.vehicles == whole.0.vehicles
            && forall l: nat :: RowsFor(again.0.matches, l) == RowsFor(whole.0.matches, l)
  {
    RunInv(steps);
    hide Run;
    RetryInState(Run(EMPTY, steps), order, retry, first, second);
  }

  lemma ListedAreNew(db: Db, order: seq<nat>)
    requires ListsNewLoads(db, order)
    ensures AllNew(db, order)
  {
    assert forall i | 0 <= i < |order| :: order[i] in order;
  }

  lemma RetryInState(
      db: Db, order: seq<nat>, retry: seq<nat>,
      first: map<nat, seq<ScoredItem>>, second: map<nat, seq<ScoredItem>>)
    requires Inv(db) && ListsNewLoads(db, order) && SameUsable(db, order, first, second) && TurnsOk(db, order, second)
    requires ListsNewLoads(MatchAll(db, order, first).0, retry)
    ensures var whole, again := MatchAll(db, order, second), MatchAll(MatchAll(db, order, first).0, retry, second);
            && again.1.Some? && whole.1.Some?
            && again.0.loads == whole.0.loads && again.0.vehicles == whole.0.vehicles
            && forall l: nat :: RowsFor(again.0.matches, l) == RowsFor(whole.0.matches, l)
  {
    var mid := MatchAll(db, order, first).0;
    ListedAreNew(db, order);
    ListedAreNew(mid, retry);
    MatchAllInv(db, order, first);
    RunPartlyDone(db, order, first, second);
    RetryTurnsOk(db, order, second, mid, retry);
    MatchAllAccounted(db, order, second);
    MatchAllAccounted(mid, retry, second);
    MatchAllOnlyMatched(db, order, second);
    MatchAllOnlyMatched(mid, retry, second);
    var whole, again := MatchAll(db, order, second).0, MatchAll(mid, retry, second).0;
    hide MatchAll, Inv, TurnsOk, RowsFor, AllGained, OthersKept, MatchedIffRows, PartlyDone, ListsNewLoads, AllNew;
    forall l: nat ensures RowsFor(again.matches, l) == RowsFor(whole.matches, l) {
      RetryRows(db, order, second, mid, retry, whole, again, l);
    }
    forall l | 0 <= l < |db.loads| ensures again.loads[l] == whole.loads[l] {
      RetryRows(db, order, second, mid, retry, whole, again, l);
      RetryStatus(db, order, mid, retry, whole, again, l);
    }
  }

  lemma StillNew(db: Db, order: seq<nat>, replies: map<nat, seq<ScoredItem>>, mid: Db, retry: seq<nat>, l: nat)
    requires AllNew(db, order) && PartlyDone(db, order, replies, mid) && ListsNewLoads(mid, retry) && l in retry
    ensures l < |db.loads| && mid.loads[l] == db.loads[l] && db.loads[l].status == New
    ensures l in order ==> RowsFor(mid.matches, l) == []
  {
    hide RowsFor, Due;
    var k :| 0 <= k < |retry| && retry[k] == l;
    if l in order {
      var i :| 0 <= i < |order| && order[i] == l;
      assert LoadPartlyDone(db, order[i], replies, mid);
    }
  }

  lemma RetryTurnsOk(db: Db, order: seq<nat>, replies: map<nat, seq<ScoredItem>>, mid: Db, retry: seq<nat>)
    requires ListsNewLoads(db, order) && AllNew(db, order) && TurnsOk(db, order, replies)
    requires PartlyDone(db, order, replies, mid) && ListsNewLoads(mid, retry)
    ensures TurnsOk(mid, retry, replies)
  {
    hide RowsFor, Due, TurnOk;
    forall k | 0 <= k < |retry| ensures TurnOk(mid, retry[k], replies) {
      assert retry[k] in retry;
      StillNew(db, order, replies, mid, retry, retry[k]);
      assert retry[k] in order;
      var i :| 0 <= i < |order| && order[i] == retry[k];
      assert TurnOk(db, order[i], replies);
      SameTurn(db, mid, retry[k], replies);
    }
  }

  lemma RetryRows(
      db: Db, order: seq<nat>, replies: map<nat, seq<ScoredItem>>, mid: Db, retry: seq<nat>,
      whole: Db, again: Db, l: nat)
    requires ListsNewLoads(db, order) && AllNew(db, order) && PartlyDone(db, order, replies, mid)
    requires ListsNewLoads(mid, retry)
    requires AllGained(db, order, replies, whole) && OthersKept(db, order, whole)
    requires AllGained(mid, retry, replies, again) && OthersKept(mid, retry, again)
    ensures RowsFor(again.matches, l) == RowsFor(whole.matches, l)
    ensures l in order && l !in retry ==> RowsFor(whole.matches, l) != []
  {
    hide RowsFor, Due;
    if l in retry {
      StillNew(db, order, replies, mid, retry, l);
      assert l in order;
      var i, k :| 0 <= i < |order| && order[i] == l && 0 <= k < |retry| && retry[k] == l;
      assert RowsFor(again.matches, retry[k]) == Due(mid, retry[k], replies);
      assert RowsFor(whole.matches, order[i]) == Due(db, order[i], replies);
      SameTurn(db, mid, l, replies);
    } else if l in order {
      var i :| 0 <= i < |order| && order[i] == l;
      assert LoadPartlyDone(db, order[i], replies, mid) && mid.loads[l].status != New;
      assert mid.loads[l].status == Matched && RowsFor(mid.matches, l) == Due(db, l, replies);
      assert RowsFor(whole.matches, order[i]) == Due(db, order[i], replies);
    }
  }

  lemma RetryStatus(db: Db, order: seq<nat>, mid: Db, retry: seq<nat>, whole: Db, again: Db, l: nat)
    requires l < |db.loads| && ListsNewLoads(db, order) && ListsNewLoads(mid, retry)
    requires OnlyMatched(db, mid) && OnlyMatched(db, whole) && OnlyMatched(mid, again)
    requires MatchedIffRows(order, whole) && MatchedIffRows(retry, again)
    requires RowsFor(again.matches, l) == RowsFor(whole.matches, l)
    requires l in order && l !in retry ==> RowsFor(whole.matches, l) != []
    ensures again.loads[l] == whole.loads[l]
  {
    hide RowsFor;
  }
}
