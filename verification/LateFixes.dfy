/** "Only positions newer than the last one are inserted": a run for which this
    fails, and exactly the runs for which it holds. */
module LateFixes {
  import opened Wrappers
  import opened Text
  import opened Tables
  import opened Lifecycle
  import opened Gps
  import opened Evolution
  import opened Causes

  // ---------- a run ----------

  const FLEET_MANAGER := User(5, CarrierRole, Some(1))

  /** A vehicle with device 7 is registered, and the device reports time 10. */
  const UNTIL_PARKED := [
    Register(FLEET_MANAGER, "AA1234BB", "tent", 22, Some(7)),
    PollGps([0], [Fix(7, 50, 30, 10)])]

  /** Then it reports time 5. */
  const UNTIL_LATE := UNTIL_PARKED + [PollGps([0], [Fix(7, 51, 31, 5)])]

  lemma VehicleRegistered()
    ensures Run(EMPTY, UNTIL_PARKED[..1]).positions == [] && IsLinked(Run(EMPTY, UNTIL_PARKED[..1]), 0, 7)
  {
    TrimOfTrimmed("AA1234BB", IsSpace);
    assert UNTIL_PARKED[..1][..0] == [];
    assert Run(EMPTY, UNTIL_PARKED[..1]) == Apply(EMPTY, UNTIL_PARKED[0]);
  }

  lemma VehicleParked()
    ensures Run(EMPTY, UNTIL_PARKED).positions == [Position(0, 50, 30, 7, 10)]
    ensures IsLinked(Run(EMPTY, UNTIL_PARKED), 0, 7)
  {
    VehicleRegistered();
    assert UNTIL_PARKED[..|UNTIL_PARKED| - 1] == UNTIL_PARKED[..1];
    OneNewFix(Run(EMPTY, UNTIL_PARKED[..1]), 0, Fix(7, 50, 30, 10));
  }

  lemma LateAppended(db: Db)
    requires db.positions == [Position(0, 50, 30, 7, 10)] && IsLinked(db, 0, 7)
    ensures Poll(db, [0], [Fix(7, 51, 31, 5)]).positions == [Position(0, 50, 30, 7, 10), Position(0, 51, 31, 7, 5)]
  {
    assert !IsFix(db.positions[0], 0, 5);
    OneNewFix(db, 0, Fix(7, 51, 31, 5));
    hide Poll;
  }

  lemma OlderSecond()
    ensures !NewerFrom([Position(0, 50, 30, 7, 10), Position(0, 51, 31, 7, 5)], 1)
  {
    var after := [Position(0, 50, 30, 7, 10), Position(0, 51, 31, 7, 5)];
    assert after[0].vehicle == after[1].vehicle;
  }

  /** The last poll of the run appends a position older than the one before it. */
  lemma OlderFixIsInserted()
    ensures Run(EMPTY, UNTIL_LATE).positions == [Position(0, 50, 30, 7, 10), Position(0, 51, 31, 7, 5)]
    ensures !NewerFrom(Run(EMPTY, UNTIL_LATE).positions, |Run(EMPTY, UNTIL_PARKED).positions|)
  {
    hide Poll, NewerFrom, IsLinked;
    VehicleParked();
    assert UNTIL_LATE[..|UNTIL_LATE| - 1] == UNTIL_PARKED;
    assert Run(EMPTY, UNTIL_LATE) == Poll(Run(EMPTY, UNTIL_PARKED), [0], [Fix(7, 51, 31, 5)]);
    hide Run, Apply;
    LateAppended(Run(EMPTY, UNTIL_PARKED));
    OlderSecond();
  }

  // ---------- all runs ----------

  /** No device last reported a late fix for the vehicle that owns it. */
  ghost predicate NothingLate(db: Db, query: seq<nat>, reply: seq<Fix>) {
    forall f, v | IsLastFix(reply, f) && IsOwner(db, query, f.device, v) :: !IsLate(db, v, f.fixedAt)
  }

  /** Only polls touch the positions. */
  lemma PositionsKept(db: Db, step: Step)
    requires !step.PollGps?
    ensures Apply(db, step).positions == db.positions
  {
    if step.IngestLoads? {
      UpsertLoadsTouch(db, step.loadBatch, step.now);
    } else if step.IngestVehicles? {
      UpsertVehiclesTouch(db, step.vehicleBatch);
    } else if step.RunMatcher? && ListsNewLoads(db, step.order) {
      assert forall i | 0 <= i < |step.order| :: step.order[i] in step.order;
      MatchAllOnlyMatched(db, step.order, step.replies);
    }
  }

  lemma NewerSplit(before: seq<Position>, after: seq<Position>)
    requires before <= after
    ensures NewerFrom(after, 0) <==> NewerFrom(before, 0) && NewerFrom(after, |before|)
  {
    if NewerFrom(after, 0) {
      forall i, j | 0 <= i < j < |before| && before[i].vehicle == before[j].vehicle
        ensures before[i].recordedAt < before[j].recordedAt
      {
        assert after[i] == before[i] && after[j] == before[j];
      }
    }
    if NewerFrom(before, 0) && NewerFrom(after, |before|) {
      forall i, j | 0 <= i < j < |after| && after[i].vehicle == after[j].vehicle
        ensures after[i].recordedAt < after[j].recordedAt
      {
        if j < |before| {
          assert before[i].vehicle == before[j].vehicle;
        }
      }
    }
  }

  ghost predicate PollsInTime(steps: seq<Step>, n: nat)
    requires n <= |steps|
  {
    forall k | 0 <= k < n && steps[k].PollGps? :: NothingLate(StateAt(steps, k), steps[k].query, steps[k].reply)
  }

  lemma PollsInTimeOneMore(steps: seq<Step>, n: nat)
    requires n < |steps|
    ensures PollsInTime(steps, n + 1) <==>
            PollsInTime(steps, n)
            && (steps[n].PollGps? ==> NothingLate(StateAt(steps, n), steps[n].query, steps[n].reply))
  {
    hide StateAt, NothingLate;
  }

  lemma InOrderAtStart(steps: seq<Step>)
    ensures NewerFrom(StateAt(steps, 0).positions, 0) && PollsInTime(steps, 0)
  {
    assert steps[..0] == [];
  }

  /** Over any run the positions of every vehicle are stored in order of time
      exactly if no poll of the run had anything late. */
  lemma {:induction false} StoredInOrder(steps: seq<Step>, n: nat)
    requires n <= |steps|
    ensures NewerFrom(StateAt(steps, n).positions, 0) <==> PollsInTime(steps, n)
  {
    hide StateAt, Apply, NothingLate, NewerFrom, PollsInTime;
    if n == 0 {
      InOrderAtStart(steps);
    } else {
      StoredInOrder(steps, n - 1);
      StateAtNext(steps, n - 1);
      PollsInTimeOneMore(steps, n - 1);
      StepInOrder(StateAt(steps, n - 1), steps[n - 1]);
    }
  }

  lemma PollInOrder(db: Db, query: seq<nat>, reply: seq<Fix>)
    ensures NewerFrom(Poll(db, query, reply).positions, |db.positions|) <==> NothingLate(db, query, reply)
    ensures db.positions <= Poll(db, query, reply).positions
  {
    hide NewerFrom, IsLastFix, IsOwner, IsLate;
    PollInsertsOnlyNewer(db, query, reply);
  }

  lemma StepInOrder(db: Db, step: Step)
    ensures NewerFrom(Apply(db, step).positions, 0) <==>
            NewerFrom(db.positions, 0) && (step.PollGps? ==> NothingLate(db, step.query, step.reply))
  {
    hide NewerFrom, NothingLate, Poll;
    if step.PollGps? {
      PollInOrder(db, step.query, step.reply);
      NewerSplit(db.positions, Poll(db, step.query, step.reply).positions);
    } else {
      PositionsKept(db, step);
    }
  }
}
