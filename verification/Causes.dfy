/** Who can change what: for every column that moves, the only requests that move
    it, and on whose behalf. Sixteen requests are searched for each answer. */
module Causes {
  import opened Wrappers
  import opened Tables
  import opened Ranking
  import opened Ingestion
  import opened Matcher
  import opened Lifecycle
  import opened Invariants
  import opened Evolution
  import opened Reingestion

  // ---------- the causes ----------

  ghost predicate Open(s: LoadStatus) {
    s == New || s == Matched
  }

  /** The matcher marks NEW loads; the owner cancels or books an open one; an
      administrator books the load of any match that is not rejected. */
  ghost predicate LoadCause(db: Db, step: Step, l: nat, to: LoadStatus)
    requires l < |db.loads|
  {
    match step
    case RunMatcher(_, _) => to == Matched && db.loads[l].status == New
    case Cancel(user, load) =>
      to == Cancelled && load == l && OwnsLoad(user, db.loads[l]) && Open(db.loads[l].status)
    case Promote(user, m, _, _) =>
      to == Booked && user.role == AdminRole && m < |db.matches| && db.matches[m].load == l
      && db.matches[m].status != Rejected
    case Propose(user, _, load, _, _) =>
      to == Booked && load == l && user.role != CarrierRole && OwnsLoad(user, db.loads[l]) && Open(db.loads[l].status)
    case _ => false
  }

  ghost predicate MatchCause(db: Db, step: Step, m: nat, to: MatchStatus)
    requires m < |db.matches|
  {
    match step
    case Reject(row) => row == m && to == Rejected
    case Rate(_, row, _) => row == m && to == Reviewed && db.matches[m].status == Proposed
    case Promote(user, row, _, _) =>
      row == m && to == Promoted && user.role == AdminRole && db.matches[m].status != Rejected
    case _ => false
  }

  /** An administrator follows one table, a carrier the other, nobody else moves a deal. */
  ghost predicate DealCause(db: Db, step: Step, d: nat, to: DealStatus)
    requires d < |db.deals|
  {
    && step.Advance? && step.deal == d && step.dealStatus == to
    && (|| (step.user.role == AdminRole && to in AdminNext(db.deals[d].status))
        || (step.user.role == CarrierRole && CarrierNext(db.deals[d].status) == Some(to)))
  }

  /** A carrier or administrator of the vehicle's own company. */
  ghost predicate ByItsFleet(user: User, a: Vehicle) {
    (user.role == CarrierRole || user.role == AdminRole) && user.company == a.company
  }

  /** Ingestion rewrites the payload of an ingested vehicle, a proposal books an
      available one, and everything else is up to its own fleet. */
  ghost predicate VehicleCause(db: Db, step: Step, v: nat, a: Vehicle, b: Option<Vehicle>) {
    match step
    case IngestVehicles(_) => a.externalId.Some? && b.Some? && b.value == a.(payload := b.value.payload)
    case Edit(user, row, _, bodyType, capacity, status) =>
      && row == v && ByItsFleet(user, a) && b.Some?
      && b.value == a.(bodyType := Some(bodyType), capacity := Some(capacity), status := status,
                       payload := b.value.payload)
    case Link(user, row, server) =>
      row == v && ByItsFleet(user, a) && server.Assigns? && b == Some(a.(device := Some(server.device)))
    case Delete(user, row) => row == v && ByItsFleet(user, a) && b == None && !Referenced(db, v)
    case Propose(_, row, _, _, _) => row == v && a.status == Available && b == Some(a.(status := VehicleBooked))
    case _ => false
  }

  // ---------- every change has its cause ----------

  ghost predicate LoadsExplained(db: Db, step: Step, after: Db) {
    && |db.loads| <= |after.loads|
    && forall l | 0 <= l < |db.loads| && after.loads[l].status != db.loads[l].status ::
         LoadCause(db, step, l, after.loads[l].status)
  }

  ghost predicate MatchesExplained(db: Db, step: Step, after: Db) {
    && |db.matches| <= |after.matches|
    && forall m | 0 <= m < |db.matches| && after.matches[m].status != db.matches[m].status ::
         MatchCause(db, step, m, after.matches[m].status)
  }

  /** In both directions: a cause does change the deal. */
  ghost predicate DealsExplained(db: Db, step: Step, after: Db) {
    && |db.deals| <= |after.deals|
    && (forall d | 0 <= d < |db.deals| && after.deals[d].status != db.deals[d].status ::
          DealCause(db, step, d, after.deals[d].status))
    && (forall d, to | 0 <= d < |db.deals| && DealCause(db, step, d, to) ::
          after.deals[d].status == to && to != db.deals[d].status)
  }

  ghost predicate VehiclesExplained(db: Db, step: Step, after: Db) {
    && |db.vehicles| <= |after.vehicles|
    && forall v | 0 <= v < |db.vehicles| && after.vehicles[v] != db.vehicles[v] ::
         db.vehicles[v].Some? && VehicleCause(db, step, v, db.vehicles[v].value, after.vehicles[v])
  }

  ghost predicate Explained(db: Db, step: Step, after: Db) {
    && LoadsExplained(db, step, after) && MatchesExplained(db, step, after)
    && DealsExplained(db, step, after) && VehiclesExplained(db, step, after)
  }

  // ---------- batches ----------

  lemma {:induction false} UpsertLoadsTouch(db: Db, batch: seq<LoadProposal>, now: int)
    ensures var after := UpsertLoads(db, batch, now);
            && after == db.(loads := after.loads, samples := after.samples) && |db.loads| <= |after.loads|
            && forall l | 0 <= l < |db.loads| :: after.loads[l].status == db.loads[l].status
  {
    if batch != [] {
      UpsertLoadsTouch(db, batch[..|batch| - 1], now);
    }
  }

  lemma {:induction false} UpsertVehiclesTouch(db: Db, batch: seq<VehicleProposal>)
    ensures var after := UpsertVehicles(db, batch);
            after == db.(vehicles := after.vehicles, carriers := after.carriers)
  {
    if batch != [] {
      UpsertVehiclesTouch(db, batch[..|batch| - 1]);
    }
  }

  lemma IngestLoadsExplained(db: Db, step: Step)
    requires step.IngestLoads?
    ensures Explained(db, step, Apply(db, step))
  {
    UpsertLoadsTouch(db, step.loadBatch, step.now);
    hide UpsertLoads, LoadBatchOk;
  }

  lemma RefreshedIsCaused(db: Db, step: Step, v: nat, a: Option<Vehicle>)
    requires step.IngestVehicles? && RefreshedVehicle(step.vehicleBatch, a) != a
    ensures a.Some? && VehicleCause(db, step, v, a.value, RefreshedVehicle(step.vehicleBatch, a))
  {
  }

  lemma RefreshedRowsExplained(db: Db, step: Step, after: Db)
    requires step.IngestVehicles? && VehicleRowsAfter(db, step.vehicleBatch, after)
    ensures VehiclesExplained(db, step, after)
    ensures after == db.(vehicles := after.vehicles, carriers := after.carriers)
  {
    hide IsAddedVehicle, RefreshedVehicle, VehicleCause;
    forall v | 0 <= v < |db.vehicles| && after.vehicles[v] != db.vehicles[v]
      ensures db.vehicles[v].Some? && VehicleCause(db, step, v, db.vehicles[v].value, after.vehicles[v])
    {
      RefreshedIsCaused(db, step, v, db.vehicles[v]);
    }
  }

  /** Only vehicles and carriers differ, so only vehicles have to be explained. */
  lemma OnlyVehiclesExplained(db: Db, step: Step, after: Db)
    requires !step.Advance? && after == db.(vehicles := after.vehicles, carriers := after.carriers)
    requires VehiclesExplained(db, step, after)
    ensures Explained(db, step, after)
  {
    hide VehiclesExplained, LoadCause, MatchCause;
  }

  lemma IngestVehiclesExplained(db: Db, step: Step)
    requires step.IngestVehicles? && Inv(db)
    ensures Explained(db, step, Apply(db, step))
  {
    VehicleRowsAfterBatch(db, step.vehicleBatch);
    RefreshedRowsExplained(db, step, UpsertVehicles(db, step.vehicleBatch));
    OnlyVehiclesExplained(db, step, UpsertVehicles(db, step.vehicleBatch));
    NothingExplained(db, step);
    hide UpsertVehicles, VehicleBatchOk, Inv, VehicleRowsAfter, VehiclesExplained, Explained;
  }

  lemma NothingExplained(db: Db, step: Step)
    requires !step.Advance?
    ensures Explained(db, step, db)
  {
    hide LoadCause, MatchCause, VehicleCause;
  }

  /** A matcher run adds matches and marks NEW loads, nothing else. */
  ghost predicate OnlyMatched(db: Db, after: Db) {
    && after == db.(loads := after.loads, matches := after.matches)
    && db.matches <= after.matches && |after.loads| == |db.loads|
    && forall l | 0 <= l < |db.loads| ::
         || after.loads[l] == db.loads[l]
         || (db.loads[l].status == New && after.loads[l] == db.loads[l].(status := Matched))
  }

  lemma TurnOnlyMatched(db: Db, before: Db, load: nat, reply: Option<seq<ScoredItem>>)
    requires OnlyMatched(db, before) && load < |db.loads|
    requires db.loads[load].status == New && before.loads[load] == db.loads[load]
    ensures OnlyMatched(db, Settle(before, MatchLoad(before, load, reply)))
  {
  }

  lemma {:induction false} MatchAllOnlyMatched(db: Db, order: seq<nat>, replies: map<nat, seq<ScoredItem>>)
    requires InTable(db, order) && Distinct(order)
    requires forall i | 0 <= i < |order| :: db.loads[order[i]].status == New
    ensures OnlyMatched(db, MatchAll(db, order, replies).0)
  {
    if order != [] {
      var front, load := order[..|order| - 1], order[|order| - 1];
      assert order == front + [load] && load !in front;
      MatchAllOnlyMatched(db, front, replies);
      MatchAllEvolves(db, front, replies);
      var before := MatchAll(db, front, replies).0;
      TurnOnlyMatched(db, before, load, ReplyFor(replies, load));
      hide OnlyMatched, MatchLoad, Evolves, Distinct;
    } else {
      hide Distinct;
    }
  }

  lemma RunMatcherExplained(db: Db, step: Step)
    requires step.RunMatcher?
    ensures Explained(db, step, Apply(db, step))
  {
    if ListsNewLoads(db, step.order) {
      assert forall i | 0 <= i < |step.order| :: step.order[i] in step.order;
      MatchAllOnlyMatched(db, step.order, step.replies);
      hide MatchAll, ListsNewLoads;
    }
  }

  // ---------- single rows ----------

  lemma LoadStepsExplained(db: Db, step: Step)
    requires step.Post? || step.Cancel?
    requires step.Cancel? && step.load < |db.loads| ==>
               db.loads[step.load].status != Negotiating && db.loads[step.load].status != Expired
    ensures Explained(db, step, Apply(db, step))
  {
  }

  lemma RejectExplained(db: Db, step: Step)
    requires step.Reject?
    ensures Explained(db, step, Apply(db, step))
  {
  }

  lemma RateExplained(db: Db, step: Step)
    requires step.Rate?
    ensures Explained(db, step, Apply(db, step))
  {
  }

  lemma RunPricingExplained(db: Db, step: Step)
    requires step.RunPricing?
    ensures Explained(db, step, Apply(db, step))
  {
  }

  lemma PollGpsExplained(db: Db, step: Step)
    requires step.PollGps?
    ensures Explained(db, step, Apply(db, step))
  {
  }

  lemma PromoteExplained(db: Db, step: Step)
    requires step.Promote?
    ensures Explained(db, step, Apply(db, step))
  {
  }

  lemma ProposeExplained(db: Db, step: Step)
    requires step.Propose?
    ensures Explained(db, step, Apply(db, step))
  {
  }

  lemma AdvanceExplained(db: Db, step: Step)
    requires step.Advance?
    ensures Explained(db, step, Apply(db, step))
  {
  }

  lemma RegisterExplained(db: Db, step: Step)
    requires step.Register?
    ensures Explained(db, step, Apply(db, step))
  {
  }

  lemma EditExplained(db: Db, step: Step)
    requires step.Edit?
    ensures Explained(db, step, Apply(db, step))
  {
  }

  lemma LinkExplained(db: Db, step: Step)
    requires step.Link?
    ensures Explained(db, step, Apply(db, step))
  {
  }

  lemma DeleteExplained(db: Db, step: Step)
    requires step.Delete?
    ensures Explained(db, step, Apply(db, step))
  {
  }

  lemma StepExplained(db: Db, step: Step)
    requires Inv(db)
    ensures Explained(db, step, Apply(db, step))
  {
    if step.Cancel? && step.load < |db.loads| {
      assert LoadInv(db.loads[step.load], step.load, db.matches, db.deals);
    }
    hide Inv, Apply, Explained;
    match step
    case IngestLoads(_, _) => IngestLoadsExplained(db, step);
    case IngestVehicles(_) => IngestVehiclesExplained(db, step);
    case Post(_, _) => LoadStepsExplained(db, step);
    case Cancel(_, _) => LoadStepsExplained(db, step);
    case RunMatcher(_, _) => RunMatcherExplained(db, step);
    case Reject(_) => RejectExplained(db, step);
    case Rate(_, _, _) => RateExplained(db, step);
    case RunPricing(_, _) => RunPricingExplained(db, step);
    case Promote(_, _, _, _) => PromoteExplained(db, step);
    case Propose(_, _, _, _, _) => ProposeExplained(db, step);
    case Advance(_, _, _, _) => AdvanceExplained(db, step);
    case Register(_, _, _, _, _) => RegisterExplained(db, step);
    case Edit(_, _, _, _, _, _) => EditExplained(db, step);
    case Link(_, _, _) => LinkExplained(db, step);
    case Delete(_, _) => DeleteExplained(db, step);
    case PollGps(_, _) => PollGpsExplained(db, step);
  }

  /** At every step of every run each change of a load's, match's or deal's status
      and of a vehicle has one of the causes above, and a deal's cause is never
      without effect. */
  lemma EveryChangeHasItsCause(steps: seq<Step>, n: nat)
    requires n < |steps|
    ensures Explained(StateAt(steps, n), steps[n], StateAt(steps, n + 1))
  {
    StateInv(steps, n);
    StateAtNext(steps, n);
    StepExplained(StateAt(steps, n), steps[n]);
  }
}
