/** What one state of a run says about every later one: rows are only added,
    most columns are frozen, and statuses only move forward. */
module Evolution {
  import opened Wrappers
  import opened Tables
  import opened Ranking
  import opened Ingestion
  import opened Matcher
  import opened Lifecycle
  import opened Invariants

  // ---------- the relation ----------

  /** Only status and payload may differ; BOOKED is never left, NEW never re-entered. */
  ghost predicate LoadEvolves(a: Load, b: Load) {
    && SameFrozenLoad(a, b)
    && (a.status == Booked ==> b.status == Booked)
    && (b.status == New ==> a.status == New)
  }

  ghost predicate LoadsEvolve(a: seq<Load>, b: seq<Load>) {
    |a| <= |b| && forall i | 0 <= i < |a| :: LoadEvolves(a[i], b[i])
  }

  /** A deleted vehicle stays deleted; a kept one keeps its key, carrier and company. */
  ghost predicate VehicleEvolves(a: Option<Vehicle>, b: Option<Vehicle>) {
    b.Some? ==> a.Some? && SameFrozenVehicle(a.value, b.value)
  }

  ghost predicate VehiclesEvolve(a: seq<Option<Vehicle>>, b: seq<Option<Vehicle>>) {
    |a| <= |b| && forall i | 0 <= i < |a| :: VehicleEvolves(a[i], b[i])
  }

  function Rank(s: MatchStatus): nat {
    match s
    case Proposed => 0
    case Reviewed => 1
    case Promoted => 2
    case Rejected => 3
  }

  /** Same pair and score, a rank that never drops, a suggested price that stays. */
  ghost predicate MatchEvolves(a: Match, b: Match) {
    && a.load == b.load && a.vehicle == b.vehicle && a.score == b.score
    && Rank(a.status) <= Rank(b.status)
    && (a.suggestedPrice.Some? ==> b.suggestedPrice == a.suggestedPrice && b.suggestedCurrency == a.suggestedCurrency)
  }

  ghost predicate MatchesEvolve(a: seq<Match>, b: seq<Match>) {
    |a| <= |b| && forall i | 0 <= i < |a| :: MatchEvolves(a[i], b[i])
  }

  function Phase(s: DealStatus): nat {
    match s
    case DealBooked => 0
    case Loaded => 1
    case InTransit => 2
    case Delivered => 3
    case Invoiced => 4
    case Paid => 5
    case DealCancelled => 6
  }

  /** Forward only, and cancelled only before delivery. */
  ghost predicate DealReaches(a: DealStatus, b: DealStatus) {
    a == b || (Phase(a) < Phase(b) && (b == DealCancelled ==> Phase(a) < Phase(Delivered)))
  }

  ghost predicate DealEvolves(a: Deal, b: Deal) {
    b == a.(status := b.status) && DealReaches(a.status, b.status)
  }

  ghost predicate DealsEvolve(a: seq<Deal>, b: seq<Deal>) {
    |a| <= |b| && forall i | 0 <= i < |a| :: DealEvolves(a[i], b[i])
  }

  ghost predicate Evolves(a: Db, b: Db) {
    && LoadsEvolve(a.loads, b.loads) && VehiclesEvolve(a.vehicles, b.vehicles)
    && MatchesEvolve(a.matches, b.matches) && DealsEvolve(a.deals, b.deals)
    && a.carriers <= b.carriers && a.samples <= b.samples && a.positions <= b.positions
    && a.feedback.Keys <= b.feedback.Keys
  }

  lemma EvolvesTransitive(a: Db, b: Db, c: Db)
    requires Evolves(a, b) && Evolves(b, c)
    ensures Evolves(a, c)
  {
    forall i | 0 <= i < |a.loads| ensures LoadEvolves(a.loads[i], c.loads[i]) {
      assert LoadEvolves(a.loads[i], b.loads[i]) && LoadEvolves(b.loads[i], c.loads[i]);
    }
    forall i | 0 <= i < |a.vehicles| ensures VehicleEvolves(a.vehicles[i], c.vehicles[i]) {
      assert VehicleEvolves(a.vehicles[i], b.vehicles[i]) && VehicleEvolves(b.vehicles[i], c.vehicles[i]);
    }
    forall i | 0 <= i < |a.matches| ensures MatchEvolves(a.matches[i], c.matches[i]) {
      assert MatchEvolves(a.matches[i], b.matches[i]) && MatchEvolves(b.matches[i], c.matches[i]);
    }
    forall i | 0 <= i < |a.deals| ensures DealEvolves(a.deals[i], c.deals[i]) {
      assert DealEvolves(a.deals[i], b.deals[i]) && DealEvolves(b.deals[i], c.deals[i]);
    }
  }

  // ---------- batches and the matcher ----------

  lemma {:induction false} UpsertLoadsEvolve(db: Db, batch: seq<LoadProposal>, now: int)
    ensures Evolves(db, UpsertLoads(db, batch, now))
  {
    if batch != [] {
      UpsertLoadsEvolve(db, batch[..|batch| - 1], now);
      var before := UpsertLoads(db, batch[..|batch| - 1], now);
      assert Evolves(before, UpsertLoad(before, batch[|batch| - 1], now));
      EvolvesTransitive(db, before, UpsertLoads(db, batch, now));
    }
  }

  lemma {:induction false} UpsertVehiclesEvolve(db: Db, batch: seq<VehicleProposal>)
    ensures Evolves(db, UpsertVehicles(db, batch))
  {
    if batch != [] {
      UpsertVehiclesEvolve(db, batch[..|batch| - 1]);
      var before := UpsertVehicles(db, batch[..|batch| - 1]);
      assert Evolves(before, UpsertVehicle(before, batch[|batch| - 1]));
      EvolvesTransitive(db, before, UpsertVehicles(db, batch));
    }
  }

  lemma MatchLoadEvolves(db: Db, load: nat, reply: Option<seq<ScoredItem>>)
    requires load < |db.loads| && db.loads[load].status == New
    requires MatchLoad(db, load, reply).Ok?
    ensures Evolves(db, MatchLoad(db, load, reply).value)
    ensures forall l | 0 <= l < |db.loads| && l != load :: MatchLoad(db, load, reply).value.loads[l] == db.loads[l]
  {
  }

  lemma {:induction false} MatchAllEvolves(db: Db, order: seq<nat>, replies: map<nat, seq<ScoredItem>>)
    requires InTable(db, order) && Distinct(order)
    requires forall i | 0 <= i < |order| :: db.loads[order[i]].status == New
    ensures Evolves(db, MatchAll(db, order, replies).0)
    ensures forall l | 0 <= l < |db.loads| && l !in order :: MatchAll(db, order, replies).0.loads[l] == db.loads[l]
  {
    if order != [] {
      var front, load := order[..|order| - 1], order[|order| - 1];
      MatchAllEvolves(db, front, replies);
      var (before, total) := MatchAll(db, front, replies);
      assert order == front + [load] && load !in front;
      if total.Some? && MatchLoad(before, load, ReplyFor(replies, load)).Ok? {
        MatchLoadEvolves(before, load, ReplyFor(replies, load));
        EvolvesTransitive(db, before, MatchAll(db, order, replies).0);
      }
    }
  }

  // ---------- every step ----------

  lemma RunMatcherEvolves(db: Db, order: seq<nat>, replies: map<nat, seq<ScoredItem>>)
    requires ListsNewLoads(db, order)
    ensures Evolves(db, MatchAll(db, order, replies).0)
  {
    assert forall i | 0 <= i < |order| :: order[i] in order;
    MatchAllEvolves(db, order, replies);
  }

  lemma DealStepReaches(a: DealStatus, b: DealStatus)
    requires b in AdminNext(a)
    ensures a != b && DealReaches(a, b)
  {
  }

  lemma AdvanceEvolves(db: Db, step: Step)
    requires step.Advance?
    ensures Evolves(db, Apply(db, step))
  {
    if AdvanceDeal(db, step.user, step.deal, step.dealStatus, step.now).Ok? {
      AdvanceAllowed(db, step.user, step.deal, step.dealStatus, step.now);
      DealStepReaches(db.deals[step.deal].status, step.dealStatus);
    }
  }

  lemma PromoteEvolves(db: Db, step: Step)
    requires step.Promote?
    ensures Evolves(db, Apply(db, step))
  {
  }

  lemma BookingEvolves(db: Db, vehicle: nat, load: nat, price: int, currency: string)
    requires HasVehicle(db, vehicle) && load < |db.loads| && CanBook(db, vehicle, load)
    ensures Evolves(db, Booking(db, vehicle, load, price, currency))
  {
  }

  lemma ProposeEvolves(db: Db, step: Step)
    requires step.Propose?
    ensures Evolves(db, Apply(db, step))
  {
    hide Evolves, Booking, CanBook;
    EvolvesReflexive(db);
    var r := ProposeDeal(db, step.user, step.vehicle, step.load, step.price, step.currency);
    if r.Ok? && r.value.0 != db {
      BookingEvolves(db, step.vehicle, step.load, step.price, step.currency);
    }
  }

  lemma VehicleSetEvolves(db: Db, v: nat, after: Vehicle)
    requires HasVehicle(db, v) && SameFrozenVehicle(db.vehicles[v].value, after)
    ensures Evolves(db, SetVehicle(db, v, after))
  {
  }

  lemma RegisterEvolves(db: Db, step: Step)
    requires step.Register?
    ensures Evolves(db, Apply(db, step))
  {
  }

  lemma EditEvolves(db: Db, step: Step)
    requires step.Edit? || step.Link?
    ensures Evolves(db, Apply(db, step))
  {
    hide Evolves;
    EvolvesReflexive(db);
    if step.Edit? {
      var r := EditVehicle(db, step.user, step.vehicle, step.plate, step.bodyType, step.capacity, step.vehicleStatus);
      if r.Ok? {
        VehicleSetEvolves(db, step.vehicle, r.value.vehicles[step.vehicle].value);
      }
    } else if LinkDevice(db, step.user, step.vehicle, step.server).Ok? {
      VehicleSetEvolves(db, step.vehicle, db.vehicles[step.vehicle].value.(device := Some(step.server.device)));
    }
  }

  lemma DeleteEvolves(db: Db, step: Step)
    requires step.Delete?
    ensures Evolves(db, Apply(db, step))
  {
  }

  lemma RejectEvolves(db: Db, step: Step)
    requires step.Reject?
    ensures Evolves(db, Apply(db, step))
  {
  }

  lemma RateEvolves(db: Db, step: Step)
    requires step.Rate?
    ensures Evolves(db, Apply(db, step))
  {
  }

  lemma RunPricingEvolves(db: Db, step: Step)
    requires step.RunPricing?
    ensures Evolves(db, Apply(db, step))
  {
  }

  lemma PostEvolves(db: Db, step: Step)
    requires step.Post?
    ensures Evolves(db, Apply(db, step))
  {
  }

  lemma CancelEvolves(db: Db, step: Step)
    requires step.Cancel?
    ensures Evolves(db, Apply(db, step))
  {
  }

  lemma PollEvolves(db: Db, step: Step)
    requires step.PollGps?
    ensures Evolves(db, Apply(db, step))
  {
  }

  lemma BatchEvolves(db: Db, step: Step)
    requires step.IngestLoads? || step.IngestVehicles? || step.RunMatcher?
    ensures Evolves(db, Apply(db, step))
  {
    hide Evolves;
    if step.IngestLoads? {
      UpsertLoadsEvolve(db, step.loadBatch, step.now);
    } else if step.IngestVehicles? {
      UpsertVehiclesEvolve(db, step.vehicleBatch);
    } else if ListsNewLoads(db, step.order) {
      RunMatcherEvolves(db, step.order, step.replies);
    }
    EvolvesReflexive(db);
  }

  lemma EvolvesReflexive(db: Db)
    ensures Evolves(db, db)
  {
  }

  lemma StepEvolves(db: Db, step: Step)
    ensures Evolves(db, Apply(db, step))
  {
    hide Evolves, Apply;
    match step
    case IngestLoads(_, _) => BatchEvolves(db, step);
    case IngestVehicles(_) => BatchEvolves(db, step);
    case Post(_, _) => PostEvolves(db, step);
    case Cancel(_, _) => CancelEvolves(db, step);
    case RunMatcher(_, _) => BatchEvolves(db, step);
    case Reject(_) => RejectEvolves(db, step);
    case Rate(_, _, _) => RateEvolves(db, step);
    case RunPricing(_, _) => RunPricingEvolves(db, step);
    case Promote(_, _, _, _) => PromoteEvolves(db, step);
    case Propose(_, _, _, _, _) => ProposeEvolves(db, step);
    case Advance(_, _, _, _) => AdvanceEvolves(db, step);
    case Register(_, _, _, _, _) => RegisterEvolves(db, step);
    case Edit(_, _, _, _, _, _) => EditEvolves(db, step);
    case Link(_, _, _) => EditEvolves(db, step);
    case Delete(_, _) => DeleteEvolves(db, step);
    case PollGps(_, _) => PollEvolves(db, step);
  }

  // ---------- runs ----------

  /** The committed state after the first `n` steps. */
  ghost function StateAt(steps: seq<Step>, n: nat): Db
    requires n <= |steps|
  {
    Run(EMPTY, steps[..n])
  }

  lemma StateAtNext(steps: seq<Step>, n: nat)
    requires n < |steps|
    ensures StateAt(steps, n + 1) == Apply(StateAt(steps, n), steps[n])
  {
    assert steps[..n + 1][..n] == steps[..n];
  }

  lemma StateInv(steps: seq<Step>, n: nat)
    requires n <= |steps|
    ensures Inv(StateAt(steps, n))
  {
    RunInv(steps[..n]);
  }

  /** Any two states of a run, the earlier first. */
  lemma {:induction false} RunEvolves(steps: seq<Step>, i: nat, j: nat)
    requires i <= j <= |steps|
    ensures Evolves(StateAt(steps, i), StateAt(steps, j))
    decreases j - i
  {
    if i < j {
      hide Evolves, Apply;
      RunEvolves(steps, i, j - 1);
      StateAtNext(steps, j - 1);
      StepEvolves(StateAt(steps, j - 1), steps[j - 1]);
      EvolvesTransitive(StateAt(steps, i), StateAt(steps, j - 1), StateAt(steps, j));
    } else {
      EvolvesReflexive(StateAt(steps, i));
    }
  }
}
