/** The promises of the platform, for every run from the empty database. */
module Theorems {
  import opened Wrappers
  import opened Tables
  import opened Counting
  import opened Gps
  import opened Lifecycle
  import opened Invariants
  import opened Evolution
  import opened Causes

  // ---------- price samples ----------

  /** One sample per ingested load with a price and one per deal that was
      delivered at a price, and no other, whatever was repeated or failed. */
  lemma PriceSampleConservation(steps: seq<Step>)
    ensures var db := Run(EMPTY, steps);
            && |db.samples| == Count(db.loads, PricedIngested) + Count(db.deals, PricedDelivered)
            && Count(db.samples, IsLardiSample) == Count(db.loads, PricedIngested)
            && OneSamplePerDeal(db.samples)
            && forall d | 0 <= d < |db.deals| :: HasSample(db.samples, d) <==> PricedDelivered(db.deals[d])
  {
    RunInv(steps);
    var db := Run(EMPTY, steps);
    forall d | 0 <= d < |db.deals| && HasSample(db.samples, d) ensures PricedDelivered(db.deals[d]) {
      var i :| 0 <= i < |db.samples| && db.samples[i].source == FromDeal(d);
      assert Provenance(db, db.samples[i]);
    }
  }

  /** A sample once taken from a deal agrees with that deal and its load in every
      later state, and the deal's vehicle and carrier are still there. */
  lemma FrozenProvenance(steps: seq<Step>, i: nat, j: nat, s: nat)
    requires i <= j <= |steps| && s < |StateAt(steps, i).samples|
    requires StateAt(steps, i).samples[s].source.FromDeal?
    ensures var now, sample := StateAt(steps, j), StateAt(steps, i).samples[s];
            && s < |now.samples| && now.samples[s] == sample
            && FromThisDeal(now, sample, sample.source.deal)
            && DealRef(now, now.deals[sample.source.deal])
  {
    RunEvolves(steps, i, j);
    StateInv(steps, j);
    var now := StateAt(steps, j);
    assert Provenance(now, now.samples[s]);
  }

  // ---------- loads ----------

  /** How a load's status relates to its deals and matches. */
  lemma LoadLifecycle(steps: seq<Step>, l: nat)
    requires l < |Run(EMPTY, steps).loads|
    ensures LoadInv(Run(EMPTY, steps).loads[l], l, Run(EMPTY, steps).matches, Run(EMPTY, steps).deals)
  {
    RunInv(steps);
  }

  /** A booked load stays booked, and a load that was ever seen by a deal is booked
      from then on. */
  lemma BookedForGood(steps: seq<Step>, i: nat, j: nat, l: nat)
    requires i <= j <= |steps| && l < |StateAt(steps, i).loads|
    requires HasDeal(StateAt(steps, i).deals, l)
    ensures l < |StateAt(steps, j).loads| && StateAt(steps, j).loads[l].status == Booked
  {
    StateInv(steps, i);
    RunEvolves(steps, i, j);
    assert LoadInv(StateAt(steps, i).loads[l], l, StateAt(steps, i).matches, StateAt(steps, i).deals);
    assert LoadEvolves(StateAt(steps, i).loads[l], StateAt(steps, j).loads[l]);
  }

  // ---------- matches and deals ----------

  /** Every deal has exactly one match row for its pair, promoted or rejected since. */
  lemma DealHasOneMatch(steps: seq<Step>, d: nat)
    requires d < |Run(EMPTY, steps).deals|
    ensures var db := Run(EMPTY, steps);
            exists m | 0 <= m < |db.matches| ::
              && IsPair(db.matches[m], db.deals[d].load, db.deals[d].vehicle)
              && (db.matches[m].status == Promoted || db.matches[m].status == Rejected)
              && forall k | 0 <= k < |db.matches| && IsPair(db.matches[k], db.deals[d].load, db.deals[d].vehicle) ::
                   k == m
  {
    RunInv(steps);
    var db := Run(EMPTY, steps);
    var deal := db.deals[d];
    assert DealHasMatch(db.matches, deal);
    var m :| 0 <= m < |db.matches| && IsPair(db.matches[m], deal.load, deal.vehicle)
             && (db.matches[m].status == Promoted || db.matches[m].status == Rejected);
    forall k | 0 <= k < |db.matches| && IsPair(db.matches[k], deal.load, deal.vehicle) ensures k == m {
      PairOnce(db.matches, k, m, deal.load, deal.vehicle);
    }
  }

  lemma PairOnce(matches: seq<Match>, i: nat, j: nat, load: nat, vehicle: nat)
    requires PairsUnique(matches) && i < |matches| && j < |matches|
    requires IsPair(matches[i], load, vehicle) && IsPair(matches[j], load, vehicle)
    ensures i == j
  {
  }

  /** A promoted match has a deal, and at any two times of a run a match keeps its
      pair while its rank does not drop. */
  lemma MatchMovesForward(steps: seq<Step>, i: nat, j: nat, m: nat)
    requires i <= j <= |steps| && m < |StateAt(steps, i).matches|
    ensures m < |StateAt(steps, j).matches|
    ensures MatchEvolves(StateAt(steps, i).matches[m], StateAt(steps, j).matches[m])
    ensures StateAt(steps, i).matches[m].status == Promoted ==>
              var row := StateAt(steps, j).matches[m];
              HasDealOn(StateAt(steps, j).deals, row.load, row.vehicle)
  {
    RunEvolves(steps, i, j);
    StateInv(steps, i);
    if StateAt(steps, i).matches[m].status == Promoted {
      var row := StateAt(steps, i).matches[m];
      var d :| 0 <= d < |StateAt(steps, i).deals| && IsDealOn(StateAt(steps, i).deals[d], row.load, row.vehicle);
      assert DealEvolves(StateAt(steps, i).deals[d], StateAt(steps, j).deals[d]);
      assert IsDealOn(StateAt(steps, j).deals[d], row.load, row.vehicle);
    }
  }

  // ---------- proposals ----------

  /** When a proposal goes through. */
  ghost predicate CanPropose(db: Db, user: User, vehicle: nat, load: nat) {
    && MayPost(user)
    && HasVehicle(db, vehicle) && db.vehicles[vehicle].value.status == Available
    && load < |db.loads| && OwnsLoad(user, db.loads[load])
    && (db.loads[load].status == New || db.loads[load].status == Matched)
    && FindMatch(db.matches, load, vehicle).None?
    && db.vehicles[vehicle].value.carrier.Some?
  }

  ghost predicate ProposalSound(db: Db, user: User, vehicle: nat, load: nat, price: int, currency: string) {
    var r := ProposeDeal(db, user, vehicle, load, price, currency);
    && (load < |db.loads| && (db.loads[load].status == New || db.loads[load].status == Matched) ==>
          FindDeal(db.deals, load, vehicle).None?)
    && (load < |db.loads| && db.loads[load].status == New ==> FindMatch(db.matches, load, vehicle).None?)
    && (r.Ok? <==> CanPropose(db, user, vehicle, load))
    && (r.Ok? ==> r.value == (Booking(db, vehicle, load, price, currency), |db.deals|))
    && (r.Raised? ==> Apply(db, Propose(user, vehicle, load, price, currency)) == db)
  }

  /** In a reachable state the lookup of an existing deal finds nothing once the
      load's status has passed, so a proposal either creates a deal or fails; it
      creates one exactly when the vehicle has a carrier and the pair was not
      matched before, which on a NEW load is never the case. */
  lemma ProposalSoundness(steps: seq<Step>, user: User, vehicle: nat, load: nat, price: int, currency: string)
    ensures ProposalSound(Run(EMPTY, steps), user, vehicle, load, price, currency)
  {
    RunInv(steps);
    hide Run, Apply;
    ProposalInInv(Run(EMPTY, steps), user, vehicle, load, price, currency);
  }

  lemma ProposalInInv(db: Db, user: User, vehicle: nat, load: nat, price: int, currency: string)
    requires Inv(db)
    ensures ProposalSound(db, user, vehicle, load, price, currency)
  {
    OpenLoadHasNoDeal(db, vehicle, load);
    CarrierExists(db, vehicle);
    hide Inv, OwnsLoad, MayPost, Booking;
    ProposalOutcome(db, user, vehicle, load, price, currency);
  }

  lemma ProposalOutcome(db: Db, user: User, vehicle: nat, load: nat, price: int, currency: string)
    requires load < |db.loads| && (db.loads[load].status == New || db.loads[load].status == Matched) ==>
               FindDeal(db.deals, load, vehicle).None?
    requires HasVehicle(db, vehicle) && db.vehicles[vehicle].value.carrier.Some? ==>
               db.vehicles[vehicle].value.carrier.value < |db.carriers|
    ensures var r := ProposeDeal(db, user, vehicle, load, price, currency);
            && (r.Ok? <==> CanPropose(db, user, vehicle, load))
            && (r.Ok? ==> r.value == (Booking(db, vehicle, load, price, currency), |db.deals|))
  {
  }

  lemma OpenLoadHasNoDeal(db: Db, vehicle: nat, load: nat)
    requires LoadsInv(db)
    ensures load < |db.loads| && (db.loads[load].status == New || db.loads[load].status == Matched) ==>
              FindDeal(db.deals, load, vehicle).None?
    ensures load < |db.loads| && db.loads[load].status == New ==> FindMatch(db.matches, load, vehicle).None?
  {
    if load < |db.loads| {
      assert LoadInv(db.loads[load], load, db.matches, db.deals);
      var deal, row := FindDeal(db.deals, load, vehicle), FindMatch(db.matches, load, vehicle);
      assert deal.Some? ==> HasDeal(db.deals, load);
      assert row.Some? ==> HasMatch(db.matches, load);
    }
  }

  lemma CarrierExists(db: Db, vehicle: nat)
    requires VehicleRefs(db)
    ensures HasVehicle(db, vehicle) && db.vehicles[vehicle].value.carrier.Some? ==>
              db.vehicles[vehicle].value.carrier.value < |db.carriers|
  {
  }

  // ---------- tracking ----------

  /** Between two states in which a user may track a deal the user may track it
      throughout: for no role does the window reopen. */
  lemma TrackingWindow(steps: seq<Step>, user: User, d: nat, i: nat, j: nat, k: nat)
    requires i <= j <= k <= |steps| && d < |StateAt(steps, i).deals|
    ensures d < |StateAt(steps, j).deals| && d < |StateAt(steps, k).deals|
    ensures CanTrackDeal(StateAt(steps, i), user, d) && CanTrackDeal(StateAt(steps, k), user, d) ==>
              CanTrackDeal(StateAt(steps, j), user, d)
  {
    RunEvolves(steps, i, j);
    RunEvolves(steps, j, k);
    StateInv(steps, i);
    WindowIsConvex(StateAt(steps, i), StateAt(steps, j), StateAt(steps, k), user, d);
  }

  lemma WindowIsConvex(a: Db, b: Db, c: Db, user: User, d: nat)
    requires Evolves(a, b) && Evolves(b, c) && DealRefs(a) && d < |a.deals|
    ensures d < |b.deals| && d < |c.deals|
    ensures CanTrackDeal(a, user, d) && CanTrackDeal(c, user, d) ==> CanTrackDeal(b, user, d)
  {
    assert DealEvolves(a.deals[d], b.deals[d]) && DealEvolves(b.deals[d], c.deals[d]);
    assert DealRef(a, a.deals[d]);
    assert LoadEvolves(a.loads[a.deals[d].load], b.loads[a.deals[d].load]);
  }

  ghost predicate OnTheRoad(s: DealStatus) {
    Phase(Loaded) <= Phase(s) <= Phase(InTransit)
  }

  /** The window is open to the load's owner exactly while the cargo is on the
      truck, to any carrier just as long, and to an administrator always. */
  lemma TrackingIsOwnerOnTheRoad(steps: seq<Step>, user: User, d: nat)
    requires d < |Run(EMPTY, steps).deals|
    ensures var db := Run(EMPTY, steps);
            && db.deals[d].load < |db.loads|
            && (CanTrackDeal(db, user, d) <==>
                  match user.role
                  case AdminRole => true
                  case CarrierRole => OnTheRoad(db.deals[d].status)
                  case _ => db.loads[db.deals[d].load].postedBy == Some(user.id) && OnTheRoad(db.deals[d].status))
  {
    hide Run, Inv, DealRef;
    RunInv(steps);
    DealRefAt(Run(EMPTY, steps), d);
  }

  lemma DealRefAt(db: Db, d: nat)
    requires Inv(db) && d < |db.deals|
    ensures DealRef(db, db.deals[d]) && db.deals[d].load < |db.loads|
  {
    assert DealRefs(db);
  }

  /** The deal exists after `n` steps and the user may track it. */
  ghost predicate WindowOpen(steps: seq<Step>, n: nat, user: User, d: nat)
    requires n <= |steps|
  {
    d < |StateAt(steps, n).deals| && CanTrackDeal(StateAt(steps, n), user, d)
  }

  /** A carrier follows every deal, anybody else those on a load of theirs. */
  ghost predicate Follows(db: Db, user: User, d: nat) {
    && d < |db.deals| && db.deals[d].load < |db.loads|
    && (user.role == CarrierRole || db.loads[db.deals[d].load].postedBy == Some(user.id))
  }

  /** The window opens exactly at the request that reports the cargo loaded, and
      closes exactly at the one that reports it delivered or cancels the deal; no
      other request of any kind opens or closes it. */
  lemma WindowOpensAndCloses(steps: seq<Step>, n: nat, user: User, d: nat)
    requires n < |steps| && user.role != AdminRole
    ensures var db, step := StateAt(steps, n), steps[n];
            && (!WindowOpen(steps, n, user, d) && WindowOpen(steps, n + 1, user, d) <==>
                  Follows(db, user, d) && DealCause(db, step, d, Loaded))
            && (WindowOpen(steps, n, user, d) && !WindowOpen(steps, n + 1, user, d) <==>
                  Follows(db, user, d) && (|| (DealCause(db, step, d, Delivered))
                                           || (DealCause(db, step, d, DealCancelled) && OnTheRoad(db.deals[d].status))))
  {
    hide StateAt, Apply, Inv, Evolves, DealsExplained, CanTrackDeal;
    EveryChangeHasItsCause(steps, n);
    RunEvolves(steps, n, n + 1);
    StateInv(steps, n);
    StateInv(steps, n + 1);
    StateAtNext(steps, n);
    var a, b := StateAt(steps, n), StateAt(steps, n + 1);
    if d < |a.deals| {
      DealKeepsItsLoad(a, b, d);
      WindowStep(a, steps[n], b, user, d);
    } else if d < |b.deals| {
      NewDealsAreBooked(a, steps[n]);
      BookedIsClosed(b, user, d);
    }
  }

  lemma BookedIsClosed(db: Db, user: User, d: nat)
    requires d < |db.deals| && db.deals[d].status == DealBooked && user.role != AdminRole
    ensures !CanTrackDeal(db, user, d)
  {
  }

  lemma DealKeepsItsLoad(a: Db, b: Db, d: nat)
    requires Inv(a) && Evolves(a, b) && d < |a.deals|
    ensures |a.deals| <= |b.deals| && a.deals[d].load == b.deals[d].load < |a.loads| <= |b.loads|
    ensures a.loads[a.deals[d].load].postedBy == b.loads[a.deals[d].load].postedBy
  {
    DealRefAt(a, d);
    hide Inv, DealRef;
    assert DealEvolves(a.deals[d], b.deals[d]);
    assert LoadEvolves(a.loads[a.deals[d].load], b.loads[a.deals[d].load]);
  }

  lemma WindowStep(a: Db, step: Step, b: Db, user: User, d: nat)
    requires d < |a.deals| <= |b.deals| && user.role != AdminRole && DealsExplained(a, step, b)
    requires a.deals[d].load == b.deals[d].load < |a.loads| <= |b.loads|
    requires a.loads[a.deals[d].load].postedBy == b.loads[a.deals[d].load].postedBy
    ensures !CanTrackDeal(a, user, d) && CanTrackDeal(b, user, d) <==>
              Follows(a, user, d) && DealCause(a, step, d, Loaded)
    ensures CanTrackDeal(a, user, d) && !CanTrackDeal(b, user, d) <==>
              Follows(a, user, d) && (|| DealCause(a, step, d, Delivered)
                                      || (DealCause(a, step, d, DealCancelled) && OnTheRoad(a.deals[d].status)))
  {
    var s, t := a.deals[d].status, b.deals[d].status;
    assert CanTrackDeal(a, user, d) <==> Follows(a, user, d) && OnTheRoad(s);
    assert CanTrackDeal(b, user, d) <==> Follows(a, user, d) && OnTheRoad(t);
    assert s != t ==> DealCause(a, step, d, t);
    assert forall to | DealCause(a, step, d, to) :: t == to && t != s;
    assert DealCause(a, step, d, t) ==> t in AdminNext(s);
    hide CanTrackDeal, Follows, DealsExplained, DealCause;
    assert DealCause(a, step, d, Loaded) ==> t == Loaded && s != t;
    assert DealCause(a, step, d, Delivered) ==> t == Delivered && s != t;
    assert DealCause(a, step, d, DealCancelled) ==> t == DealCancelled && s != t;
  }

  /** No request creates a deal in any other status. */
  lemma NewDealsAreBooked(db: Db, step: Step)
    ensures forall d | |db.deals| <= d < |Apply(db, step).deals| :: Apply(db, step).deals[d].status == DealBooked
  {
    if step.IngestLoads? {
      UpsertLoadsTouch(db, step.loadBatch, step.now);
    } else if step.IngestVehicles? {
      UpsertVehiclesTouch(db, step.vehicleBatch);
    } else if step.RunMatcher? && ListsNewLoads(db, step.order) {
      assert forall i | 0 <= i < |step.order| :: step.order[i] in step.order;
      MatchAllOnlyMatched(db, step.order, step.replies);
    }
  }

  /** How many of the first `n` steps changed the deal's status. */
  ghost function Changes(steps: seq<Step>, n: nat, d: nat): nat
    requires n <= |steps|
  {
    if n == 0 then 0
    else
      var before, after := StateAt(steps, n - 1), StateAt(steps, n);
      Changes(steps, n - 1, d)
      + (if d < |before.deals| && d < |after.deals| && before.deals[d].status != after.deals[d].status then 1 else 0)
  }

  /** How many changes a deal has left. */
  function ChangesLeft(s: DealStatus): (n: nat)
    ensures n <= 5
  {
    if s == DealCancelled then 0 else 5 - Phase(s)
  }

  /** The changes made and the changes left never exceed five. */
  lemma {:induction false} AtMostFiveChanges(steps: seq<Step>, n: nat, d: nat)
    requires n <= |steps|
    ensures Changes(steps, n, d) <= 5
    ensures d < |StateAt(steps, n).deals| ==>
              Changes(steps, n, d) + ChangesLeft(StateAt(steps, n).deals[d].status) <= 5
    ensures d >= |StateAt(steps, n).deals| ==> Changes(steps, n, d) == 0
  {
    hide StateAt, ChangesLeft;
    if n == 0 {
      NoDealsAtStart(steps);
    } else {
      AtMostFiveChanges(steps, n - 1, d);
      DealMoves(steps, n - 1, d);
      ChangesOneMore(steps, n - 1, d);
    }
  }

  lemma NoDealsAtStart(steps: seq<Step>)
    ensures StateAt(steps, 0).deals == []
  {
    assert steps[..0] == [];
  }

  lemma ChangesOneMore(steps: seq<Step>, n: nat, d: nat)
    requires n < |steps|
    ensures d < |StateAt(steps, n).deals| <= |StateAt(steps, n + 1).deals| ==>
              Changes(steps, n + 1, d) == Changes(steps, n, d)
                + if StateAt(steps, n).deals[d].status != StateAt(steps, n + 1).deals[d].status then 1 else 0
    ensures d >= |StateAt(steps, n).deals| ==> Changes(steps, n + 1, d) == Changes(steps, n, d)
  {
    hide StateAt;
  }

  /** A step that changes a deal's status uses up one of the changes left. */
  lemma DealMoves(steps: seq<Step>, n: nat, d: nat)
    requires n < |steps|
    ensures |StateAt(steps, n).deals| <= |StateAt(steps, n + 1).deals|
    ensures d < |StateAt(steps, n).deals| ==>
              var a, b := StateAt(steps, n).deals[d].status, StateAt(steps, n + 1).deals[d].status;
              ChangesLeft(b) + (if a != b then 1 else 0) <= ChangesLeft(a) <= 5
  {
    RunEvolves(steps, n, n + 1);
    hide StateAt;
    if d < |StateAt(steps, n).deals| {
      assert DealEvolves(StateAt(steps, n).deals[d], StateAt(steps, n + 1).deals[d]);
    }
  }

  // ---------- positions ----------

  /** The fleet page and the tracking page show the same latest position in every
      reachable state. */
  lemma LatestPositionAgreement(
      steps: seq<Step>, ids: set<nat>, rows: seq<Position>, vehicle: nat, answer: Option<Position>)
    requires FleetOrder(Run(EMPTY, steps).positions, ids, rows) && vehicle in ids
    requires IsTracked(Run(EMPTY, steps).positions, vehicle, answer)
    ensures UniqueFixes(Run(EMPTY, steps).positions)
    ensures answer == if vehicle in Latest(DistinctOn(rows)) then Some(Latest(DistinctOn(rows))[vehicle]) else None
  {
    RunInv(steps);
    PagesAgree(Run(EMPTY, steps).positions, ids, rows, vehicle, answer);
  }

  /** Whatever is polled, relinked or deleted, a vehicle's latest fix time never
      moves back. */
  lemma LatestFixNeverMovesBack(
      steps: seq<Step>, i: nat, j: nat, vehicle: nat, a: Option<Position>, b: Option<Position>)
    requires i <= j <= |steps|
    requires IsTracked(StateAt(steps, i).positions, vehicle, a) && IsTracked(StateAt(steps, j).positions, vehicle, b)
    ensures a.Some? ==> b.Some? && b.value.recordedAt >= a.value.recordedAt
  {
    RunEvolves(steps, i, j);
    LatestNeverMovesBack(StateAt(steps, i).positions, StateAt(steps, j).positions, vehicle, a, b);
  }
}
