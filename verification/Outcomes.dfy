/** What a request leaves behind, column by column, and when it succeeds, in terms
    of the rows and the request alone. */
module Outcomes {
  import opened Wrappers
  import opened Text
  import opened Tables
  import opened Matcher
  import opened Pricing
  import opened Gps
  import opened Ingestion
  import opened Lifecycle
  import opened Invariants
  import opened Evolution

  // ---------- posting a load ----------

  /** Shippers, forwarders and administrators. */
  ghost predicate IsPoster(user: User) {
    user.role == ShipperRole || user.role == ForwarderRole || user.role == AdminRole
  }

  /** Both ends of the route and the cargo are named, a weight is positive, and
      nothing that was filled in is unreadable. */
  ghost predicate IsComplete(f: LoadForm) {
    && (forall s | s in [f.fromCountry, f.fromCity, f.toCountry, f.toCity, f.cargoName] :: Strip(s) != "")
    && (f.weight == Blank || (f.weight.Readable? && 0 < f.weight.value))
    && (f.price == Blank || f.price.Readable?)
    && f.othersReadable
  }

  ghost predicate HasAmount(n: Number, column: Option<int>) {
    (n.Readable? ==> column == Some(n.value)) && (!n.Readable? ==> column == None)
  }

  ghost predicate LoadPosted(before: Db, after: Db, user: User, f: LoadForm) {
    && after == before.(loads := after.loads) && |after.loads| == |before.loads| + 1 && before.loads <= after.loads
    && var l := after.loads[|before.loads|];
    && l.source == "platform" && l.externalId == None && l.status == New && l.postedBy == Some(user.id)
    && l.origin.country == Some(Upper(Strip(f.fromCountry))) && l.origin.city == Some(Strip(f.fromCity))
    && l.destination.country == Some(Upper(Strip(f.toCountry))) && l.destination.city == Some(Strip(f.toCity))
    && l.origin.lat == l.origin.lon == l.destination.lat == l.destination.lon == None
    && HasAmount(f.weight, l.weight) && HasAmount(f.price, l.price)
    && l.bodyTypes == (if |f.bodyTypes| == 0 then None else Some(f.bodyTypes))
    && (Strip(f.currency) == "" ==> l.currency == Some("UAH"))
    && (Strip(f.currency) != "" ==> l.currency == Some(Upper(Strip(f.currency))))
    && (Strip(f.notes) == "" ==> l.details == Strip(f.cargoName))
    && (Strip(f.notes) != "" ==> l.details == Strip(f.cargoName) + " \U{2014} " + Strip(f.notes))
    && l.payload == map[]
  }

  lemma PostOutcome(db: Db, user: User, f: LoadForm)
    ensures var r := PostLoad(db, user, f);
            && (r.Ok? <==> IsPoster(user) && IsComplete(f))
            && (r.Ok? ==> LoadPosted(db, r.value, user, f))
            && (r.Raised? ==> r.code == if IsPoster(user) then 422 else 403)
  {
    CompleteIsOk(f);
    assert |Upper(Strip(f.currency))| == |Strip(f.currency)|;
    hide Strip, FormOk, IsComplete;
    if Strip(f.notes) == "" {
      assert Strip(f.cargoName) + "" == Strip(f.cargoName);
    } else {
      assert Strip(f.cargoName) + (" \U{2014} " + Strip(f.notes)) == Strip(f.cargoName) + " \U{2014} " + Strip(f.notes);
    }
  }

  lemma CompleteIsOk(f: LoadForm)
    ensures FormOk(f) <==> IsComplete(f)
  {
    hide Strip;
    assert forall s :: s in [f.fromCountry, f.fromCity, f.toCountry, f.toCity, f.cargoName] <==>
        s == f.fromCountry || s == f.fromCity || s == f.toCountry || s == f.toCity || s == f.cargoName;
  }

  // ---------- booking ----------

  /** The deal on the pair, at the price and in the currency of the request, with the
      vehicle's carrier. */
  ghost predicate IsBookedDeal(before: Db, d: Deal, load: nat, vehicle: nat, price: int, currency: string) {
    && d.load == load && d.vehicle == vehicle && d.status == DealBooked
    && d.price == price && d.currency == Upper(currency)
    && HasVehicle(before, vehicle) && before.vehicles[vehicle].value.carrier == Some(d.carrier)
  }

  /** One booked deal more, the match promoted, its load booked, nothing else. */
  ghost predicate PromotionDone(before: Db, after: Db, m: nat, price: int, currency: string) {
    && m < |before.matches| && before.matches[m].load < |before.loads|
    && var row := before.matches[m];
    && after == before.(deals := after.deals, matches := after.matches, loads := after.loads)
    && |after.deals| == |before.deals| + 1 && before.deals <= after.deals
    && IsBookedDeal(before, after.deals[|before.deals|], row.load, row.vehicle, price, currency)
    && after.matches == before.matches[m := row.(status := Promoted)]
    && after.loads == before.loads[row.load := before.loads[row.load].(status := Booked)]
  }

  /** The match can be promoted by the user. */
  ghost predicate IsPromotable(db: Db, user: User, m: nat) {
    && user.role == AdminRole && m < |db.matches| && db.matches[m].status != Rejected
    && HasVehicle(db, db.matches[m].vehicle) && db.vehicles[db.matches[m].vehicle].value.carrier != None
  }

  /** The rows the new deal refers to exist, as they do in every reachable state. */
  ghost predicate RowsExist(db: Db, load: nat, vehicle: nat) {
    && load < |db.loads|
    && (HasVehicle(db, vehicle) && db.vehicles[vehicle].value.carrier.Some? ==>
          db.vehicles[vehicle].value.carrier.value < |db.carriers|)
  }

  lemma PromoteOutcome(db: Db, user: User, m: nat, price: int, currency: string)
    ensures var r := PromoteMatch(db, user, m, price, currency);
            && (r.Ok? <==> IsPromotable(db, user, m) && RowsExist(db, db.matches[m].load, db.matches[m].vehicle))
            && (r.Ok? ==> PromotionDone(db, r.value, m, price, currency))
            && (r.Raised? && user.role != AdminRole ==> r.code == 403)
            && (r.Raised? && user.role == AdminRole && m >= |db.matches| ==> r.code == 404)
  {
    hide Upper;
  }

  /** A booked deal and a promoted match more, vehicle and load booked, nothing else. */
  ghost predicate ProposalDone(before: Db, after: Db, vehicle: nat, load: nat, price: int, currency: string) {
    && load < |before.loads| && HasVehicle(before, vehicle)
    && after ==
       before.(deals := after.deals, matches := after.matches, loads := after.loads, vehicles := after.vehicles)
    && |after.deals| == |before.deals| + 1 && before.deals <= after.deals
    && IsBookedDeal(before, after.deals[|before.deals|], load, vehicle, price, currency)
    && after.matches == before.matches + [Match(load, vehicle, Promoted, 80, None, None)]
    && after.loads == before.loads[load := before.loads[load].(status := Booked)]
    && after.vehicles ==
       before.vehicles[vehicle := Some(before.vehicles[vehicle].value.(status := VehicleBooked))]
  }

  /** The checks of the proposal route. */
  ghost predicate MayPropose(db: Db, user: User, vehicle: nat, load: nat) {
    && IsPoster(user)
    && HasVehicle(db, vehicle) && db.vehicles[vehicle].value.status == Available
    && load < |db.loads| && (db.loads[load].postedBy == Some(user.id) || user.role == AdminRole)
    && (db.loads[load].status == New || db.loads[load].status == Matched)
  }

  ghost predicate HasCarrier(db: Db, vehicle: nat) {
    HasVehicle(db, vehicle) && db.vehicles[vehicle].value.carrier != None
  }

  ghost predicate PairMatched(db: Db, load: nat, vehicle: nat) {
    exists i | 0 <= i < |db.matches| :: db.matches[i].load == load && db.matches[i].vehicle == vehicle
  }

  ghost predicate PairDealt(db: Db, load: nat, vehicle: nat) {
    exists i | 0 <= i < |db.deals| :: db.deals[i].load == load && db.deals[i].vehicle == vehicle
  }

  lemma FindsPair(db: Db, load: nat, vehicle: nat)
    ensures FindMatch(db.matches, load, vehicle).Some? <==> PairMatched(db, load, vehicle)
    ensures FindDeal(db.deals, load, vehicle).Some? <==> PairDealt(db, load, vehicle)
  {
    if i :| 0 <= i < |db.matches| && db.matches[i].load == load && db.matches[i].vehicle == vehicle {
      assert IsPair(db.matches[i], load, vehicle);
    }
    if i :| 0 <= i < |db.deals| && db.deals[i].load == load && db.deals[i].vehicle == vehicle {
      assert IsDealOn(db.deals[i], load, vehicle);
    }
    hide FindMatch, FindDeal;
  }

  /** What a proposal that passes the checks leads to. */
  ghost predicate ProposalEnds(
      db: Db, r: Result<(Db, nat)>, vehicle: nat, load: nat, price: int, currency: string)
  {
    if PairDealt(db, load, vehicle) then
      r.Ok? && r.value.0 == db && r.value.1 < |db.deals| && IsDealOn(db.deals[r.value.1], load, vehicle)
    else if !PairMatched(db, load, vehicle) && HasCarrier(db, vehicle) && RowsExist(db, load, vehicle) then
      r.Ok? && ProposalDone(db, r.value.0, vehicle, load, price, currency) && r.value.1 == |db.deals|
    else r == Raised(500)
  }

  lemma ProposeOutcome(db: Db, user: User, vehicle: nat, load: nat, price: int, currency: string)
    ensures var r := ProposeDeal(db, user, vehicle, load, price, currency);
            && (!MayPropose(db, user, vehicle, load) ==> r.Raised? && r.code in {400, 403, 404})
            && (MayPropose(db, user, vehicle, load) ==> ProposalEnds(db, r, vehicle, load, price, currency))
  {
    FindsPair(db, load, vehicle);
    if MayPropose(db, user, vehicle, load) && FindDeal(db.deals, load, vehicle).None? && CanBook(db, vehicle, load) {
      BookingIsProposed(db, vehicle, load, price, currency);
    }
    hide Booking, PairMatched, PairDealt, ProposalDone, FindMatch;
  }

  lemma BookingIsProposed(db: Db, vehicle: nat, load: nat, price: int, currency: string)
    requires HasVehicle(db, vehicle) && load < |db.loads| && CanBook(db, vehicle, load)
    ensures ProposalDone(db, Booking(db, vehicle, load, price, currency), vehicle, load, price, currency)
  {
    hide Upper, FindMatch;
  }

  // ---------- moving a deal ----------

  /** The next phase, or cancelling before delivery, for an administrator; the next
      phase up to delivery for a carrier; nothing for anybody else. */
  ghost predicate MayMove(user: User, status: DealStatus, target: DealStatus) {
    match user.role
    case AdminRole =>
      if target == DealCancelled then Phase(status) < Phase(Delivered) else Phase(target) == Phase(status) + 1
    case CarrierRole => Phase(target) == Phase(status) + 1 <= Phase(Delivered)
    case _ => false
  }

  /** The sample of a delivery: the load's route, weight and first body type, the
      deal's price and currency, the time of the request. */
  ghost predicate IsDeliverySample(s: PriceSample, d: nat, deal: Deal, l: Load, now: int) {
    && s.source == FromDeal(d) && s.collectedAt == now
    && s.fromCountry == l.origin.country && s.fromCity == l.origin.city
    && s.toCountry == l.destination.country && s.toCity == l.destination.city
    && s.weight == l.weight && s.price == deal.price
    && s.currency == (if deal.currency == "" then "UAH" else deal.currency)
    && (l.bodyTypes == None || l.bodyTypes == Some([]) ==> s.bodyType == None)
    && (l.bodyTypes.Some? && l.bodyTypes.value != [] ==> s.bodyType == Some(l.bodyTypes.value[0]))
  }

  /** The deal has the status, and a delivery at a price left its sample; nothing else. */
  ghost predicate Moved(before: Db, after: Db, d: nat, target: DealStatus, now: int) {
    && d < |before.deals|
    && after == before.(deals := after.deals, samples := after.samples)
    && after.deals == before.deals[d := before.deals[d].(status := target)]
    && var deal := before.deals[d];
    && if target == Delivered && deal.price != 0 && deal.load < |before.loads| then
         && |after.samples| == |before.samples| + 1 && before.samples <= after.samples
         && IsDeliverySample(after.samples[|before.samples|], d, deal, before.loads[deal.load], now)
       else after.samples == before.samples
  }

  lemma AdvanceOutcome(db: Db, user: User, d: nat, target: DealStatus, now: int)
    ensures var r := AdvanceDeal(db, user, d, target, now);
            && (r.Ok? <==> d < |db.deals| && MayMove(user, db.deals[d].status, target))
            && (r.Ok? ==> Moved(db, r.value, d, target, now))
            && (r.Raised? ==>
                  r.code == if d >= |db.deals| then 404
                            else if user.role == AdminRole || user.role == CarrierRole then 400 else 403)
  {
    if d < |db.deals| {
      AdvancedMoved(db, d, target, now);
      hide Advanced, Moved;
    }
  }

  lemma AdvancedMoved(db: Db, d: nat, target: DealStatus, now: int)
    requires d < |db.deals|
    ensures Moved(db, Advanced(db, d, target, now), d, target, now)
  {
  }

  // ---------- the fleet ----------

  /** A carrier or administrator. */
  ghost predicate IsManager(user: User) {
    user.role == CarrierRole || user.role == AdminRole
  }

  /** The vehicle exists and has the user's company, or like the user none. */
  ghost predicate IsInTheirFleet(db: Db, user: User, v: nat) {
    v < |db.vehicles| && db.vehicles[v].Some? && db.vehicles[v].value.company == user.company
  }

  lemma FleetMeans(db: Db, user: User, v: nat)
    ensures MayManageFleet(user) <==> IsManager(user)
    ensures InFleet(db, user, v) <==> IsInTheirFleet(db, user, v)
    ensures MayPost(user) <==> IsPoster(user)
  {
  }

  ghost predicate Registered(
      before: Db, after: Db, user: User, plate: string, bodyType: string, capacity: int, device: Option<nat>)
  {
    && after == before.(vehicles := after.vehicles)
    && |after.vehicles| == |before.vehicles| + 1 && before.vehicles <= after.vehicles
    && after.vehicles[|before.vehicles|].Some?
    && var v := after.vehicles[|before.vehicles|].value;
    && v.source == "platform" && v.externalId == None && v.status == Available && v.carrier == None
    && v.company == user.company && v.bodyType == Some(bodyType) && v.capacity == Some(capacity) && v.device == device
    && v.origin == v.destination == Place(None, None, None, None)
    && v.payload == map["plate" := Upper(Strip(plate))]
  }

  lemma RegisterOutcome(
      db: Db, user: User, plate: string, bodyType: string, capacity: int, device: Option<nat>)
    ensures var r := RegisterVehicle(db, user, plate, bodyType, capacity, device);
            && (r.Ok? <==> IsManager(user) && user.company != None && Strip(plate) != "")
            && (r.Ok? ==> Registered(db, r.value, user, plate, bodyType, capacity, device))
            && (r.Raised? ==> r.code == if !IsManager(user) then 403 else if user.company == None then 302 else 422)
  {
    hide Strip, Upper;
  }

  // ---------- every request takes effect ----------

  /** The state after a request, whatever its kind. */
  ghost predicate TakesEffect(db: Db, step: Step, after: Db) {
    match step
    case IngestLoads(batch, now) =>
      if LoadBatchOk(db, batch) then after == UpsertLoads(db, batch, now) && LoadsAdded(db, batch, now, after)
      else after == db
    case IngestVehicles(batch) =>
      if VehicleBatchOk(db, batch) then after == UpsertVehicles(db, batch) && VehiclesAdded(db, batch, after)
      else after == db
    case Post(user, form) =>
      if IsPoster(user) && IsComplete(form) then LoadPosted(db, after, user, form) else after == db
    case Cancel(user, l) =>
      if l < |db.loads| && (db.loads[l].postedBy == Some(user.id) || user.role == AdminRole)
         && db.loads[l].status != Booked && db.loads[l].status != Cancelled
      then after == db.(loads := db.loads[l := db.loads[l].(status := Cancelled)]) else after == db
    case RunMatcher(order, replies) => ListsNewLoads(db, order) ==> after == MatchAll(db, order, replies).0
    case Reject(m) =>
      if m < |db.matches| then after == db.(matches := db.matches[m := db.matches[m].(status := Rejected)])
      else after == db
    case Rate(user, m, verdict) =>
      if m < |db.matches| && verdict != InvalidVerdict then
        && (m, user.id) in after.feedback && after.feedback[(m, user.id)] == verdict
        && |after.matches| == |db.matches|
        && after.matches[m].status == (if db.matches[m].status == Proposed then Reviewed else db.matches[m].status)
      else after == db
    case RunPricing(now, replies) =>
      && after == db.(matches := after.matches) && |after.matches| == |db.matches|
      && forall i | 0 <= i < |db.matches| :: IsPricedFrom(db, now, replies, i, db.matches[i], after.matches[i])
    case Promote(user, m, price, currency) =>
      if IsPromotable(db, user, m) && RowsExist(db, db.matches[m].load, db.matches[m].vehicle)
      then PromotionDone(db, after, m, price, currency) else after == db
    case Propose(user, vehicle, load, price, currency) =>
      if MayPropose(db, user, vehicle, load) && !PairDealt(db, load, vehicle) && !PairMatched(db, load, vehicle)
         && HasCarrier(db, vehicle) && RowsExist(db, load, vehicle)
      then ProposalDone(db, after, vehicle, load, price, currency) else after == db
    case Advance(user, d, target, now) =>
      if d < |db.deals| && MayMove(user, db.deals[d].status, target) then Moved(db, after, d, target, now)
      else after == db
    case Register(user, plate, bodyType, capacity, device) =>
      if IsManager(user) && user.company != None && Strip(plate) != ""
      then Registered(db, after, user, plate, bodyType, capacity, device) else after == db
    case Edit(user, v, plate, bodyType, capacity, status) =>
      if IsManager(user) && IsInTheirFleet(db, user, v) && Strip(plate) != "" then
        var a := db.vehicles[v].value;
        after == db.(vehicles := db.vehicles[v := Some(a.(
          bodyType := Some(bodyType), capacity := Some(capacity), status := status,
          payload := a.payload["plate" := Upper(Strip(plate))]))])
      else after == db
    case Link(user, v, server) =>
      if IsManager(user) && IsInTheirFleet(db, user, v) && user.company != None && server.Assigns? then
        after == db.(vehicles := db.vehicles[v := Some(db.vehicles[v].value.(device := Some(server.device)))])
      else after == db
    case Delete(user, v) =>
      if IsManager(user) && IsInTheirFleet(db, user, v)
         && (forall i | 0 <= i < |db.matches| :: db.matches[i].vehicle != v)
         && (forall i | 0 <= i < |db.deals| :: db.deals[i].vehicle != v)
         && (forall i | 0 <= i < |db.positions| :: db.positions[i].vehicle != v)
      then after == db.(vehicles := db.vehicles[v := None]) else after == db
    case PollGps(query, reply) =>
      && after == db.(positions := after.positions) && db.positions <= after.positions
      && forall p :: p in after.positions[|db.positions|..] <==> IsDueRow(db, query, reply, p)
  }

  lemma BatchTakesEffect(db: Db, step: Step)
    requires step.IngestLoads? || step.IngestVehicles? || step.RunMatcher?
    ensures TakesEffect(db, step, Apply(db, step))
  {
    if step.IngestLoads? {
      LoadsAddedByBatch(db, step.loadBatch, step.now);
    } else if step.IngestVehicles? {
      VehiclesAddedByBatch(db, step.vehicleBatch);
    }
    hide LoadsAdded, VehiclesAdded, UpsertLoads, UpsertVehicles, MatchAll, LoadBatchOk, VehicleBatchOk, ListsNewLoads;
  }

  lemma PostTakesEffect(db: Db, step: Step)
    requires step.Post? || step.Register?
    ensures TakesEffect(db, step, Apply(db, step))
  {
    hide LoadPosted, Registered, PostLoad, RegisterVehicle;
    if step.Post? {
      PostOutcome(db, step.user, step.form);
    } else {
      RegisterOutcome(db, step.user, step.plate, step.bodyType, step.capacity, step.device);
    }
  }

  lemma DealTakesEffect(db: Db, step: Step)
    requires step.Promote? || step.Propose? || step.Advance?
    ensures TakesEffect(db, step, Apply(db, step))
  {
    hide PromotionDone, ProposalDone, Moved, PromoteMatch, ProposeDeal, AdvanceDeal, PairDealt, PairMatched, MayMove;
    if step.Promote? {
      PromoteOutcome(db, step.user, step.m, step.price, step.currency);
    } else if step.Propose? {
      ProposeOutcome(db, step.user, step.vehicle, step.load, step.price, step.currency);
    } else {
      AdvanceOutcome(db, step.user, step.deal, step.dealStatus, step.now);
    }
  }

  lemma RowTakesEffect(db: Db, step: Step)
    requires step.Cancel? || step.Reject? || step.Rate?
    ensures TakesEffect(db, step, Apply(db, step))
  {
  }

  lemma FleetTakesEffect(db: Db, step: Step)
    requires step.Edit? || step.Link? || step.Delete?
    ensures TakesEffect(db, step, Apply(db, step))
  {
    FleetMeans(db, step.user, step.vehicle);
    hide Strip, Upper, MayManageFleet, InFleet, IsManager;
  }

  lemma PricingTakesEffect(db: Db, step: Step)
    requires step.RunPricing?
    ensures TakesEffect(db, step, Apply(db, step))
  {
    var after := Apply(db, step);
    forall i | 0 <= i < |db.matches|
      ensures IsPricedFrom(db, step.now, step.suggestions, i, db.matches[i], after.matches[i])
    {
      PricedIsPricedFrom(db, step.now, step.suggestions, i, db.matches[i]);
    }
    hide IsPricedFrom, Priced;
  }

  lemma PollTakesEffect(db: Db, step: Step)
    requires step.PollGps?
    ensures TakesEffect(db, step, Apply(db, step))
  {
    assert Apply(db, step) == Poll(db, step.query, step.reply);
    PollAddsDue(db, step.query, step.reply);
    hide Apply, Poll, IsDueRow;
  }

  lemma PollAddsDue(db: Db, query: seq<nat>, reply: seq<Fix>)
    ensures var after := Poll(db, query, reply);
            && after == db.(positions := after.positions) && db.positions <= after.positions
            && forall p :: p in after.positions[|db.positions|..] <==> IsDueRow(db, query, reply, p)
  {
    var rows := NewPositions(db, Owners(db, query), ByDevice(reply));
    assert Poll(db, query, reply).positions[|db.positions|..] == rows;
    hide *;
    forall p ensures p in rows <==> IsDueRow(db, query, reply, p) {
      PollAddsExactly(db, query, reply, p);
    }
  }

  /** Every request of a run does what its columns and conditions say, and a request
      that fails leaves the state as it was. */
  lemma StepTakesEffect(db: Db, step: Step)
    ensures TakesEffect(db, step, Apply(db, step))
  {
    hide TakesEffect, Apply;
    if step.IngestLoads? || step.IngestVehicles? || step.RunMatcher? {
      BatchTakesEffect(db, step);
    } else if step.Post? || step.Register? {
      PostTakesEffect(db, step);
    } else if step.Promote? || step.Propose? || step.Advance? {
      DealTakesEffect(db, step);
    } else if step.Cancel? || step.Reject? || step.Rate? {
      RowTakesEffect(db, step);
    } else if step.RunPricing? {
      PricingTakesEffect(db, step);
    } else if step.PollGps? {
      PollTakesEffect(db, step);
    } else {
      FleetTakesEffect(db, step);
    }
  }

  // ---------- reachable states ----------

  lemma BookableRows(db: Db, vehicle: nat)
    requires Inv(db)
    ensures HasVehicle(db, vehicle) && db.vehicles[vehicle].value.carrier.Some? ==>
              db.vehicles[vehicle].value.carrier.value < |db.carriers|
    ensures forall m | 0 <= m < |db.matches| :: db.matches[m].load < |db.loads| && HasVehicle(db, db.matches[m].vehicle)
  {
    assert Refs(db) && VehicleRefs(db) && MatchRefs(db);
  }

  /** In a reachable state an administrator promotes a match iff it is not rejected
      and its vehicle has a carrier. Then one deal is booked at the price of the
      request, and the match and its load show it; otherwise nothing happens. */
  lemma PromotionBooks(steps: seq<Step>, user: User, m: nat, price: int, currency: string)
    ensures var db := Run(EMPTY, steps);
            var after := Apply(db, Promote(user, m, price, currency));
            if IsPromotable(db, user, m) then PromotionDone(db, after, m, price, currency) else after == db
  {
    RunInv(steps);
    hide Run;
    var db := Run(EMPTY, steps);
    PromoteOutcome(db, user, m, price, currency);
    if IsPromotable(db, user, m) {
      BookableRows(db, db.matches[m].vehicle);
    }
    hide PromoteMatch, PromotionDone, Inv;
  }

  /** In a reachable state a proposal that passes the checks books a deal iff the
      vehicle has a carrier and the pair has no match; otherwise nothing happens. */
  lemma ProposalBooks(steps: seq<Step>, user: User, vehicle: nat, load: nat, price: int, currency: string)
    ensures var db := Run(EMPTY, steps);
            var after := Apply(db, Propose(user, vehicle, load, price, currency));
            if MayPropose(db, user, vehicle, load) && HasCarrier(db, vehicle) && !PairMatched(db, load, vehicle)
            then ProposalDone(db, after, vehicle, load, price, currency) else after == db
  {
    hide Run, Inv, MayPropose, HasCarrier, ProposalDone, PairMatched, PairDealt, RowsExist, ProposeDeal;
    RunInv(steps);
    var db := Run(EMPTY, steps);
    ProposeOutcome(db, user, vehicle, load, price, currency);
    if MayPropose(db, user, vehicle, load) {
      ProposedRows(db, user, vehicle, load);
    }
  }

  lemma ProposedRows(db: Db, user: User, vehicle: nat, load: nat)
    requires Inv(db) && MayPropose(db, user, vehicle, load)
    ensures !PairDealt(db, load, vehicle) && RowsExist(db, load, vehicle)
  {
    OpenLoadUndealt(db, load, vehicle);
    BookableRows(db, vehicle);
    hide Inv, PairDealt;
  }

  lemma OpenLoadUndealt(db: Db, load: nat, vehicle: nat)
    requires Inv(db) && load < |db.loads| && (db.loads[load].status == New || db.loads[load].status == Matched)
    ensures !PairDealt(db, load, vehicle)
  {
    assert LoadInv(db.loads[load], load, db.matches, db.deals);
    hide Inv;
  }
}
