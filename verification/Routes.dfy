/** The route handlers, step by step on a session, each proved to do what the
    corresponding function of the lifecycle says and to leave nothing behind
    when it raises. */
module Routes {
  import opened Wrappers
  import opened Text
  import opened Tables
  import opened UnitOfWork
  import opened Matcher
  import opened Gps
  import opened Lifecycle
  import opened Outcomes

  method NewLoadSubmit(session: Session, user: User, f: LoadForm) returns (r: Result<()>)
    requires session.Idle()
    modifies session
    ensures session.Idle() && Completes(old(session.db), session.db, r, PostLoad(old(session.db), user, f))
    ensures r.Ok? <==> IsPoster(user) && IsComplete(f)
    ensures r.Ok? ==> LoadPosted(old(session.db), session.db, user, f)
    ensures r.Raised? ==> session.db == old(session.db) && r.code == if IsPoster(user) then 422 else 403
  {
    PostOutcome(session.db, user, f);
    hide IsPoster, IsComplete, LoadPosted;
    if !MayPost(user) {
      return Raised(403);
    }
    if !FormOk(f) {
      return Raised(422);
    }
    FlushOne(session.tx, LoadRow(PlatformLoad(user, f)));
    session.Add(LoadRow(PlatformLoad(user, f)));
    r := CommitOrRaise(session);
  }

  method CancelLoadRoute(session: Session, user: User, load: nat) returns (r: Result<()>)
    requires session.Idle()
    modifies session
    ensures session.Idle() && Completes(old(session.db), session.db, r, CancelLoad(old(session.db), user, load))
    ensures r.Ok? <==> var loads := old(session.db).loads;
              && load < |loads| && (loads[load].postedBy == Some(user.id) || user.role == AdminRole)
              && loads[load].status != Booked && loads[load].status != Cancelled
    ensures r.Ok? ==> OnlyLoad(old(session.db), session.db, load, old(session.db).loads[load].(status := Cancelled))
    ensures r.Raised? ==> session.db == old(session.db) && r.code in {400, 403, 404}
                          && (r.code == 404 <==> load >= |session.db.loads|)
                          && (r.code == 403 <==> load < |session.db.loads| && !OwnsLoad(user, session.db.loads[load]))
  {
    if load >= |session.tx.loads| {
      return Raised(404);
    }
    var row := session.tx.loads[load];
    if row.postedBy != Some(user.id) && user.role != AdminRole {
      return Raised(403);
    }
    if row.status == Booked || row.status == Cancelled {
      return Raised(400);
    }
    session.tx := session.tx.(loads := session.tx.loads[load := row.(status := Cancelled)]);
    r := CommitOrRaise(session);
  }

  method RejectMatchRoute(session: Session, m: nat) returns (r: Result<()>)
    requires session.Idle()
    modifies session
    ensures session.Idle() && Completes(old(session.db), session.db, r, RejectMatch(old(session.db), m))
    ensures r == if m < |old(session.db).matches| then Ok(()) else Raised(404)
    ensures r.Ok? ==> OnlyMatch(old(session.db), session.db, m, old(session.db).matches[m].(status := Rejected))
    ensures r.Raised? ==> session.db == old(session.db)
  {
    if m >= |session.tx.matches| {
      return Raised(404);
    }
    session.tx := session.tx.(matches := session.tx.matches[m := session.tx.matches[m].(status := Rejected)]);
    r := CommitOrRaise(session);
  }

  method MatchFeedback(session: Session, user: User, m: nat, verdict: Verdict) returns (r: Result<()>)
    requires session.Idle()
    modifies session
    ensures session.Idle() && Completes(old(session.db), session.db, r, RateMatch(old(session.db), user, m, verdict))
    ensures r.Ok? <==> verdict != InvalidVerdict && m < |old(session.db).matches|
    ensures r.Ok? ==> var rated := old(session.db).(feedback := session.db.feedback);
              && OnlyMatch(rated, session.db, m, rated.matches[m].(status := session.db.matches[m].status))
              && (forall key | key != (m, user.id) ::
                    (key in session.db.feedback <==> key in old(session.db).feedback)
                    && (key in session.db.feedback ==> session.db.feedback[key] == old(session.db).feedback[key]))
              && (m, user.id) in session.db.feedback && session.db.feedback[(m, user.id)] == verdict
              && session.db.matches[m].status != Proposed
              && (rated.matches[m].status != Proposed ==> session.db.matches[m].status == rated.matches[m].status)
              && (rated.matches[m].status == Proposed ==> session.db.matches[m].status == Reviewed)
    ensures r.Raised? ==> session.db == old(session.db) && r.code == if verdict == InvalidVerdict then 400 else 404
  {
    if verdict == InvalidVerdict {
      return Raised(400);
    }
    if m >= |session.tx.matches| {
      return Raised(404);
    }
    session.tx := session.tx.(feedback := session.tx.feedback[(m, user.id) := verdict]);
    if session.tx.matches[m].status == Proposed {
      session.tx := session.tx.(matches := session.tx.matches[m := session.tx.matches[m].(status := Reviewed)]);
    }
    r := CommitOrRaise(session);
  }

  method CreateDealFromMatch(session: Session, user: User, m: nat, price: int, currency: string) returns (r: Result<()>)
    requires session.Idle()
    modifies session
    ensures session.Idle()
    ensures Completes(old(session.db), session.db, r, PromoteMatch(old(session.db), user, m, price, currency))
    ensures r.Ok? <==> var db := old(session.db);
              IsPromotable(db, user, m) && RowsExist(db, db.matches[m].load, db.matches[m].vehicle)
    ensures r.Ok? ==> PromotionDone(old(session.db), session.db, m, price, currency)
    ensures r.Raised? ==> session.db == old(session.db)
  {
    PromoteOutcome(session.db, user, m, price, currency);
    hide PromotionDone, IsPromotable, RowsExist;
    if user.role != AdminRole {
      return Raised(403);
    }
    if m >= |session.tx.matches| {
      return Raised(404);
    }
    var row := session.tx.matches[m];
    if row.status == Rejected {
      return Raised(400);
    }
    if !HasVehicle(session.tx, row.vehicle) || session.tx.vehicles[row.vehicle].value.carrier.None? {
      return Raised(400);
    }
    var deal := DealRow(row.load, row.vehicle, session.tx.vehicles[row.vehicle].value.carrier, price, Upper(currency));
    session.Add(deal);
    session.tx := session.tx.(matches := session.tx.matches[m := row.(status := Promoted)]);
    if row.load < |session.tx.loads| {
      session.tx := SetLoadStatus(session.tx, row.load, Booked);
    }
    FlushOne(session.tx, deal);
    r := CommitOrRaise(session);
  }

  method UpdateDealStatus(session: Session, user: User, d: nat, status: DealStatus, now: int) returns (r: Result<()>)
    requires session.Idle()
    modifies session
    ensures session.Idle()
    ensures Completes(old(session.db), session.db, r, AdvanceDeal(old(session.db), user, d, status, now))
    ensures r.Ok? <==> d < |old(session.db).deals| && MayMove(user, old(session.db).deals[d].status, status)
    ensures r.Ok? ==> Moved(old(session.db), session.db, d, status, now)
    ensures r.Raised? ==> session.db == old(session.db)
    ensures r.Raised? && d < |session.db.deals| ==>
              r.code == if user.role == AdminRole || user.role == CarrierRole then 400 else 403
  {
    AdvanceOutcome(session.db, user, d, status, now);
    hide Moved, MayMove;
    if d >= |session.tx.deals| {
      return Raised(404);
    }
    var deal := session.tx.deals[d];
    if user.role == AdminRole {
      if status !in AdminNext(deal.status) {
        return Raised(400);
      }
    } else if user.role == CarrierRole {
      if Some(status) != CarrierNext(deal.status) {
        return Raised(400);
      }
    } else {
      return Raised(403);
    }
    session.tx := session.tx.(deals := session.tx.deals[d := deal.(status := status)]);
    if status == Delivered && deal.price != 0 && deal.load < |session.tx.loads| {
      var sample := DealSample(session.tx, d, now);
      SampleIgnoresStatus(old(session.db), d, status, now);
      FlushOne(session.tx, SampleRow(sample));
      session.Add(SampleRow(sample));
    }
    r := CommitOrRaise(session);
  }

  lemma SampleIgnoresStatus(db: Db, d: nat, status: DealStatus, now: int)
    requires d < |db.deals| && db.deals[d].load < |db.loads|
    ensures DealSample(db.(deals := db.deals[d := db.deals[d].(status := status)]), d, now) == DealSample(db, d, now)
  {
  }

  /** Flushes the match, then commits match, deal and both statuses together. */
  method VehicleProposeDeal(session: Session, user: User, vehicle: nat, load: nat, price: int, currency: string)
    returns (r: Result<nat>)
    requires session.Idle()
    modifies session
    ensures session.Idle()
    ensures var spec := ProposeDeal(old(session.db), user, vehicle, load, price, currency);
            && r == (if spec.Ok? then Ok(spec.value.1) else Raised(spec.code))
            && session.db == (if spec.Ok? then spec.value.0 else old(session.db))
    ensures !MayPropose(old(session.db), user, vehicle, load) ==>
              r.Raised? && r.code in {400, 403, 404} && session.db == old(session.db)
    ensures MayPropose(old(session.db), user, vehicle, load) ==>
              var end := if r.Ok? then Ok((session.db, r.value)) else Raised(r.code);
              && ProposalEnds(old(session.db), end, vehicle, load, price, currency)
              && (r.Raised? ==> session.db == old(session.db))
  {
    ProposeOutcome(session.db, user, vehicle, load, price, currency);
    hide ProposalEnds, MayPropose;
    if user.role != ShipperRole && user.role != ForwarderRole && user.role != AdminRole {
      return Raised(403);
    }
    if !HasVehicle(session.tx, vehicle) || session.tx.vehicles[vehicle].value.status != Available {
      return Raised(404);
    }
    if load >= |session.tx.loads| {
      return Raised(404);
    }
    if session.tx.loads[load].postedBy != Some(user.id) && user.role != AdminRole {
      return Raised(403);
    }
    if session.tx.loads[load].status != New && session.tx.loads[load].status != Matched {
      return Raised(400);
    }
    var existing := FindDeal(session.tx.deals, load, vehicle);
    if existing.Some? {
      return Ok(existing.value);
    }
    r := BookProposal(session, vehicle, load, price, currency);
  }

  /** The writing half of the proposal, for a pair without a deal. */
  method BookProposal(session: Session, vehicle: nat, load: nat, price: int, currency: string) returns (r: Result<nat>)
    requires session.Idle()
    requires HasVehicle(session.db, vehicle) && load < |session.db.loads|
    modifies session
    ensures session.Idle()
    ensures r == (if CanBook(old(session.db), vehicle, load) then Ok(|old(session.db).deals|) else Raised(500))
    ensures session.db == (if r.Ok? then Booking(old(session.db), vehicle, load, price, currency) else old(session.db))
  {
    var pairing := MatchRow(Match(load, vehicle, Promoted, 80, None, None));
    FlushOne(session.tx, pairing);
    session.Add(pairing);
    var flushed := session.Flush();
    if !flushed {
      return Raised(500);
    }
    var deal := DealRow(load, vehicle, session.tx.vehicles[vehicle].value.carrier, price, Upper(currency));
    session.Add(deal);
    session.tx := SetVehicleStatus(session.tx, vehicle, VehicleBooked);
    session.tx := SetLoadStatus(session.tx, load, Booked);
    FlushOne(session.tx, deal);
    var ok := session.Commit();
    return if ok then Ok(|session.db.deals| - 1) else Raised(500);
  }

  method FleetNewSubmit(
      session: Session, user: User, plate: string, bodyType: string, capacity: int, device: Option<nat>)
    returns (r: Result<()>)
    requires session.Idle()
    modifies session
    ensures session.Idle()
    ensures var spec := RegisterVehicle(old(session.db), user, plate, bodyType, capacity, device);
            Completes(old(session.db), session.db, r, spec)
    ensures r.Ok? <==> IsManager(user) && user.company != None && Strip(plate) != ""
    ensures r.Ok? ==> Registered(old(session.db), session.db, user, plate, bodyType, capacity, device)
    ensures r.Raised? ==> session.db == old(session.db)
  {
    RegisterOutcome(session.db, user, plate, bodyType, capacity, device);
    hide Registered, IsManager;
    if !MayManageFleet(user) {
      return Raised(403);
    }
    if user.company.None? {
      return Raised(302);
    }
    var number := Upper(Strip(plate));
    if number == "" {
      return Raised(422);
    }
    var row := Vehicle("platform", None, Available, None, user.company, NO_PLACE, NO_PLACE,
                       Some(bodyType), Some(capacity), None, map["plate" := number]);
    FlushOne(session.tx, VehicleRow(row));
    session.Add(VehicleRow(row));
    var flushed := session.Flush();
    var id := |session.tx.vehicles| - 1;
    if device.Some? {
      session.tx := session.tx.(vehicles := session.tx.vehicles[id := Some(row.(device := device))]);
    }
    r := CommitOrRaise(session);
  }

  method FleetEditSubmit(
      session: Session, user: User, v: nat, plate: string, bodyType: string, capacity: int, status: VehicleStatus)
    returns (r: Result<()>)
    requires session.Idle()
    modifies session
    ensures session.Idle()
    ensures var spec := EditVehicle(old(session.db), user, v, plate, bodyType, capacity, status);
            Completes(old(session.db), session.db, r, spec)
    ensures r.Ok? <==> IsManager(user) && IsInTheirFleet(old(session.db), user, v) && Strip(plate) != ""
    ensures r.Ok? ==> HasVehicle(session.db, v) && OnlyVehicle(old(session.db), session.db, v)
    ensures r.Ok? ==> var a, b := old(session.db).vehicles[v].value, session.db.vehicles[v].value;
              && b.bodyType == Some(bodyType) && b.capacity == Some(capacity) && b.status == status
              && b.source == a.source && b.externalId == a.externalId && b.carrier == a.carrier
              && b.company == a.company && b.device == a.device
              && b.origin == a.origin && b.destination == a.destination
              && "plate" in b.payload && b.payload["plate"] == Upper(Strip(plate))
              && b.payload - {"plate"} == a.payload - {"plate"}
    ensures r.Raised? ==> session.db == old(session.db) && r.code in {403, 404, 422}
  {
    FleetMeans(session.db, user, v);
    if !MayManageFleet(user) {
      return Raised(403);
    }
    if !InFleet(session.tx, user, v) {
      return Raised(404);
    }
    var number := Upper(Strip(plate));
    if number == "" {
      return Raised(422);
    }
    var row := session.tx.vehicles[v].value;
    row := row.(bodyType := Some(bodyType), capacity := Some(capacity), status := status);
    row := row.(payload := row.payload["plate" := number]);
    session.tx := session.tx.(vehicles := session.tx.vehicles[v := Some(row)]);
    r := CommitOrRaise(session);
  }

  method FleetLinkTraccar(session: Session, user: User, v: nat, server: TrackingServer) returns (r: Result<()>)
    requires session.Idle()
    modifies session
    ensures session.Idle() && Completes(old(session.db), session.db, r, LinkDevice(old(session.db), user, v, server))
    ensures r.Ok? <==>
              IsManager(user) && IsInTheirFleet(old(session.db), user, v) && user.company.Some? && server.Assigns?
    ensures r.Ok? ==> HasVehicle(session.db, v) && OnlyVehicle(old(session.db), session.db, v)
    ensures r.Ok? ==> var a, b := old(session.db).vehicles[v].value, session.db.vehicles[v].value;
              IsLinked(session.db, v, server.device) && b == a.(device := Some(server.device))
    ensures r.Raised? ==> session.db == old(session.db) && r.code in {403, 404, 500, 503}
                          && (r.code == 503 ==> server.NotConfigured?)
  {
    FleetMeans(session.db, user, v);
    if !MayManageFleet(user) {
      return Raised(403);
    }
    if !InFleet(session.tx, user, v) {
      return Raised(404);
    }
    if server.NotConfigured? {
      return Raised(503);
    }
    if user.company.None? || server.Refuses? {
      return Raised(500);
    }
    var row := session.tx.vehicles[v].value.(device := Some(server.device));
    session.tx := session.tx.(vehicles := session.tx.vehicles[v := Some(row)]);
    r := CommitOrRaise(session);
  }

  /** The handler only marks the row. Whether it may go is up to the foreign keys,
      when the commit flushes the deletion. */
  method FleetDeleteVehicle(session: Session, user: User, v: nat) returns (r: Result<()>)
    requires session.Idle()
    modifies session
    ensures session.Idle() && Completes(old(session.db), session.db, r, DeleteVehicle(old(session.db), user, v))
    ensures r.Ok? <==> IsManager(user) && IsInTheirFleet(old(session.db), user, v) && !Referenced(old(session.db), v)
    ensures r.Ok? ==> OnlyVehicle(old(session.db), session.db, v) && !HasVehicle(session.db, v)
    ensures r.Raised? ==> session.db == old(session.db) && (r.code == 500 ==> Referenced(session.db, v))
  {
    FleetMeans(session.db, user, v);
    if !MayManageFleet(user) {
      return Raised(403);
    }
    if !InFleet(session.tx, user, v) {
      return Raised(404);
    }
    FlushOne(session.tx, VehicleDeletion(v));
    DeletionAdmitted(session.tx, v);
    session.Delete(v);
    r := CommitOrRaise(session);
  }

  lemma DeletionAdmitted(db: Db, v: nat)
    requires HasVehicle(db, v)
    ensures Admits(db, VehicleDeletion(v)) <==> !Referenced(db, v)
  {
  }

  // ---------- what a handler may touch ----------

  /** Nothing but this load differs, and it is `row` now. */
  ghost predicate OnlyLoad(before: Db, after: Db, l: nat, row: Load)
    requires l < |before.loads|
  {
    after == before.(loads := before.loads[l := row])
  }

  /** Nothing but this match differs, and it is `row` now. */
  ghost predicate OnlyMatch(before: Db, after: Db, m: nat, row: Match)
    requires m < |before.matches|
  {
    after == before.(matches := before.matches[m := row])
  }

  /** Nothing but this vehicle differs. */
  ghost predicate OnlyVehicle(before: Db, after: Db, v: nat) {
    && after == before.(vehicles := after.vehicles) && |after.vehicles| == |before.vehicles|
    && forall w | 0 <= w < |before.vehicles| && w != v :: after.vehicles[w] == before.vehicles[w]
  }

  /** The handler answers as specified and leaves the database as specified. */
  ghost predicate Completes(before: Db, after: Db, r: Result<()>, spec: Result<Db>) {
    && after == Settle(before, spec)
    && (spec.Ok? ==> r == Ok(()))
    && (spec.Raised? ==> r == Raised(spec.code))
  }

  method CommitOrRaise(session: Session) returns (r: Result<()>)
    modifies session
    ensures session.Idle()
    ensures r == if FlushRows(old(session.tx), old(session.pending)).Some? then Ok(()) else Raised(500)
    ensures session.db == if r.Ok? then FlushRows(old(session.tx), old(session.pending)).value else old(session.db)
  {
    var ok := session.Commit();
    return if ok then Ok(()) else Raised(500);
  }
}
