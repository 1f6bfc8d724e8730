/** The requests of the platform as functions on the database, and the state
    machine they form: one atomic step per request, in any order. */
module Lifecycle {
  import opened Wrappers
  import opened Text
  import opened Ranking
  import opened Tables
  import opened Ingestion
  import opened Matcher
  import opened Gps
  import opened Pricing

  // ---------- platform loads ----------

  datatype Number = Blank | Unreadable | Readable(value: int)

  /** The posting form after parsing; `othersReadable` covers volume and dates. */
  datatype LoadForm = LoadForm(
    fromCountry: string, fromCity: string, toCountry: string, toCity: string,
    cargoName: string, notes: string, weight: Number, price: Number, othersReadable: bool,
    bodyTypes: seq<string>, currency: string)

  function Amount(n: Number): Option<int> {
    if n.Readable? then Some(n.value) else None
  }

  predicate FormOk(f: LoadForm) {
    && Strip(f.fromCountry) != "" && Strip(f.fromCity) != ""
    && Strip(f.toCountry) != "" && Strip(f.toCity) != ""
    && Strip(f.cargoName) != ""
    && !f.weight.Unreadable? && (f.weight.Readable? ==> f.weight.value > 0)
    && !f.price.Unreadable? && f.othersReadable
  }

  function PlatformLoad(user: User, f: LoadForm): Load {
    Load("platform", None, New,
         Place(Some(Upper(Strip(f.fromCountry))), Some(Strip(f.fromCity)), None, None),
         Place(Some(Upper(Strip(f.toCountry))), Some(Strip(f.toCity)), None, None),
         Amount(f.weight), if f.bodyTypes != [] then Some(f.bodyTypes) else None,
         Amount(f.price), Some(if Upper(Strip(f.currency)) != "" then Upper(Strip(f.currency)) else "UAH"),
         Some(user.id),
         Strip(f.cargoName) + (if Strip(f.notes) != "" then " \U{2014} " + Strip(f.notes) else ""), map[])
  }

  predicate MayPost(user: User) {
    user.role == ShipperRole || user.role == ForwarderRole || user.role == AdminRole
  }

  function PostLoad(db: Db, user: User, f: LoadForm): Result<Db> {
    if !MayPost(user) then Raised(403)
    else if !FormOk(f) then Raised(422)
    else Ok(db.(loads := db.loads + [PlatformLoad(user, f)]))
  }

  predicate OwnsLoad(user: User, l: Load) {
    l.postedBy == Some(user.id) || user.role == AdminRole
  }

  function CancelLoad(db: Db, user: User, load: nat): Result<Db> {
    if load >= |db.loads| then Raised(404)
    else if !OwnsLoad(user, db.loads[load]) then Raised(403)
    else if db.loads[load].status == Booked || db.loads[load].status == Cancelled then Raised(400)
    else Ok(SetLoadStatus(db, load, Cancelled))
  }

  // ---------- matches ----------

  function SetMatchStatus(db: Db, m: nat, status: MatchStatus): Db
    requires m < |db.matches|
  {
    db.(matches := db.matches[m := db.matches[m].(status := status)])
  }

  function RejectMatch(db: Db, m: nat): Result<Db> {
    if m >= |db.matches| then Raised(404) else Ok(SetMatchStatus(db, m, Rejected))
  }

  function RateMatch(db: Db, user: User, m: nat, verdict: Verdict): Result<Db> {
    if verdict == InvalidVerdict then Raised(400)
    else if m >= |db.matches| then Raised(404)
    else
      var rated := db.(feedback := db.feedback[(m, user.id) := verdict]);
      Ok(if db.matches[m].status == Proposed then SetMatchStatus(rated, m, Reviewed) else rated)
  }

  // ---------- deals ----------

  /** An administrator turns a match into a booked deal. */
  function PromoteMatch(db: Db, user: User, m: nat, price: int, currency: string): Result<Db> {
    if user.role != AdminRole then Raised(403)
    else if m >= |db.matches| then Raised(404)
    else
      var row := db.matches[m];
      if row.status == Rejected then Raised(400)
      else if !HasVehicle(db, row.vehicle) || db.vehicles[row.vehicle].value.carrier.None? then Raised(400)
      else
        var carrier := db.vehicles[row.vehicle].value.carrier.value;
        if row.load >= |db.loads| || carrier >= |db.carriers| then Raised(500)
        else
          Ok(SetLoadStatus(SetMatchStatus(db, m, Promoted), row.load, Booked)
             .(deals := db.deals + [Deal(row.load, row.vehicle, carrier, price, Upper(currency), DealBooked)]))
  }

  /** The database accepts the new match and the new deal. */
  predicate CanBook(db: Db, vehicle: nat, load: nat)
    requires HasVehicle(db, vehicle)
  {
    var carrier := db.vehicles[vehicle].value.carrier;
    FindMatch(db.matches, load, vehicle).None? && carrier.Some? && carrier.value < |db.carriers|
  }

  /** A promoted match, a booked deal, and both sides booked. */
  function Booking(db: Db, vehicle: nat, load: nat, price: int, currency: string): Db
    requires HasVehicle(db, vehicle) && load < |db.loads| && CanBook(db, vehicle, load)
  {
    var carrier := db.vehicles[vehicle].value.carrier.value;
    SetLoadStatus(SetVehicleStatus(db, vehicle, VehicleBooked), load, Booked)
    .(matches := db.matches + [Match(load, vehicle, Promoted, 80, None, None)],
      deals := db.deals + [Deal(load, vehicle, carrier, price, Upper(currency), DealBooked)])
  }

  /** A shipper proposes a deal on one of their loads. The result also names the
      deal the user is redirected to. */
  function ProposeDeal(db: Db, user: User, vehicle: nat, load: nat, price: int, currency: string): Result<(Db, nat)> {
    if !MayPost(user) then Raised(403)
    else if !HasVehicle(db, vehicle) || db.vehicles[vehicle].value.status != Available then Raised(404)
    else if load >= |db.loads| then Raised(404)
    else if !OwnsLoad(user, db.loads[load]) then Raised(403)
    else if db.loads[load].status != New && db.loads[load].status != Matched then Raised(400)
    else
      var existing := FindDeal(db.deals, load, vehicle);
      if existing.Some? then Ok((db, existing.value))
      else if !CanBook(db, vehicle, load) then Raised(500)
      else Ok((Booking(db, vehicle, load, price, currency), |db.deals|))
  }

  function CarrierNext(status: DealStatus): Option<DealStatus> {
    match status
    case DealBooked => Some(Loaded)
    case Loaded => Some(InTransit)
    case InTransit => Some(Delivered)
    case _ => None
  }

  function AdminNext(status: DealStatus): set<DealStatus> {
    match status
    case DealBooked => {Loaded, DealCancelled}
    case Loaded => {InTransit, DealCancelled}
    case InTransit => {Delivered, DealCancelled}
    case Delivered => {Invoiced}
    case Invoiced => {Paid}
    case Paid => {}
    case DealCancelled => {}
  }

  function DealSample(db: Db, d: nat, now: int): PriceSample
    requires d < |db.deals| && db.deals[d].load < |db.loads|
  {
    var l := db.loads[db.deals[d].load];
    PriceSample(FromDeal(d), l.origin.country, l.origin.city, l.destination.country, l.destination.city,
                db.deals[d].price, if db.deals[d].currency != "" then db.deals[d].currency else "UAH",
                l.weight, FirstBody(l.bodyTypes), now)
  }

  /** The new status, and on delivery at a non-zero price a sample. */
  function Advanced(db: Db, d: nat, status: DealStatus, now: int): Db
    requires d < |db.deals|
  {
    var advanced := db.(deals := db.deals[d := db.deals[d].(status := status)]);
    if status == Delivered && db.deals[d].price != 0 && db.deals[d].load < |db.loads|
    then advanced.(samples := db.samples + [DealSample(db, d, now)]) else advanced
  }

  function AdvanceDeal(db: Db, user: User, d: nat, status: DealStatus, now: int): Result<Db> {
    if d >= |db.deals| then Raised(404)
    else if user.role == AdminRole && status !in AdminNext(db.deals[d].status) then Raised(400)
    else if user.role == CarrierRole && Some(status) != CarrierNext(db.deals[d].status) then Raised(400)
    else if user.role != AdminRole && user.role != CarrierRole then Raised(403)
    else Ok(Advanced(db, d, status, now))
  }

  // ---------- the fleet ----------

  predicate MayManageFleet(user: User) {
    user.role == CarrierRole || user.role == AdminRole
  }

  const NO_PLACE := Place(None, None, None, None)

  /** `device` is the id the tracking server assigned, if registration there worked. */
  function RegisterVehicle(
      db: Db, user: User, plate: string, bodyType: string, capacity: int, device: Option<nat>): Result<Db>
  {
    if !MayManageFleet(user) then Raised(403)
    else if user.company.None? then Raised(302)
    else if Strip(plate) == "" then Raised(422)
    else
      Ok(db.(vehicles := db.vehicles + [Some(Vehicle(
        "platform", None, Available, None, user.company, NO_PLACE, NO_PLACE, Some(bodyType), Some(capacity),
        device, map["plate" := Upper(Strip(plate))]))]))
  }

  predicate InFleet(db: Db, user: User, v: nat) {
    HasVehicle(db, v) && db.vehicles[v].value.company == user.company
  }

  function SetVehicle(db: Db, v: nat, row: Vehicle): Db
    requires HasVehicle(db, v)
  {
    db.(vehicles := db.vehicles[v := Some(row)])
  }

  function SetVehicleStatus(db: Db, v: nat, status: VehicleStatus): Db
    requires HasVehicle(db, v)
  {
    SetVehicle(db, v, db.vehicles[v].value.(status := status))
  }

  function EditVehicle(
      db: Db, user: User, v: nat, plate: string, bodyType: string, capacity: int, status: VehicleStatus): Result<Db>
  {
    if !MayManageFleet(user) then Raised(403)
    else if !InFleet(db, user, v) then Raised(404)
    else if Strip(plate) == "" then Raised(422)
    else
      var row := db.vehicles[v].value;
      Ok(SetVehicle(db, v, row.(bodyType := Some(bodyType), capacity := Some(capacity), status := status,
                                payload := row.payload["plate" := Upper(Strip(plate))])))
  }

  /** What becomes of registering a device at the tracking server. */
  datatype TrackingServer = NotConfigured | Refuses | Assigns(device: nat)

  /** Linking needs a company account. */
  function LinkDevice(db: Db, user: User, v: nat, server: TrackingServer): Result<Db> {
    if !MayManageFleet(user) then Raised(403)
    else if !InFleet(db, user, v) then Raised(404)
    else if server.NotConfigured? then Raised(503)
    else if user.company.None? || server.Refuses? then Raised(500)
    else Ok(SetVehicle(db, v, db.vehicles[v].value.(device := Some(server.device))))
  }

  /** Matches, deals and positions hold foreign keys to the vehicle. */
  predicate Referenced(db: Db, v: nat) {
    || (exists i | 0 <= i < |db.matches| :: db.matches[i].vehicle == v)
    || (exists i | 0 <= i < |db.deals| :: db.deals[i].vehicle == v)
    || (exists i | 0 <= i < |db.positions| :: db.positions[i].vehicle == v)
  }

  function DeleteVehicle(db: Db, user: User, v: nat): Result<Db> {
    if !MayManageFleet(user) then Raised(403)
    else if !InFleet(db, user, v) then Raised(404)
    else if Referenced(db, v) then Raised(500)
    else Ok(db.(vehicles := db.vehicles[v := None]))
  }

  // ---------- tracking access ----------

  predicate Trackable(status: DealStatus) {
    status == Loaded || status == InTransit
  }

  predicate CanTrackDeal(db: Db, user: User, d: nat)
    requires d < |db.deals|
  {
    if user.role == AdminRole then true
    else if !Trackable(db.deals[d].status) then false
    else if user.role == ShipperRole || user.role == ForwarderRole then
      db.deals[d].load < |db.loads| && db.loads[db.deals[d].load].postedBy == Some(user.id)
    else user.role == CarrierRole
  }

  // ---------- the state machine ----------

  /** One request, with what the outside world answers to it. */
  datatype Step =
    | IngestLoads(loadBatch: seq<LoadProposal>, now: int)
    | IngestVehicles(vehicleBatch: seq<VehicleProposal>)
    | Post(user: User, form: LoadForm)
    | Cancel(user: User, load: nat)
    | RunMatcher(order: seq<nat>, replies: map<nat, seq<ScoredItem>>)
    | Reject(m: nat)
    | Rate(user: User, m: nat, verdict: Verdict)
    | RunPricing(now: int, suggestions: map<nat, Suggestion>)
    | Promote(user: User, m: nat, price: int, currency: string)
    | Propose(user: User, vehicle: nat, load: nat, price: int, currency: string)
    | Advance(user: User, deal: nat, dealStatus: DealStatus, now: int)
    | Register(user: User, plate: string, bodyType: string, capacity: int, device: Option<nat>)
    | Edit(user: User, vehicle: nat, plate: string, bodyType: string, capacity: int, vehicleStatus: VehicleStatus)
    | Link(user: User, vehicle: nat, server: TrackingServer)
    | Delete(user: User, vehicle: nat)
    | PollGps(query: seq<nat>, reply: seq<Fix>)

  /** The answer to "which loads are NEW", in whatever order it came. */
  ghost predicate ListsNewLoads(db: Db, order: seq<nat>) {
    && Distinct(order)
    && InTable(db, order)
    && forall l | 0 <= l < |db.loads| :: l in order <==> db.loads[l].status == New
  }

  /** A request that raises leaves the committed state as it was. */
  function Settle(db: Db, r: Result<Db>): Db {
    if r.Ok? then r.value else db
  }

  /** The committed state after a step. An `order` that is not an answer to the
      matcher's query describes no run of the matcher. */
  ghost function Apply(db: Db, step: Step): Db {
    match step
    case IngestLoads(batch, now) => if LoadBatchOk(db, batch) then UpsertLoads(db, batch, now) else db
    case IngestVehicles(batch) => if VehicleBatchOk(db, batch) then UpsertVehicles(db, batch) else db
    case Post(user, form) => Settle(db, PostLoad(db, user, form))
    case Cancel(user, load) => Settle(db, CancelLoad(db, user, load))
    case RunMatcher(order, replies) => if ListsNewLoads(db, order) then MatchAll(db, order, replies).0 else db
    case Reject(m) => Settle(db, RejectMatch(db, m))
    case Rate(user, m, verdict) => Settle(db, RateMatch(db, user, m, verdict))
    case RunPricing(now, suggestions) => PriceMatches(db, now, suggestions)
    case Promote(user, m, price, currency) => Settle(db, PromoteMatch(db, user, m, price, currency))
    case Propose(user, vehicle, load, price, currency) =>
      var r := ProposeDeal(db, user, vehicle, load, price, currency);
      if r.Ok? then r.value.0 else db
    case Advance(user, deal, status, now) => Settle(db, AdvanceDeal(db, user, deal, status, now))
    case Register(user, plate, bodyType, capacity, device) =>
      Settle(db, RegisterVehicle(db, user, plate, bodyType, capacity, device))
    case Edit(user, v, plate, bodyType, capacity, status) =>
      Settle(db, EditVehicle(db, user, v, plate, bodyType, capacity, status))
    case Link(user, v, server) => Settle(db, LinkDevice(db, user, v, server))
    case Delete(user, v) => Settle(db, DeleteVehicle(db, user, v))
    case PollGps(query, reply) => Poll(db, query, reply)
  }

  ghost function Run(db: Db, steps: seq<Step>): Db {
    if steps == [] then db else Apply(Run(db, steps[..|steps| - 1]), steps[|steps| - 1])
  }
}
