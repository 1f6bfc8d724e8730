/** The rows of the brokerage tables, the database as one value, and the queries
    the services run on it. An id is the position of the row in its table; a
    deleted vehicle leaves a hole, so its id is never handed out again. */
module Tables {
  import opened Wrappers

  // ---------- enums ----------

  datatype LoadStatus = New | Matched | Negotiating | Booked | Cancelled | Expired
  datatype VehicleStatus = Available | Reserved | VehicleBooked | VehicleExpired | OtherStatus(text: string)
  datatype MatchStatus = Proposed | Reviewed | Rejected | Promoted
  datatype DealStatus = DealBooked | Loaded | InTransit | Delivered | Invoiced | Paid | DealCancelled
  datatype Role = ShipperRole | CarrierRole | ForwarderRole | AdminRole
  datatype Verdict = Good | Bad | Unclear | InvalidVerdict

  /** The authenticated user of a request. */
  datatype User = User(id: nat, role: Role, company: Option<nat>)

  // ---------- rows ----------

  /** One end of a route; coordinates in millionths of a degree. */
  datatype Place = Place(country: Option<string>, city: Option<string>, lat: Option<int>, lon: Option<int>)

  type Payload = map<string, string>

  datatype Load = Load(
    source: string, externalId: Option<string>, status: LoadStatus,
    origin: Place, destination: Place,
    weight: Option<int>, bodyTypes: Option<seq<string>>,
    price: Option<int>, currency: Option<string>,
    postedBy: Option<nat>, details: string, payload: Payload)

  datatype Vehicle = Vehicle(
    source: string, externalId: Option<string>, status: VehicleStatus,
    carrier: Option<nat>, company: Option<nat>,
    origin: Place, destination: Place, bodyType: Option<string>, capacity: Option<int>,
    device: Option<nat>, payload: Payload)

  datatype Carrier = Carrier(name: string, phone: string, lardiUser: nat)

  datatype Match = Match(
    load: nat, vehicle: nat, status: MatchStatus, score: int,
    suggestedPrice: Option<int>, suggestedCurrency: Option<string>)

  datatype Deal = Deal(load: nat, vehicle: nat, carrier: nat, price: int, currency: string, status: DealStatus)

  datatype SampleSource = FromLardi(externalId: string) | FromDeal(deal: nat)

  datatype PriceSample = PriceSample(
    source: SampleSource,
    fromCountry: Option<string>, fromCity: Option<string>,
    toCountry: Option<string>, toCity: Option<string>,
    price: int, currency: string, weight: Option<int>, bodyType: Option<string>, collectedAt: int)

  datatype Position = Position(vehicle: nat, lat: int, lon: int, device: nat, recordedAt: int)

  datatype Db = Db(
    loads: seq<Load>,
    vehicles: seq<Option<Vehicle>>,
    carriers: seq<Carrier>,
    matches: seq<Match>,
    deals: seq<Deal>,
    samples: seq<PriceSample>,
    feedback: map<(nat, nat), Verdict>,
    positions: seq<Position>)

  const EMPTY := Db([], [], [], [], [], [], map[], [])

  // ---------- queries ----------

  predicate HasVehicle(db: Db, v: nat) {
    v < |db.vehicles| && db.vehicles[v].Some?
  }

  /** `session.scalar(select(...).where(p))`: the first row with property p. */
  function First<T>(rows: seq<T>, p: T -> bool): (r: Option<nat>)
    ensures r.Some? ==> r.value < |rows| && p(rows[r.value]) && forall i | 0 <= i < r.value :: !p(rows[i])
    ensures r.None? ==> forall i | 0 <= i < |rows| :: !p(rows[i])
  {
    if rows == [] then None
    else if p(rows[0]) then Some(0)
    else
      var r := First(rows[1..], p);
      assert forall i | 1 <= i < |rows| :: rows[i] == rows[1..][i - 1];
      if r.Some? then Some(r.value + 1) else None
  }

  predicate IsLoadKey(l: Load, source: string, externalId: string) {
    l.source == source && l.externalId == Some(externalId)
  }

  function FindLoad(loads: seq<Load>, source: string, externalId: string): (r: Option<nat>)
    ensures r.Some? ==> r.value < |loads| && IsLoadKey(loads[r.value], source, externalId)
                        && forall i | 0 <= i < r.value :: !IsLoadKey(loads[i], source, externalId)
    ensures r.None? ==> forall i | 0 <= i < |loads| :: !IsLoadKey(loads[i], source, externalId)
  {
    First(loads, (l: Load) => IsLoadKey(l, source, externalId))
  }

  predicate IsVehicleKey(v: Option<Vehicle>, source: string, externalId: string) {
    v.Some? && v.value.source == source && v.value.externalId == Some(externalId)
  }

  function FindVehicle(vehicles: seq<Option<Vehicle>>, source: string, externalId: string): (r: Option<nat>)
    ensures r.Some? ==> r.value < |vehicles| && IsVehicleKey(vehicles[r.value], source, externalId)
                        && forall i | 0 <= i < r.value :: !IsVehicleKey(vehicles[i], source, externalId)
    ensures r.None? ==> forall i | 0 <= i < |vehicles| :: !IsVehicleKey(vehicles[i], source, externalId)
  {
    First(vehicles, (v: Option<Vehicle>) => IsVehicleKey(v, source, externalId))
  }

  function FindCarrier(carriers: seq<Carrier>, lardiUser: nat): (r: Option<nat>)
    ensures r.Some? ==> r.value < |carriers| && carriers[r.value].lardiUser == lardiUser
                        && forall i | 0 <= i < r.value :: carriers[i].lardiUser != lardiUser
    ensures r.None? ==> forall i | 0 <= i < |carriers| :: carriers[i].lardiUser != lardiUser
  {
    First(carriers, (c: Carrier) => c.lardiUser == lardiUser)
  }

  predicate IsPair(m: Match, load: nat, vehicle: nat) {
    m.load == load && m.vehicle == vehicle
  }

  function FindMatch(matches: seq<Match>, load: nat, vehicle: nat): (r: Option<nat>)
    ensures r.Some? ==> r.value < |matches| && IsPair(matches[r.value], load, vehicle)
                        && forall i | 0 <= i < r.value :: !IsPair(matches[i], load, vehicle)
    ensures r.None? ==> forall i | 0 <= i < |matches| :: !IsPair(matches[i], load, vehicle)
  {
    First(matches, (m: Match) => IsPair(m, load, vehicle))
  }

  predicate IsDealOn(d: Deal, load: nat, vehicle: nat) {
    d.load == load && d.vehicle == vehicle
  }

  function FindDeal(deals: seq<Deal>, load: nat, vehicle: nat): (r: Option<nat>)
    ensures r.Some? ==> r.value < |deals| && IsDealOn(deals[r.value], load, vehicle)
    ensures r.None? ==> forall i | 0 <= i < |deals| :: !IsDealOn(deals[i], load, vehicle)
  {
    First(deals, (d: Deal) => IsDealOn(d, load, vehicle))
  }

  predicate IsFix(p: Position, vehicle: nat, recordedAt: int) {
    p.vehicle == vehicle && p.recordedAt == recordedAt
  }

  function FindPosition(positions: seq<Position>, vehicle: nat, recordedAt: int): (r: Option<nat>)
    ensures r.Some? ==> r.value < |positions| && IsFix(positions[r.value], vehicle, recordedAt)
    ensures r.None? ==> forall i | 0 <= i < |positions| :: !IsFix(positions[i], vehicle, recordedAt)
  {
    First(positions, (p: Position) => IsFix(p, vehicle, recordedAt))
  }

  /** Python truthiness of a nullable text. */
  predicate Truthy(s: Option<string>) {
    s.Some? && s.value != ""
  }

  /** `body_types[0] if body_types else None`. */
  function FirstBody(types: Option<seq<string>>): Option<string> {
    if types.Some? && types.value != [] then Some(types.value[0]) else None
  }
}
