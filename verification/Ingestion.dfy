/** The ingestion service: batched upserts on (source, external_id) through a
    session that does not flush by itself. */
module Ingestion {
  import opened Wrappers
  import opened Text
  import opened Tables
  import opened UnitOfWork

  // ---------- proposals ----------

  datatype LoadProposal = LoadProposal(
    source: string, externalId: string, origin: Place, destination: Place,
    weight: Option<int>, bodyTypes: seq<string>, price: Option<int>, currency: Option<string>,
    details: string, payload: Payload)

  /** The exchange gives the carrier's id as a number, as text, or not at all. */
  datatype CarrierRef = NoRef | Number(number: int) | Written(text: string)

  datatype VehicleProposal = VehicleProposal(
    source: string, externalId: string, origin: Place, destination: Place,
    bodyType: Option<string>, capacity: Option<int>,
    carrierExternalId: CarrierRef, carrierName: Option<string>, carrierPhone: string, payload: Payload)

  function NewLoad(n: LoadProposal): Load {
    Load(n.source, Some(n.externalId), New, n.origin, n.destination, n.weight,
         if n.bodyTypes != [] then Some(n.bodyTypes) else None,
         n.price, n.currency, None, n.details, n.payload)
  }

  /** A non-zero price in a named currency is worth a price sample. */
  predicate IsPriced(price: Option<int>, currency: Option<string>) {
    price.Some? && price.value != 0 && Truthy(currency)
  }

  function SampleOf(n: LoadProposal, now: int): PriceSample
    requires IsPriced(n.price, n.currency)
  {
    PriceSample(FromLardi(n.externalId), n.origin.country, n.origin.city, n.destination.country, n.destination.city,
                n.price.value, n.currency.value, n.weight,
                if n.bodyTypes != [] then Some(n.bodyTypes[0]) else None, now)
  }

  /** The Lardi user id of the carrier, if the proposal names one in digits; the
      number zero is no id, the text "0" is one. */
  function CarrierKey(n: VehicleProposal): Option<nat> {
    match n.carrierExternalId
    case NoRef => None
    case Number(i) => if i > 0 then Some(i) else None
    case Written(text) => if IsDigits(text) then Some(ToNat(text)) else None
  }

  function NewCarrier(n: VehicleProposal, lardiUser: nat): Carrier {
    Carrier(if Truthy(n.carrierName) then n.carrierName.value else "Lardi user #" + Decimal(lardiUser),
            n.carrierPhone, lardiUser)
  }

  function NewVehicle(n: VehicleProposal, carrier: Option<nat>): Vehicle {
    Vehicle(n.source, Some(n.externalId), Available, carrier, None, n.origin, n.destination,
            n.bodyType, n.capacity, None, n.payload)
  }

  // ---------- the reference: one upsert after the other ----------

  function RefreshLoad(db: Db, i: nat, payload: Payload): Db
    requires i < |db.loads|
  {
    db.(loads := db.loads[i := db.loads[i].(payload := payload)])
  }

  function RefreshVehicle(db: Db, i: nat, payload: Payload): Db
    requires HasVehicle(db, i)
  {
    db.(vehicles := db.vehicles[i := Some(db.vehicles[i].value.(payload := payload))])
  }

  function UpsertLoad(db: Db, n: LoadProposal, now: int): Db {
    var existing := FindLoad(db.loads, n.source, n.externalId);
    if existing.Some? then RefreshLoad(db, existing.value, n.payload)
    else db.(loads := db.loads + [NewLoad(n)],
             samples := db.samples + if IsPriced(n.price, n.currency) then [SampleOf(n, now)] else [])
  }

  function UpsertLoads(db: Db, batch: seq<LoadProposal>, now: int): Db {
    if batch == [] then db
    else UpsertLoad(UpsertLoads(db, batch[..|batch| - 1], now), batch[|batch| - 1], now)
  }

  /** The proposal names a carrier that is not in the table yet. */
  predicate NeedsCarrier(db: Db, n: VehicleProposal) {
    CarrierKey(n).Some? && FindCarrier(db.carriers, CarrierKey(n).value).None?
  }

  function WithCarrier(db: Db, n: VehicleProposal): Db {
    if NeedsCarrier(db, n) then db.(carriers := db.carriers + [NewCarrier(n, CarrierKey(n).value)]) else db
  }

  function CarrierId(db: Db, n: VehicleProposal): Option<nat> {
    var key := CarrierKey(n);
    if key.Some? then FindCarrier(db.carriers, key.value) else None
  }

  function UpsertVehicle(db: Db, n: VehicleProposal): Db {
    var existing := FindVehicle(db.vehicles, n.source, n.externalId);
    if existing.Some? then RefreshVehicle(db, existing.value, n.payload)
    else
      var known := WithCarrier(db, n);
      known.(vehicles := known.vehicles + [Some(NewVehicle(n, CarrierId(known, n)))])
  }

  function UpsertVehicles(db: Db, batch: seq<VehicleProposal>): Db {
    if batch == [] then db
    else UpsertVehicle(UpsertVehicles(db, batch[..|batch| - 1]), batch[|batch| - 1])
  }

  // ---------- the columns of new rows ----------

  /** Every column of a new load but the payload comes from the proposal or is fixed. */
  ghost predicate LoadColumns(n: LoadProposal, l: Load) {
    && l.source == n.source && l.externalId == Some(n.externalId) && l.status == New
    && l.origin == n.origin && l.destination == n.destination && l.weight == n.weight
    && l.bodyTypes == (if |n.bodyTypes| == 0 then None else Some(n.bodyTypes))
    && l.price == n.price && l.currency == n.currency && l.postedBy == None && l.details == n.details
  }

  /** The proposal has a non-zero price in a named currency, and this is its sample. */
  ghost predicate SampleColumns(n: LoadProposal, s: PriceSample, now: int) {
    && n.price.Some? && n.price.value != 0 && n.currency.Some? && n.currency.value != ""
    && s.source == FromLardi(n.externalId)
    && s.fromCountry == n.origin.country && s.fromCity == n.origin.city
    && s.toCountry == n.destination.country && s.toCity == n.destination.city
    && s.price == n.price.value && s.currency == n.currency.value && s.weight == n.weight
    && s.bodyType == (if |n.bodyTypes| == 0 then None else Some(n.bodyTypes[0]))
    && s.collectedAt == now
  }

  /** The reference is to Lardi user `i`: a positive number, or a numeral. */
  ghost predicate Names(ref: CarrierRef, i: nat) {
    match ref
    case NoRef => false
    case Number(j) => 0 < j == i
    case Written(text) => Denotes(text, i)
  }

  ghost predicate IsCarrier(carriers: seq<Carrier>, carrier: Option<nat>, i: nat) {
    carrier.Some? && carrier.value < |carriers| && carriers[carrier.value].lardiUser == i
  }

  /** The carrier column is the carrier with the Lardi user id that is named, and
      empty if none is: without a reference, for a number that is not positive, and
      for a text with anything but digits. */
  ghost predicate CarrierColumn(ref: CarrierRef, carrier: Option<nat>, carriers: seq<Carrier>) {
    && (forall i: nat :: Names(ref, i) ==> IsCarrier(carriers, carrier, i))
    && (ref.NoRef? ==> carrier == None)
    && (ref.Number? && ref.number <= 0 ==> carrier == None)
    && (ref.Written? && (|ref.text| == 0 || exists c | c in ref.text :: !('0' <= c <= '9')) ==> carrier == None)
  }

  /** Every column of a new vehicle but the payload. */
  ghost predicate VehicleColumns(n: VehicleProposal, v: Vehicle, carriers: seq<Carrier>) {
    && v.source == n.source && v.externalId == Some(n.externalId) && v.status == Available
    && v.origin == n.origin && v.destination == n.destination
    && v.bodyType == n.bodyType && v.capacity == n.capacity
    && v.company == None && v.device == None
    && CarrierColumn(n.carrierExternalId, v.carrier, carriers)
  }

  /** A new carrier has the named id, the proposal's phone, and its name or a name
      made from the id. */
  ghost predicate CarrierColumns(n: VehicleProposal, c: Carrier) {
    && Names(n.carrierExternalId, c.lardiUser) && c.phone == n.carrierPhone
    && (n.carrierName.Some? && n.carrierName.value != "" ==> c.name == n.carrierName.value)
    && (n.carrierName == None || n.carrierName == Some("") ==> c.name == "Lardi user #" + Decimal(c.lardiUser))
  }

  lemma CarrierKeyMeans(n: VehicleProposal)
    ensures forall i: nat :: CarrierKey(n) == Some(i) <==> Names(n.carrierExternalId, i)
  {
    forall i: nat ensures CarrierKey(n) == Some(i) <==> Names(n.carrierExternalId, i) {
      if n.carrierExternalId.Written? {
        DigitsDenote(n.carrierExternalId.text, i);
      }
    }
  }

  /** A carrier found by the key fills the column as it should be filled. */
  lemma CarrierColumnFilled(n: VehicleProposal, carriers: seq<Carrier>, carrier: Option<nat>)
    requires carrier == if CarrierKey(n).Some? then FindCarrier(carriers, CarrierKey(n).value) else None
    requires CarrierKey(n).Some? ==> carrier.Some?
    ensures CarrierColumn(n.carrierExternalId, carrier, carriers)
  {
    CarrierKeyMeans(n);
    if n.carrierExternalId.Written? {
      var text := n.carrierExternalId.text;
      if c :| c in text && !('0' <= c <= '9') {
        var i :| 0 <= i < |text| && text[i] == c;
        assert !IsDigit(text[i]);
      }
    }
    hide FindCarrier, Names;
  }

  lemma NewVehicleColumns(n: VehicleProposal, carrier: Option<nat>, carriers: seq<Carrier>)
    requires CarrierColumn(n.carrierExternalId, carrier, carriers)
    ensures VehicleColumns(n, NewVehicle(n, carrier), carriers)
  {
    hide CarrierColumn;
  }

  lemma NewCarrierColumns(n: VehicleProposal)
    requires CarrierKey(n).Some?
    ensures CarrierColumns(n, NewCarrier(n, CarrierKey(n).value))
  {
    CarrierKeyMeans(n);
    hide Names, CarrierKey;
  }

  lemma ColumnsKept(n: VehicleProposal, v: Vehicle, carriers: seq<Carrier>, more: seq<Carrier>)
    requires VehicleColumns(n, v, carriers) && carriers <= more
    ensures VehicleColumns(n, v, more)
  {
    hide Names;
    forall i: nat | Names(n.carrierExternalId, i) ensures IsCarrier(more, v.carrier, i) {
      assert IsCarrier(carriers, v.carrier, i);
    }
  }

  // ---------- when a batch commits ----------

  predicate SameLoadKey(a: LoadProposal, b: LoadProposal) {
    a.source == b.source && a.externalId == b.externalId
  }

  /** No key that is new to the database occurs twice in the batch. */
  ghost predicate LoadBatchOk(db: Db, batch: seq<LoadProposal>) {
    forall i, j | 0 <= i < j < |batch| && SameLoadKey(batch[i], batch[j]) ::
      FindLoad(db.loads, batch[i].source, batch[i].externalId).Some?
  }

  predicate SameVehicleKey(a: VehicleProposal, b: VehicleProposal) {
    a.source == b.source && a.externalId == b.externalId
  }

  /** The k-th proposal is the first in the batch with its key, and the key is
      new to the database. */
  ghost predicate FirstNew(db: Db, batch: seq<VehicleProposal>, k: nat)
    requires k < |batch|
  {
    && FindVehicle(db.vehicles, batch[k].source, batch[k].externalId).None?
    && forall i | 0 <= i < k :: !SameVehicleKey(batch[i], batch[k])
  }

  ghost predicate KnownCarrier(db: Db, batch: seq<VehicleProposal>, k: nat, lardiUser: nat)
    requires k <= |batch|
  {
    || FindCarrier(db.carriers, lardiUser).Some?
    || exists i | 0 <= i < k :: FirstNew(db, batch, i) && CarrierKey(batch[i]) == Some(lardiUser)
  }

  /** The k-th proposal brings a carrier seen for the first time, which makes the
      service flush in the middle of the batch. */
  ghost predicate Creates(db: Db, batch: seq<VehicleProposal>, k: nat)
    requires k < |batch|
  {
    && FirstNew(db, batch, k)
    && CarrierKey(batch[k]).Some?
    && !KnownCarrier(db, batch, k, CarrierKey(batch[k]).value)
  }

  ghost predicate CreatesBetween(db: Db, batch: seq<VehicleProposal>, i: nat, j: nat)
    requires j <= |batch|
  {
    exists k | i < k < j :: Creates(db, batch, k)
  }

  /** A repeated new key is harmless exactly when a flush makes the first row
      visible in time: some proposal strictly between the two brings a new
      carrier. (A new carrier of the second proposal itself comes too late.) */
  ghost predicate VehicleBatchOk(db: Db, batch: seq<VehicleProposal>) {
    forall i, j | 0 <= i < j < |batch| && FirstNew(db, batch, i) && SameVehicleKey(batch[i], batch[j]) ::
      CreatesBetween(db, batch, i, j)
  }

  // ---------- what the session holds while a batch is staged ----------

  datatype Staged = Staged(tx: Db, pending: seq<Row>)

  function StageLoad(s: Staged, n: LoadProposal, now: int): Staged {
    var existing := FindLoad(s.tx.loads, n.source, n.externalId);
    if existing.Some? then Staged(RefreshLoad(s.tx, existing.value, n.payload), s.pending)
    else Staged(s.tx, s.pending + [LoadRow(NewLoad(n))]
                                + if IsPriced(n.price, n.currency) then [SampleRow(SampleOf(n, now))] else [])
  }

  /** None when the mid-batch flush fails. */
  function StageVehicle(s: Staged, n: VehicleProposal): Option<Staged> {
    var existing := FindVehicle(s.tx.vehicles, n.source, n.externalId);
    if existing.Some? then Some(Staged(RefreshVehicle(s.tx, existing.value, n.payload), s.pending))
    else if !NeedsCarrier(s.tx, n) then
      Some(Staged(s.tx, s.pending + [VehicleRow(NewVehicle(n, CarrierId(s.tx, n)))]))
    else
      var flushed := FlushRows(s.tx, s.pending + [CarrierRow(NewCarrier(n, CarrierKey(n).value))]);
      if flushed.None? then None
      else Some(Staged(flushed.value, [VehicleRow(NewVehicle(n, CarrierId(flushed.value, n)))]))
  }

  ghost predicate LoadsStaged(db: Db, batch: seq<LoadProposal>, now: int, s: Staged) {
    && FlushRows(s.tx, s.pending) == (if LoadBatchOk(db, batch) then Some(UpsertLoads(db, batch, now)) else None)
    && LoadKeysKept(db, s.tx)
  }

  /** The transaction shows exactly the keys of the database, in the same places. */
  ghost predicate LoadKeysKept(db: Db, tx: Db) {
    && |tx.loads| == |db.loads|
    && forall i | 0 <= i < |db.loads| ::
         tx.loads[i].source == db.loads[i].source && tx.loads[i].externalId == db.loads[i].externalId
  }

  lemma RefreshLoadAdmits(u: Db, i: nat, payload: Payload, row: Row)
    requires i < |u.loads|
    ensures Admits(RefreshLoad(u, i, payload), row) <==> Admits(u, row)
  {
    var v := RefreshLoad(u, i, payload);
    assert forall k, s, e | 0 <= k < |u.loads| :: IsLoadKey(v.loads[k], s, e) <==> IsLoadKey(u.loads[k], s, e);
  }

  lemma {:induction false} RefreshLoadCommutes(t: Db, rows: seq<Row>, i: nat, payload: Payload)
    requires i < |t.loads|
    ensures FlushRows(t, rows).Some? ==> i < |FlushRows(t, rows).value.loads|
    ensures FlushRows(RefreshLoad(t, i, payload), rows) ==
            (var u := FlushRows(t, rows); if u.Some? then Some(RefreshLoad(u.value, i, payload)) else None)
  {
    if rows != [] {
      RefreshLoadCommutes(t, rows[..|rows| - 1], i, payload);
      var before := FlushRows(t, rows[..|rows| - 1]);
      var row := rows[|rows| - 1];
      if before.Some? {
        var u := before.value;
        var v := RefreshLoad(u, i, payload);
        RefreshLoadAdmits(u, i, payload, row);
        if Admits(u, row) {
          assert WriteRow(v, row).loads == RefreshLoad(WriteRow(u, row), i, payload).loads;
        }
      }
    }
  }

  predicate HasLoadKey(n: LoadProposal, source: string, externalId: string) {
    n.source == source && n.externalId == externalId
  }

  lemma UpsertLoadFinds(db: Db, n: LoadProposal, now: int, source: string, externalId: string)
    ensures var before, after := FindLoad(db.loads, source, externalId),
                                 FindLoad(UpsertLoad(db, n, now).loads, source, externalId);
            && (before.Some? ==> after == before)
            && (before.None? ==> (after.Some? <==> HasLoadKey(n, source, externalId)))
  {
    var u := UpsertLoad(db, n, now);
    assert forall i | 0 <= i < |db.loads| ::
        IsLoadKey(u.loads[i], source, externalId) <==> IsLoadKey(db.loads[i], source, externalId);
    if FindLoad(db.loads, n.source, n.externalId).None? {
      assert u.loads[|db.loads|] == NewLoad(n);
    }
  }

  /** After a sequence of upserts a key is present if it was, or if a proposal has it. */
  lemma {:induction false} UpsertLoadsFinds(
      db: Db, batch: seq<LoadProposal>, now: int, source: string, externalId: string)
    ensures var before, after := FindLoad(db.loads, source, externalId),
                                 FindLoad(UpsertLoads(db, batch, now).loads, source, externalId);
            && (before.Some? ==> after == before)
            && (before.None? ==>
                  (after.Some? <==> exists k | 0 <= k < |batch| :: HasLoadKey(batch[k], source, externalId)))
  {
    if batch != [] {
      var front, n := batch[..|batch| - 1], batch[|batch| - 1];
      UpsertLoadsFinds(db, front, now, source, externalId);
      UpsertLoadFinds(UpsertLoads(db, front, now), n, now, source, externalId);
      assert forall k | 0 <= k < |front| :: front[k] == batch[k];
    }
  }

  lemma LoadBatchOneMore(db: Db, batch: seq<LoadProposal>, n: LoadProposal)
    ensures LoadBatchOk(db, batch + [n]) <==>
            && LoadBatchOk(db, batch)
            && (|| FindLoad(db.loads, n.source, n.externalId).Some?
                || forall i | 0 <= i < |batch| :: !HasLoadKey(batch[i], n.source, n.externalId))
  {
    var all := batch + [n];
    assert all[|batch|] == n;
    assert forall i | 0 <= i < |batch| :: all[i] == batch[i];
    if LoadBatchOk(db, all) {
      forall i, j | 0 <= i < j < |batch| && SameLoadKey(batch[i], batch[j])
        ensures FindLoad(db.loads, batch[i].source, batch[i].externalId).Some?
      {
        assert SameLoadKey(all[i], all[j]);
      }
      if i :| 0 <= i < |batch| && HasLoadKey(batch[i], n.source, n.externalId) {
        assert SameLoadKey(all[i], all[|batch|]);
      }
    }
  }

  lemma KeysKeptFinds(db: Db, tx: Db, source: string, externalId: string)
    requires LoadKeysKept(db, tx)
    ensures FindLoad(tx.loads, source, externalId) == FindLoad(db.loads, source, externalId)
  {
    assert forall i | 0 <= i < |db.loads| ::
        IsLoadKey(tx.loads[i], source, externalId) <==> IsLoadKey(db.loads[i], source, externalId);
  }

  lemma StageKnownLoad(db: Db, batch: seq<LoadProposal>, now: int, s: Staged, n: LoadProposal)
    requires LoadsStaged(db, batch, now, s) && FindLoad(s.tx.loads, n.source, n.externalId).Some?
    ensures LoadsStaged(db, batch + [n], now, StageLoad(s, n, now))
  {
    var all := batch + [n];
    assert all[..|all| - 1] == batch && all[|all| - 1] == n;
    LoadBatchOneMore(db, batch, n);
    UpsertLoadsFinds(db, batch, now, n.source, n.externalId);
    KeysKeptFinds(db, s.tx, n.source, n.externalId);
    RefreshLoadCommutes(s.tx, s.pending, FindLoad(s.tx.loads, n.source, n.externalId).value, n.payload);
  }

  /** The rows of a new load, flushed after what is pending. */
  lemma FlushNewLoad(s: Staged, n: LoadProposal, now: int)
    requires FindLoad(s.tx.loads, n.source, n.externalId).None?
    ensures var before, after := FlushRows(s.tx, s.pending),
                                 FlushRows(StageLoad(s, n, now).tx, StageLoad(s, n, now).pending);
            after == if before.Some? && FindLoad(before.value.loads, n.source, n.externalId).None?
                     then Some(UpsertLoad(before.value, n, now)) else None
  {
    var rows := s.pending + [LoadRow(NewLoad(n))];
    FlushOneMore(s.tx, s.pending, LoadRow(NewLoad(n)));
    assert NewLoad(n).source == n.source && NewLoad(n).externalId == Some(n.externalId);
    hide NewLoad, SampleOf, FindLoad;
    if IsPriced(n.price, n.currency) {
      FlushOneMore(s.tx, rows, SampleRow(SampleOf(n, now)));
    } else {
      assert rows + [] == rows;
      if FlushRows(s.tx, s.pending).Some? {
        var samples := FlushRows(s.tx, s.pending).value.samples;
        assert samples + [] == samples;
      }
    }
  }

  lemma StageNewLoad(db: Db, batch: seq<LoadProposal>, now: int, s: Staged, n: LoadProposal)
    requires LoadsStaged(db, batch, now, s) && FindLoad(s.tx.loads, n.source, n.externalId).None?
    ensures LoadsStaged(db, batch + [n], now, StageLoad(s, n, now))
  {
    var all := batch + [n];
    assert all[..|all| - 1] == batch && all[|all| - 1] == n;
    LoadBatchOneMore(db, batch, n);
    UpsertLoadsFinds(db, batch, now, n.source, n.externalId);
    KeysKeptFinds(db, s.tx, n.source, n.externalId);
    FlushNewLoad(s, n, now);
  }

  lemma LoadCountStep(db: Db, batch: seq<LoadProposal>, now: int, s: Staged, n: LoadProposal)
    requires LoadKeysKept(db, s.tx) && LoadBatchOk(db, batch + [n])
    ensures |UpsertLoads(db, batch + [n], now).loads| - |UpsertLoads(db, batch, now).loads| ==
            if FindLoad(s.tx.loads, n.source, n.externalId).None? then 1 else 0
  {
    var all := batch + [n];
    assert all[..|all| - 1] == batch && all[|all| - 1] == n;
    LoadBatchOneMore(db, batch, n);
    UpsertLoadsFinds(db, batch, now, n.source, n.externalId);
    KeysKeptFinds(db, s.tx, n.source, n.externalId);
  }

  /** Staging one more proposal keeps the staged session in step with the
      reference. */
  lemma StageLoadStep(db: Db, batch: seq<LoadProposal>, now: int, s: Staged, n: LoadProposal)
    requires LoadsStaged(db, batch, now, s)
    ensures LoadsStaged(db, batch + [n], now, StageLoad(s, n, now))
    ensures LoadBatchOk(db, batch + [n]) ==>
              |UpsertLoads(db, batch + [n], now).loads| - |UpsertLoads(db, batch, now).loads| ==
              if FindLoad(s.tx.loads, n.source, n.externalId).None? then 1 else 0
  {
    if FindLoad(s.tx.loads, n.source, n.externalId).Some? {
      StageKnownLoad(db, batch, now, s, n);
    } else {
      StageNewLoad(db, batch, now, s, n);
    }
    if LoadBatchOk(db, batch + [n]) {
      LoadCountStep(db, batch, now, s, n);
    }
  }

  /** A row added by a batch of loads. */
  ghost predicate LoadAdded(batch: seq<LoadProposal>, l: Load) {
    exists k | 0 <= k < |batch| :: LoadColumns(batch[k], l)
  }

  ghost predicate SampleAdded(batch: seq<LoadProposal>, s: PriceSample, now: int) {
    exists k | 0 <= k < |batch| :: SampleColumns(batch[k], s, now)
  }

  /** What a batch of loads adds, column by column. */
  ghost predicate LoadsAdded(db: Db, batch: seq<LoadProposal>, now: int, after: Db) {
    && |db.loads| <= |after.loads| && db.samples <= after.samples
    && (forall i | |db.loads| <= i < |after.loads| :: LoadAdded(batch, after.loads[i]))
    && (forall i | |db.samples| <= i < |after.samples| :: SampleAdded(batch, after.samples[i], now))
  }

  lemma LoadAddedByMore(batch: seq<LoadProposal>, n: LoadProposal, l: Load)
    requires LoadAdded(batch, l) || LoadColumns(n, l)
    ensures LoadAdded(batch + [n], l)
  {
    hide LoadColumns;
    var all := batch + [n];
    assert all[|batch|] == n && forall k | 0 <= k < |batch| :: all[k] == batch[k];
  }

  lemma SampleAddedByMore(batch: seq<LoadProposal>, n: LoadProposal, s: PriceSample, now: int)
    requires SampleAdded(batch, s, now) || SampleColumns(n, s, now)
    ensures SampleAdded(batch + [n], s, now)
  {
    hide SampleColumns;
    var all := batch + [n];
    assert all[|batch|] == n && forall k | 0 <= k < |batch| :: all[k] == batch[k];
  }

  lemma UpsertLoadAdds(before: Db, n: LoadProposal, now: int)
    ensures var after := UpsertLoad(before, n, now);
            && |before.loads| <= |after.loads| && before.samples <= after.samples
            && (forall i | 0 <= i < |before.loads| ::
                  after.loads[i] == before.loads[i].(payload := after.loads[i].payload))
            && (forall i | |before.loads| <= i < |after.loads| :: LoadColumns(n, after.loads[i]))
            && (forall i | |before.samples| <= i < |after.samples| :: SampleColumns(n, after.samples[i], now))
  {
  }

  lemma ColumnsIgnorePayload(batch: seq<LoadProposal>, a: Load, b: Load)
    requires LoadAdded(batch, a) && b == a.(payload := b.payload)
    ensures LoadAdded(batch, b)
  {
    var k :| 0 <= k < |batch| && LoadColumns(batch[k], a);
    assert LoadColumns(batch[k], b);
  }

  /** Every load and every sample a batch adds has the columns of a proposal. */
  lemma {:induction false} LoadsAddedByBatch(db: Db, batch: seq<LoadProposal>, now: int)
    ensures LoadsAdded(db, batch, now, UpsertLoads(db, batch, now))
  {
    if batch != [] {
      var front, n := batch[..|batch| - 1], batch[|batch| - 1];
      assert front + [n] == batch;
      LoadsAddedByBatch(db, front, now);
      var before, after := UpsertLoads(db, front, now), UpsertLoads(db, batch, now);
      assert after == UpsertLoad(before, n, now);
      UpsertLoadAdds(before, n, now);
      hide UpsertLoad, UpsertLoads, LoadColumns, SampleColumns, LoadAdded, SampleAdded;
      forall i | |db.loads| <= i < |after.loads| ensures LoadAdded(batch, after.loads[i]) {
        if i < |before.loads| {
          ColumnsIgnorePayload(front, before.loads[i], after.loads[i]);
        }
        LoadAddedByMore(front, n, after.loads[i]);
      }
      forall i | |db.samples| <= i < |after.samples| ensures SampleAdded(batch, after.samples[i], now) {
        if i < |before.samples| {
          assert after.samples[i] == before.samples[i];
        }
        SampleAddedByMore(front, n, after.samples[i], now);
      }
    }
  }

  // ---------- the vehicle batch ----------

  predicate HasVehicleKey(n: VehicleProposal, source: string, externalId: string) {
    n.source == source && n.externalId == externalId
  }

  ghost predicate BatchHas(batch: seq<VehicleProposal>, source: string, externalId: string) {
    exists k | 0 <= k < |batch| :: HasVehicleKey(batch[k], source, externalId)
  }

  lemma BatchHasOneMore(batch: seq<VehicleProposal>, n: VehicleProposal, source: string, externalId: string)
    ensures BatchHas(batch + [n], source, externalId) <==>
            BatchHas(batch, source, externalId) || HasVehicleKey(n, source, externalId)
  {
    var all := batch + [n];
    assert all[|batch|] == n;
    if k :| 0 <= k < |batch| && HasVehicleKey(batch[k], source, externalId) {
      assert all[k] == batch[k];
    }
  }

  lemma UpsertVehicleFinds(db: Db, n: VehicleProposal, source: string, externalId: string)
    ensures var before, after := FindVehicle(db.vehicles, source, externalId),
                                 FindVehicle(UpsertVehicle(db, n).vehicles, source, externalId);
            && (before.Some? ==> after == before)
            && (before.None? ==> (after.Some? <==> HasVehicleKey(n, source, externalId)))
  {
    var u := UpsertVehicle(db, n);
    assert forall i | 0 <= i < |db.vehicles| ::
        IsVehicleKey(u.vehicles[i], source, externalId) <==> IsVehicleKey(db.vehicles[i], source, externalId);
    if FindVehicle(db.vehicles, n.source, n.externalId).None? {
      assert u.vehicles[|db.vehicles|].value.externalId == Some(n.externalId);
    }
  }

  lemma {:induction false} UpsertVehiclesFinds(db: Db, batch: seq<VehicleProposal>, source: string, externalId: string)
    ensures var before, after := FindVehicle(db.vehicles, source, externalId),
                                 FindVehicle(UpsertVehicles(db, batch).vehicles, source, externalId);
            && (before.Some? ==> after == before)
            && (before.None? ==> (after.Some? <==> BatchHas(batch, source, externalId)))
  {
    if batch != [] {
      var front, n := batch[..|batch| - 1], batch[|batch| - 1];
      assert front + [n] == batch;
      UpsertVehiclesFinds(db, front, source, externalId);
      UpsertVehicleFinds(UpsertVehicles(db, front), n, source, externalId);
      BatchHasOneMore(front, n, source, externalId);
      hide BatchHas, UpsertVehicle, HasVehicleKey;
    }
  }

  /** What the batch conditions say about a proposal depends only on what comes
      before it. */
  lemma PrefixStable(db: Db, batch: seq<VehicleProposal>, n: VehicleProposal)
    ensures forall k | 0 <= k < |batch| :: FirstNew(db, batch + [n], k) <==> FirstNew(db, batch, k)
    ensures forall k, c | 0 <= k <= |batch| :: KnownCarrier(db, batch + [n], k, c) <==> KnownCarrier(db, batch, k, c)
    ensures forall k | 0 <= k < |batch| :: Creates(db, batch + [n], k) <==> Creates(db, batch, k)
    ensures forall i, j | 0 <= i && 0 <= j <= |batch| ::
              CreatesBetween(db, batch + [n], i, j) <==> CreatesBetween(db, batch, i, j)
  {
    var all := batch + [n];
    assert forall k | 0 <= k < |batch| :: all[k] == batch[k];
    forall k | 0 <= k < |batch| ensures FirstNew(db, all, k) <==> FirstNew(db, batch, k) {
      if FirstNew(db, all, k) {
        forall i | 0 <= i < k ensures !SameVehicleKey(batch[i], batch[k]) {
          assert !SameVehicleKey(all[i], all[k]);
        }
      }
    }
    forall k, c: nat | 0 <= k <= |batch| ensures KnownCarrier(db, all, k, c) <==> KnownCarrier(db, batch, k, c) {
      if i :| 0 <= i < k && FirstNew(db, all, i) && CarrierKey(all[i]) == Some(c) {
        assert FirstNew(db, batch, i);
      }
      if i :| 0 <= i < k && FirstNew(db, batch, i) && CarrierKey(batch[i]) == Some(c) {
        assert FirstNew(db, all, i);
      }
    }
  }

  /** The last proposal is a first occurrence iff the upserts before it do not
      know its key. */
  lemma FirstNewAtEnd(db: Db, batch: seq<VehicleProposal>, n: VehicleProposal)
    ensures FirstNew(db, batch + [n], |batch|) <==>
            FindVehicle(UpsertVehicles(db, batch).vehicles, n.source, n.externalId).None?
  {
    var all := batch + [n];
    UpsertVehiclesFinds(db, batch, n.source, n.externalId);
    assert all[|batch|] == n;
    if k :| 0 <= k < |batch| && HasVehicleKey(batch[k], n.source, n.externalId) {
      assert SameVehicleKey(all[k], all[|batch|]);
    }
    if BatchHas(batch, n.source, n.externalId) {
    } else {
      forall i | 0 <= i < |batch| ensures !SameVehicleKey(all[i], all[|batch|]) {
        assert all[i] == batch[i];
        assert !HasVehicleKey(batch[i], n.source, n.externalId);
      }
    }
  }

  /** After the upserts the carriers are the known ones. */
  lemma {:induction false} UpsertVehiclesCarriers(db: Db, batch: seq<VehicleProposal>, c: nat)
    ensures FindCarrier(UpsertVehicles(db, batch).carriers, c).Some? <==> KnownCarrier(db, batch, |batch|, c)
  {
    if batch != [] {
      var front, n := batch[..|batch| - 1], batch[|batch| - 1];
      assert front + [n] == batch;
      UpsertVehiclesCarriers(db, front, c);
      PrefixStable(db, front, n);
      FirstNewAtEnd(db, front, n);
      var before, u := UpsertVehicles(db, front), UpsertVehicles(db, batch);
      WithCarrierFinds(before, n, c);
      assert KnownCarrier(db, batch, |front|, c) <==> KnownCarrier(db, front, |front|, c);
      assert KnownCarrier(db, batch, |batch|, c) <==>
             KnownCarrier(db, batch, |front|, c) || (FirstNew(db, batch, |front|) && CarrierKey(n) == Some(c));
    }
  }

  lemma WithCarrierFinds(db: Db, n: VehicleProposal, c: nat)
    ensures FindCarrier(WithCarrier(db, n).carriers, c).Some? <==>
            FindCarrier(db.carriers, c).Some? || CarrierKey(n) == Some(c)
  {
    var after := WithCarrier(db, n).carriers;
    var found := FindCarrier(db.carriers, c);
    if found.Some? {
      assert after[found.value].lardiUser == c;
    } else if NeedsCarrier(db, n) {
      assert after[|db.carriers|].lardiUser == CarrierKey(n).value;
    }
  }

  lemma {:induction false} FirstOccurrence(db: Db, batch: seq<VehicleProposal>, source: string, externalId: string)
    requires FindVehicle(db.vehicles, source, externalId).None?
    requires BatchHas(batch, source, externalId)
    ensures exists i | 0 <= i < |batch| :: FirstNew(db, batch, i) && HasVehicleKey(batch[i], source, externalId)
  {
    var front, n := batch[..|batch| - 1], batch[|batch| - 1];
    assert front + [n] == batch;
    BatchHasOneMore(front, n, source, externalId);
    PrefixStable(db, front, n);
    if BatchHas(front, source, externalId) {
      FirstOccurrence(db, front, source, externalId);
      var i :| 0 <= i < |front| && FirstNew(db, front, i) && HasVehicleKey(front[i], source, externalId);
      assert FirstNew(db, batch, i) && HasVehicleKey(batch[i], source, externalId);
    } else {
      FirstNewAtEnd(db, front, n);
      UpsertVehiclesFinds(db, front, n.source, n.externalId);
      assert FirstNew(db, batch, |front|) && HasVehicleKey(batch[|front|], source, externalId);
    }
  }

  lemma VehicleBatchOneMore(db: Db, batch: seq<VehicleProposal>, n: VehicleProposal)
    ensures VehicleBatchOk(db, batch + [n]) <==>
            && VehicleBatchOk(db, batch)
            && forall i | 0 <= i < |batch| && FirstNew(db, batch, i) && SameVehicleKey(batch[i], n) ::
                 CreatesBetween(db, batch, i, |batch|)
  {
    var all := batch + [n];
    assert all[|batch|] == n;
    assert forall i | 0 <= i < |batch| :: all[i] == batch[i];
    PrefixStable(db, batch, n);
    if VehicleBatchOk(db, all) {
      forall i, j | 0 <= i < j < |batch| && FirstNew(db, batch, i) && SameVehicleKey(batch[i], batch[j])
        ensures CreatesBetween(db, batch, i, j)
      {
        assert FirstNew(db, all, i) && SameVehicleKey(all[i], all[j]);
      }
      forall i | 0 <= i < |batch| && FirstNew(db, batch, i) && SameVehicleKey(batch[i], n)
        ensures CreatesBetween(db, batch, i, |batch|)
      {
        assert FirstNew(db, all, i) && SameVehicleKey(all[i], all[|batch|]);
      }
    }
  }

  /** A key of the batch is visible to queries iff the database had it or a
      carrier was created, hence flushed, after its first occurrence. */
  ghost predicate Visible(db: Db, batch: seq<VehicleProposal>, source: string, externalId: string) {
    || FindVehicle(db.vehicles, source, externalId).Some?
    || exists i | 0 <= i < |batch| ::
         FirstNew(db, batch, i) && HasVehicleKey(batch[i], source, externalId) && CreatesBetween(db, batch, i, |batch|)
  }

  ghost predicate ShowsVisible(db: Db, batch: seq<VehicleProposal>, tx: Db) {
    forall source, externalId ::
      FindVehicle(tx.vehicles, source, externalId).Some? <==> Visible(db, batch, source, externalId)
  }

  ghost predicate InStep(db: Db, batch: seq<VehicleProposal>, s: Staged) {
    && FlushRows(s.tx, s.pending) == Some(UpsertVehicles(db, batch))
    && s.tx.carriers == UpsertVehicles(db, batch).carriers
    && ShowsVisible(db, batch, s.tx)
  }

  ghost predicate VehiclesStaged(db: Db, batch: seq<VehicleProposal>, s: Option<Staged>) {
    (s.Some? ==> OnlyInserts(s.value.pending)) &&
    if VehicleBatchOk(db, batch) then s.Some? && InStep(db, batch, s.value)
    else s.None? || FlushRows(s.value.tx, s.value.pending).None?
  }

  lemma RefreshVehicleAdmits(u: Db, i: nat, payload: Payload, row: Row)
    requires HasVehicle(u, i) && !row.VehicleDeletion?
    ensures Admits(RefreshVehicle(u, i, payload), row) <==> Admits(u, row)
  {
    var v := RefreshVehicle(u, i, payload);
    assert forall k, s, e | 0 <= k < |u.vehicles| ::
        IsVehicleKey(v.vehicles[k], s, e) <==> IsVehicleKey(u.vehicles[k], s, e);
  }

  lemma RefreshVehicleFinds(t: Db, i: nat, payload: Payload, source: string, externalId: string)
    requires HasVehicle(t, i)
    ensures FindVehicle(RefreshVehicle(t, i, payload).vehicles, source, externalId) ==
            FindVehicle(t.vehicles, source, externalId)
  {
    var after := RefreshVehicle(t, i, payload);
    assert forall k | 0 <= k < |t.vehicles| ::
        IsVehicleKey(after.vehicles[k], source, externalId) <==> IsVehicleKey(t.vehicles[k], source, externalId);
  }

  lemma {:induction false} RefreshVehicleCommutes(t: Db, rows: seq<Row>, i: nat, payload: Payload)
    requires HasVehicle(t, i) && OnlyInserts(rows)
    ensures FlushRows(t, rows).Some? ==> HasVehicle(FlushRows(t, rows).value, i)
    ensures FlushRows(RefreshVehicle(t, i, payload), rows) ==
            (var u := FlushRows(t, rows); if u.Some? then Some(RefreshVehicle(u.value, i, payload)) else None)
  {
    if rows != [] {
      RefreshVehicleCommutes(t, rows[..|rows| - 1], i, payload);
      var before := FlushRows(t, rows[..|rows| - 1]);
      var row := rows[|rows| - 1];
      if before.Some? {
        var u := before.value;
        var v := RefreshVehicle(u, i, payload);
        RefreshVehicleAdmits(u, i, payload, row);
        if Admits(u, row) {
          assert WriteRow(v, row).vehicles == RefreshVehicle(WriteRow(u, row), i, payload).vehicles;
        }
      }
    }
  }

  /** Once a batch has gone wrong, staging more of it cannot save it. */
  lemma StageVehicleDoomed(s: Staged, n: VehicleProposal)
    requires OnlyInserts(s.pending)
    requires FlushRows(s.tx, s.pending).None?
    ensures StageVehicle(s, n).None? ||
            FlushRows(StageVehicle(s, n).value.tx, StageVehicle(s, n).value.pending).None?
  {
    var existing := FindVehicle(s.tx.vehicles, n.source, n.externalId);
    if existing.Some? {
      RefreshVehicleCommutes(s.tx, s.pending, existing.value, n.payload);
    } else if !NeedsCarrier(s.tx, n) {
      FlushOneMore(s.tx, s.pending, VehicleRow(NewVehicle(n, CarrierId(s.tx, n))));
    } else {
      FlushOneMore(s.tx, s.pending, CarrierRow(NewCarrier(n, CarrierKey(n).value)));
    }
  }

  /** What is visible after one more proposal, depending on whether it creates a carrier. */
  lemma VisibleOneMore(db: Db, batch: seq<VehicleProposal>, n: VehicleProposal, source: string, externalId: string)
    ensures Visible(db, batch + [n], source, externalId) <==>
            if Creates(db, batch + [n], |batch|)
            then FindVehicle(UpsertVehicles(db, batch).vehicles, source, externalId).Some?
            else Visible(db, batch, source, externalId)
  {
    var all := batch + [n];
    assert forall i | 0 <= i < |batch| :: all[i] == batch[i];
    PrefixStable(db, batch, n);
    UpsertVehiclesFinds(db, batch, source, externalId);
    assert !CreatesBetween(db, all, |batch|, |all|);
    assert forall i | 0 <= i < |batch| ::
        CreatesBetween(db, all, i, |all|) <==> CreatesBetween(db, batch, i, |batch|) || Creates(db, all, |batch|) by {
      forall i | 0 <= i < |batch|
        ensures CreatesBetween(db, all, i, |all|) <==> CreatesBetween(db, all, i, |batch|) || Creates(db, all, |batch|)
      {
        if CreatesBetween(db, all, i, |batch|) {
          var k :| i < k < |batch| && Creates(db, all, k);
          assert i < k < |all|;
        }
      }
    }
    if FindVehicle(db.vehicles, source, externalId).None? {
      if BatchHas(batch, source, externalId) {
        FirstOccurrence(db, batch, source, externalId);
        var i :| 0 <= i < |batch| && FirstNew(db, batch, i) && HasVehicleKey(batch[i], source, externalId);
        assert FirstNew(db, all, i) && HasVehicleKey(all[i], source, externalId);
      }
      if i :| 0 <= i < |all| && FirstNew(db, all, i) && HasVehicleKey(all[i], source, externalId)
              && CreatesBetween(db, all, i, |all|) {
        assert i < |batch| && HasVehicleKey(batch[i], source, externalId);
      }
      if i :| 0 <= i < |batch| && FirstNew(db, batch, i) && HasVehicleKey(batch[i], source, externalId)
              && CreatesBetween(db, batch, i, |batch|) {
        assert FirstNew(db, all, i) && HasVehicleKey(all[i], source, externalId) && CreatesBetween(db, all, i, |all|);
      }
    }
  }

  /** An invisible key that the upserts know makes the batch fail, any other keeps it good. */
  lemma BatchVerdict(db: Db, batch: seq<VehicleProposal>, n: VehicleProposal)
    requires VehicleBatchOk(db, batch)
    ensures VehicleBatchOk(db, batch + [n]) <==>
            || Visible(db, batch, n.source, n.externalId)
            || FindVehicle(UpsertVehicles(db, batch).vehicles, n.source, n.externalId).None?
  {
    VehicleBatchOneMore(db, batch, n);
    UpsertVehiclesFinds(db, batch, n.source, n.externalId);
    if FindVehicle(db.vehicles, n.source, n.externalId).None? && BatchHas(batch, n.source, n.externalId) {
      FirstOccurrence(db, batch, n.source, n.externalId);
      var i :| 0 <= i < |batch| && FirstNew(db, batch, i) && HasVehicleKey(batch[i], n.source, n.externalId);
      assert SameVehicleKey(batch[i], n);
      forall j | 0 <= j < |batch| && FirstNew(db, batch, j) && SameVehicleKey(batch[j], n) ensures j == i {
        assert SameVehicleKey(batch[j], batch[i]) && SameVehicleKey(batch[i], batch[j]);
      }
    }
    forall i | 0 <= i < |batch| && FirstNew(db, batch, i) && SameVehicleKey(batch[i], n)
      ensures BatchHas(batch, n.source, n.externalId) && FindVehicle(db.vehicles, n.source, n.externalId).None?
    {
      assert HasVehicleKey(batch[i], n.source, n.externalId);
    }
  }

  lemma PrefixFinds(a: seq<Option<Vehicle>>, b: seq<Option<Vehicle>>, source: string, externalId: string)
    requires a <= b && FindVehicle(a, source, externalId).Some?
    ensures FindVehicle(b, source, externalId) == FindVehicle(a, source, externalId)
  {
    var i := FindVehicle(a, source, externalId).value;
    assert forall k | 0 <= k <= i :: a[k] == b[k];
  }

  lemma UpsertsOneMore(db: Db, batch: seq<VehicleProposal>, n: VehicleProposal)
    ensures UpsertVehicles(db, batch + [n]) == UpsertVehicle(UpsertVehicles(db, batch), n)
  {
    assert (batch + [n])[..|batch + [n]| - 1] == batch;
    hide UpsertVehicle;
  }

  lemma Shown(db: Db, batch: seq<VehicleProposal>, tx: Db, source: string, externalId: string)
    requires ShowsVisible(db, batch, tx)
    ensures FindVehicle(tx.vehicles, source, externalId).Some? <==> Visible(db, batch, source, externalId)
  {
    hide FindVehicle, Visible;
  }

  /** A proposal that creates no carrier changes nothing about visibility. */
  lemma VisibleWithoutCarrier(db: Db, batch: seq<VehicleProposal>, n: VehicleProposal, tx: Db)
    requires ShowsVisible(db, batch, tx) && !Creates(db, batch + [n], |batch|)
    ensures ShowsVisible(db, batch + [n], tx)
  {
    hide Visible, FindVehicle, Creates, UpsertVehicles;
    forall source, externalId
      ensures FindVehicle(tx.vehicles, source, externalId).Some? <==> Visible(db, batch + [n], source, externalId)
    {
      VisibleOneMore(db, batch, n, source, externalId);
      Shown(db, batch, tx, source, externalId);
    }
  }

  lemma RefreshShowsSame(db: Db, batch: seq<VehicleProposal>, tx: Db, i: nat, payload: Payload)
    requires ShowsVisible(db, batch, tx) && HasVehicle(tx, i)
    ensures ShowsVisible(db, batch, RefreshVehicle(tx, i, payload))
  {
    hide Visible, FindVehicle, RefreshVehicle;
    forall source, externalId
      ensures FindVehicle(RefreshVehicle(tx, i, payload).vehicles, source, externalId).Some? <==>
              Visible(db, batch, source, externalId)
    {
      Shown(db, batch, tx, source, externalId);
      RefreshVehicleFinds(tx, i, payload, source, externalId);
    }
  }

  lemma KnownCreatesNothing(db: Db, batch: seq<VehicleProposal>, n: VehicleProposal)
    requires FindVehicle(UpsertVehicles(db, batch).vehicles, n.source, n.externalId).Some?
    ensures !Creates(db, batch + [n], |batch|)
  {
    FirstNewAtEnd(db, batch, n);
    hide FirstNew, FindVehicle, UpsertVehicles;
  }

  lemma StageKnownVehicle(db: Db, batch: seq<VehicleProposal>, s: Staged, n: VehicleProposal)
    requires VehicleBatchOk(db, batch) && InStep(db, batch, s) && OnlyInserts(s.pending)
    requires FindVehicle(s.tx.vehicles, n.source, n.externalId).Some?
    ensures VehiclesStaged(db, batch + [n], StageVehicle(s, n))
  {
    hide VehicleBatchOk, Visible, ShowsVisible, Creates, OnlyInserts, Grows, FlushRows, UpsertVehicles;
    var i := FindVehicle(s.tx.vehicles, n.source, n.externalId).value;
    Shown(db, batch, s.tx, n.source, n.externalId);
    BatchVerdict(db, batch, n);
    UpsertsOneMore(db, batch, n);
    FlushAppends(s.tx, s.pending);
    PrefixFinds(s.tx.vehicles, UpsertVehicles(db, batch).vehicles, n.source, n.externalId);
    RefreshVehicleCommutes(s.tx, s.pending, i, n.payload);
    KnownCreatesNothing(db, batch, n);
    VisibleWithoutCarrier(db, batch, n, s.tx);
    RefreshShowsSame(db, batch + [n], s.tx, i, n.payload);
  }

  lemma KnownCarrierCreatesNothing(db: Db, batch: seq<VehicleProposal>, n: VehicleProposal)
    requires !NeedsCarrier(UpsertVehicles(db, batch), n)
    ensures !Creates(db, batch + [n], |batch|)
  {
    PrefixStable(db, batch, n);
    if CarrierKey(n).Some? {
      UpsertVehiclesCarriers(db, batch, CarrierKey(n).value);
    }
    assert (batch + [n])[|batch|] == n;
    hide FirstNew, KnownCarrier, UpsertVehicles;
  }

  lemma StageNewVehicle(db: Db, batch: seq<VehicleProposal>, s: Staged, n: VehicleProposal)
    requires VehicleBatchOk(db, batch) && InStep(db, batch, s) && OnlyInserts(s.pending)
    requires FindVehicle(s.tx.vehicles, n.source, n.externalId).None? && !NeedsCarrier(s.tx, n)
    ensures VehiclesStaged(db, batch + [n], StageVehicle(s, n))
  {
    hide VehicleBatchOk, Visible, ShowsVisible, Creates, FlushRows, UpsertVehicles, NewVehicle;
    Shown(db, batch, s.tx, n.source, n.externalId);
    BatchVerdict(db, batch, n);
    UpsertsOneMore(db, batch, n);
    FlushOneMore(s.tx, s.pending, VehicleRow(NewVehicle(n, CarrierId(s.tx, n))));
    NewVehicleShape(n, CarrierId(s.tx, n));
    KnownCarrierCreatesNothing(db, batch, n);
    VisibleWithoutCarrier(db, batch, n, s.tx);
  }

  lemma NewVehicleShape(n: VehicleProposal, carrier: Option<nat>)
    ensures var v := NewVehicle(n, carrier);
            v.source == n.source && v.externalId == Some(n.externalId) && v.carrier == carrier
  {
  }

  lemma CreatesAtEnd(db: Db, batch: seq<VehicleProposal>, n: VehicleProposal)
    requires var u := UpsertVehicles(db, batch);
             FindVehicle(u.vehicles, n.source, n.externalId).None? && NeedsCarrier(u, n)
    ensures Creates(db, batch + [n], |batch|)
  {
    PrefixStable(db, batch, n);
    FirstNewAtEnd(db, batch, n);
    UpsertVehiclesCarriers(db, batch, CarrierKey(n).value);
    assert (batch + [n])[|batch|] == n;
    hide FirstNew, KnownCarrier, UpsertVehicles;
  }

  /** The carrier's flush makes every key of the batch before it visible. */
  lemma VisibleAfterCarrier(db: Db, batch: seq<VehicleProposal>, n: VehicleProposal)
    requires Creates(db, batch + [n], |batch|)
    ensures ShowsVisible(db, batch + [n], WithCarrier(UpsertVehicles(db, batch), n))
  {
    hide Visible, UpsertVehicles, FindVehicle, Creates;
    forall source, externalId
      ensures FindVehicle(UpsertVehicles(db, batch).vehicles, source, externalId).Some? <==>
              Visible(db, batch + [n], source, externalId)
    {
      VisibleOneMore(db, batch, n, source, externalId);
    }
  }

  lemma StageNewCarrier(db: Db, batch: seq<VehicleProposal>, s: Staged, n: VehicleProposal)
    requires VehicleBatchOk(db, batch) && InStep(db, batch, s) && OnlyInserts(s.pending)
    requires FindVehicle(s.tx.vehicles, n.source, n.externalId).None? && NeedsCarrier(s.tx, n)
    ensures VehiclesStaged(db, batch + [n], StageVehicle(s, n))
  {
    hide VehicleBatchOk, Visible, ShowsVisible, Creates, FlushRows, UpsertVehicles, NewVehicle, NewCarrier;
    var u := UpsertVehicles(db, batch);
    Shown(db, batch, s.tx, n.source, n.externalId);
    BatchVerdict(db, batch, n);
    UpsertsOneMore(db, batch, n);
    FlushOneMore(s.tx, s.pending, CarrierRow(NewCarrier(n, CarrierKey(n).value)));
    var t := WithCarrier(u, n);
    FlushOne(t, VehicleRow(NewVehicle(n, CarrierId(t, n))));
    NewVehicleShape(n, CarrierId(t, n));
    if VehicleBatchOk(db, batch + [n]) {
      CreatesAtEnd(db, batch, n);
      VisibleAfterCarrier(db, batch, n);
    }
  }

  /** Staging one more proposal keeps the session in step with the reference, or
      fails exactly when the batch has gone wrong. */
  lemma StageVehicleStep(db: Db, batch: seq<VehicleProposal>, s: Staged, n: VehicleProposal)
    requires VehiclesStaged(db, batch, Some(s))
    ensures VehiclesStaged(db, batch + [n], StageVehicle(s, n))
    ensures VehicleBatchOk(db, batch + [n]) ==>
              |UpsertVehicles(db, batch + [n]).vehicles| - |UpsertVehicles(db, batch).vehicles| ==
              if FindVehicle(s.tx.vehicles, n.source, n.externalId).None? then 1 else 0
  {
    StageVehicleCases(db, batch, s, n);
    VehicleBatchOneMore(db, batch, n);
    if VehicleBatchOk(db, batch + [n]) {
      var all := batch + [n];
      assert all[..|all| - 1] == batch && all[|all| - 1] == n;
      BatchVerdict(db, batch, n);
      FlushAppends(s.tx, s.pending);
      if FindVehicle(s.tx.vehicles, n.source, n.externalId).Some? {
        PrefixFinds(s.tx.vehicles, UpsertVehicles(db, batch).vehicles, n.source, n.externalId);
      }
    }
  }

  lemma StageVehicleCases(db: Db, batch: seq<VehicleProposal>, s: Staged, n: VehicleProposal)
    requires VehiclesStaged(db, batch, Some(s))
    ensures VehiclesStaged(db, batch + [n], StageVehicle(s, n))
  {
    if !VehicleBatchOk(db, batch) {
      VehicleBatchOneMore(db, batch, n);
      StageVehicleDoomed(s, n);
    } else if FindVehicle(s.tx.vehicles, n.source, n.externalId).Some? {
      StageKnownVehicle(db, batch, s, n);
    } else if NeedsCarrier(s.tx, n) {
      StageNewCarrier(db, batch, s, n);
    } else {
      StageNewVehicle(db, batch, s, n);
    }
  }

  /** A repeated new key right after its first occurrence is never saved, not even
      by a new carrier of its own. */
  lemma AdjacentRepeatFails(db: Db, front: seq<VehicleProposal>, a: VehicleProposal, b: VehicleProposal)
    requires SameVehicleKey(a, b) && FindVehicle(UpsertVehicles(db, front).vehicles, a.source, a.externalId).None?
    ensures !VehicleBatchOk(db, front + [a] + [b])
  {
    var batch := front + [a];
    FirstNewAtEnd(db, front, a);
    VehicleBatchOneMore(db, batch, b);
    assert batch[|front|] == a && !CreatesBetween(db, batch, |front|, |batch|);
  }

  /** A proposal in between that brings a new carrier does save it. */
  lemma CarrierInBetweenSaves(db: Db, a: VehicleProposal, b: VehicleProposal, c: VehicleProposal)
    requires SameVehicleKey(a, c) && !SameVehicleKey(a, b)
    requires FindVehicle(db.vehicles, b.source, b.externalId).None?
    requires CarrierKey(b).Some? && FindCarrier(db.carriers, CarrierKey(b).value).None?
    requires CarrierKey(a) != CarrierKey(b)
    ensures VehicleBatchOk(db, [a, b, c])
  {
    var batch := [a, b, c];
    assert FirstNew(db, batch, 1);
    assert Creates(db, batch, 1);
  }

  // ---------- what a batch of vehicles adds ----------

  /** The row has the columns of the first proposal with its key. */
  ghost predicate VehicleAdded(db: Db, batch: seq<VehicleProposal>, v: Option<Vehicle>, carriers: seq<Carrier>) {
    v.Some? && exists k | 0 <= k < |batch| :: FirstNew(db, batch, k) && VehicleColumns(batch[k], v.value, carriers)
  }

  /** The carrier comes from the first proposal for some new vehicle. */
  ghost predicate CarrierAdded(db: Db, batch: seq<VehicleProposal>, c: Carrier) {
    exists k | 0 <= k < |batch| :: FirstNew(db, batch, k) && CarrierColumns(batch[k], c)
  }

  /** What a batch of vehicles adds, column by column. */
  ghost predicate VehiclesAdded(db: Db, batch: seq<VehicleProposal>, after: Db) {
    && |db.vehicles| <= |after.vehicles| && db.carriers <= after.carriers
    && (forall i | |db.vehicles| <= i < |after.vehicles| :: VehicleAdded(db, batch, after.vehicles[i], after.carriers))
    && (forall i | |db.carriers| <= i < |after.carriers| :: CarrierAdded(db, batch, after.carriers[i]))
  }

  lemma VehicleAddedByMore(
      db: Db, batch: seq<VehicleProposal>, n: VehicleProposal, v: Option<Vehicle>, w: Option<Vehicle>,
      carriers: seq<Carrier>, more: seq<Carrier>)
    requires VehicleAdded(db, batch, v, carriers) && carriers <= more
    requires w.Some? && w.value == v.value.(payload := w.value.payload)
    ensures VehicleAdded(db, batch + [n], w, more)
  {
    hide FirstNew, CarrierColumn;
    var k :| 0 <= k < |batch| && FirstNew(db, batch, k) && VehicleColumns(batch[k], v.value, carriers);
    assert VehicleColumns(batch[k], w.value, carriers);
    hide VehicleColumns;
    ColumnsKept(batch[k], w.value, carriers, more);
    PrefixStable(db, batch, n);
    assert (batch + [n])[k] == batch[k];
  }

  lemma CarrierAddedByMore(db: Db, batch: seq<VehicleProposal>, n: VehicleProposal, c: Carrier)
    requires CarrierAdded(db, batch, c)
    ensures CarrierAdded(db, batch + [n], c)
  {
    hide FirstNew, CarrierColumns;
    var k :| 0 <= k < |batch| && FirstNew(db, batch, k) && CarrierColumns(batch[k], c);
    PrefixStable(db, batch, n);
    assert (batch + [n])[k] == batch[k];
  }

  /** One upsert: at most one new vehicle and one new carrier, both the proposal's. */
  lemma UpsertVehicleAdds(before: Db, n: VehicleProposal)
    ensures var after := UpsertVehicle(before, n);
            && |before.vehicles| <= |after.vehicles| && before.carriers <= after.carriers
            && (forall i | 0 <= i < |before.vehicles| && before.vehicles[i].Some? ::
                  after.vehicles[i].Some?
                  && after.vehicles[i].value == before.vehicles[i].value.(payload := after.vehicles[i].value.payload))
            && (forall i | |before.vehicles| <= i < |after.vehicles| ::
                  after.vehicles[i].Some? && VehicleColumns(n, after.vehicles[i].value, after.carriers))
            && (forall i | |before.carriers| <= i < |after.carriers| :: CarrierColumns(n, after.carriers[i]))
            && (|after.vehicles| > |before.vehicles| || |after.carriers| > |before.carriers| ==>
                  FindVehicle(before.vehicles, n.source, n.externalId).None?)
  {
    if FindVehicle(before.vehicles, n.source, n.externalId).None? {
      var known := WithCarrier(before, n);
      if CarrierKey(n).Some? {
        WithCarrierFinds(before, n, CarrierKey(n).value);
        NewCarrierColumns(n);
      }
      CarrierColumnFilled(n, known.carriers, CarrierId(known, n));
      NewVehicleColumns(n, CarrierId(known, n), known.carriers);
      hide VehicleColumns, CarrierColumns, NewVehicle, NewCarrier, FindCarrier, CarrierKey;
    }
  }

  /** Every vehicle and every carrier a batch adds has the columns of the first
      proposal for it. */
  lemma {:induction false} VehiclesAddedByBatch(db: Db, batch: seq<VehicleProposal>)
    ensures VehiclesAdded(db, batch, UpsertVehicles(db, batch))
  {
    if batch != [] {
      var front, n := batch[..|batch| - 1], batch[|batch| - 1];
      assert front + [n] == batch;
      VehiclesAddedByBatch(db, front);
      UpsertVehicleAdds(UpsertVehicles(db, front), n);
      FirstNewAtEnd(db, front, n);
      UpsertsOneMore(db, front, n);
      hide UpsertVehicle, UpsertVehicles, FirstNew, FindVehicle, VehicleColumns, CarrierColumns;
      VehiclesAddedOneMore(db, front, n, UpsertVehicles(db, front), UpsertVehicles(db, batch));
    }
  }

  lemma VehiclesAddedOneMore(db: Db, front: seq<VehicleProposal>, n: VehicleProposal, before: Db, after: Db)
    requires VehiclesAdded(db, front, before)
    requires |before.vehicles| <= |after.vehicles| && before.carriers <= after.carriers
    requires forall i | 0 <= i < |before.vehicles| && before.vehicles[i].Some? ::
               after.vehicles[i].Some?
               && after.vehicles[i].value == before.vehicles[i].value.(payload := after.vehicles[i].value.payload)
    requires forall i | |before.vehicles| <= i < |after.vehicles| ::
               after.vehicles[i].Some? && VehicleColumns(n, after.vehicles[i].value, after.carriers)
    requires forall i | |before.carriers| <= i < |after.carriers| :: CarrierColumns(n, after.carriers[i])
    requires |after.vehicles| > |before.vehicles| || |after.carriers| > |before.carriers| ==>
               FirstNew(db, front + [n], |front|)
    ensures VehiclesAdded(db, front + [n], after)
  {
    hide FirstNew, VehicleColumns, CarrierColumns;
    var batch := front + [n];
    assert batch[|front|] == n;
    forall i | |db.vehicles| <= i < |after.vehicles|
      ensures VehicleAdded(db, batch, after.vehicles[i], after.carriers)
    {
      if i < |before.vehicles| {
        VehicleAddedByMore(db, front, n, before.vehicles[i], after.vehicles[i], before.carriers, after.carriers);
      } else {
        assert FirstNew(db, batch, |front|) && VehicleColumns(batch[|front|], after.vehicles[i].value, after.carriers);
      }
    }
    forall i | |db.carriers| <= i < |after.carriers| ensures CarrierAdded(db, batch, after.carriers[i]) {
      if i < |before.carriers| {
        CarrierAddedByMore(db, front, n, before.carriers[i]);
      } else {
        assert FirstNew(db, batch, |front|) && CarrierColumns(batch[|front|], after.carriers[i]);
      }
    }
  }

  // ---------- the service ----------

  class IngestionService {
    const session: Session

    constructor (session: Session)
      ensures this.session == session
    {
      this.session := session;
    }

    /** True if a new row was added, else an existing row was refreshed. */
    method UpsertLoadRow(n: LoadProposal, now: int) returns (created: bool)
      modifies session
      ensures session.db == old(session.db)
      ensures Staged(session.tx, session.pending) == StageLoad(old(Staged(session.tx, session.pending)), n, now)
      ensures created <==> FindLoad(old(session.tx.loads), n.source, n.externalId).None?
    {
      var existing := FindLoad(session.tx.loads, n.source, n.externalId);
      if existing.Some? {
        session.tx := RefreshLoad(session.tx, existing.value, n.payload);
        return false;
      }
      session.Add(LoadRow(NewLoad(n)));
      if IsPriced(n.price, n.currency) {
        session.Add(SampleRow(SampleOf(n, now)));
      }
      return true;
    }

    method IngestLoads(batch: seq<LoadProposal>, now: int) returns (r: Result<nat>)
      requires session.Idle()
      modifies session
      ensures session.Idle()
      ensures r.Ok? <==> LoadBatchOk(old(session.db), batch)
      ensures session.db == if r.Ok? then UpsertLoads(old(session.db), batch, now) else old(session.db)
      ensures r.Ok? ==> r.value == |session.db.loads| - |old(session.db.loads)|
      ensures r.Ok? ==> LoadsAdded(old(session.db), batch, now, session.db)
    {
      ghost var db := session.db;
      var newCount := 0;
      LoadsAtStart(db, now);
      LoadsAddedByBatch(db, batch, now);
      hide LoadsAdded;
      for k := 0 to |batch|
        invariant session.db == db
        invariant LoadsStaged(db, batch[..k], now, Staged(session.tx, session.pending))
        invariant LoadBatchOk(db, batch[..k]) ==> newCount == |UpsertLoads(db, batch[..k], now).loads| - |db.loads|
      {
        LoadStep(db, batch, k, now, Staged(session.tx, session.pending));
        var created := UpsertLoadRow(batch[k], now);
        if created {
          newCount := newCount + 1;
        }
      }
      assert batch[..|batch|] == batch;
      var ok := session.Commit();
      return if ok then Ok(newCount) else Raised(500);
    }

    /** The carrier's id, or an exception when creating the carrier flushes a
        duplicate. */
    method GetOrCreateCarrier(n: VehicleProposal) returns (r: Result<Option<nat>>)
      modifies session
      ensures session.db == old(session.db)
      ensures !NeedsCarrier(old(session.tx), n) ==>
                session.tx == old(session.tx) && session.pending == old(session.pending)
                && r == Ok(CarrierId(session.tx, n))
      ensures NeedsCarrier(old(session.tx), n) ==>
                var carrier := CarrierRow(NewCarrier(n, CarrierKey(n).value));
                var flushed := FlushRows(old(session.tx), old(session.pending) + [carrier]);
                && (r.Ok? <==> flushed.Some?)
                && (r.Ok? ==> session.tx == flushed.value && session.pending == [])
                && (r.Ok? ==> r.value == CarrierId(session.tx, n))
                && (!r.Ok? ==> session.Idle())
    {
      var key := CarrierKey(n);
      if key.None? {
        return Ok(None);
      }
      var carrier := FindCarrier(session.tx.carriers, key.value);
      if carrier.Some? {
        return Ok(carrier);
      }
      FlushOneMore(session.tx, session.pending, CarrierRow(NewCarrier(n, key.value)));
      CarrierIsLast(session.tx, session.pending, n);
      session.Add(CarrierRow(NewCarrier(n, key.value)));
      var ok := session.Flush();
      if !ok {
        return Raised(500);
      }
      return Ok(FindCarrier(session.tx.carriers, key.value));
    }

    method UpsertVehicleRow(n: VehicleProposal) returns (r: Result<bool>)
      modifies session
      ensures session.db == old(session.db)
      ensures var staged := StageVehicle(old(Staged(session.tx, session.pending)), n);
              && (r.Ok? <==> staged.Some?)
              && (r.Ok? ==> Staged(session.tx, session.pending) == staged.value)
              && (!r.Ok? ==> session.Idle())
      ensures r.Ok? ==> r.value == FindVehicle(old(session.tx.vehicles), n.source, n.externalId).None?
    {
      var existing := FindVehicle(session.tx.vehicles, n.source, n.externalId);
      if existing.Some? {
        session.tx := RefreshVehicle(session.tx, existing.value, n.payload);
        return Ok(false);
      }
      var carrier := GetOrCreateCarrier(n);
      if carrier.Raised? {
        return Raised(carrier.code);
      }
      session.Add(VehicleRow(NewVehicle(n, carrier.value)));
      return Ok(true);
    }

    method IngestVehicles(batch: seq<VehicleProposal>) returns (r: Result<nat>)
      requires session.Idle()
      modifies session
      ensures session.Idle()
      ensures r.Ok? <==> VehicleBatchOk(old(session.db), batch)
      ensures session.db == if r.Ok? then UpsertVehicles(old(session.db), batch) else old(session.db)
      ensures r.Ok? ==> r.value == |session.db.vehicles| - |old(session.db.vehicles)|
      ensures r.Ok? ==> VehiclesAdded(old(session.db), batch, session.db)
    {
      ghost var db := session.db;
      var newCount := 0;
      VisibleAtStart(db);
      VehiclesAddedByBatch(db, batch);
      hide VehiclesAdded;
      for k := 0 to |batch|
        invariant session.db == db
        invariant VehiclesStaged(db, batch[..k], Some(Staged(session.tx, session.pending)))
        invariant VehicleBatchOk(db, batch[..k]) ==>
                  newCount == |UpsertVehicles(db, batch[..k]).vehicles| - |db.vehicles|
      {
        VehicleStep(db, batch, k, Staged(session.tx, session.pending));
        hide VehiclesStaged, VehicleBatchOk, StageVehicle, UpsertVehicles, FlushRows;
        var created := UpsertVehicleRow(batch[k]);
        if created.Raised? {
          return Raised(created.code);
        }
        if created.value {
          newCount := newCount + 1;
        }
      }
      assert batch[..|batch|] == batch;
      var ok := session.Commit();
      return if ok then Ok(newCount) else Raised(500);
    }
  }

  lemma CarrierIsLast(t: Db, rows: seq<Row>, n: VehicleProposal)
    requires NeedsCarrier(t, n)
    ensures var flushed := FlushRows(t, rows + [CarrierRow(NewCarrier(n, CarrierKey(n).value))]);
            flushed.Some? ==> CarrierId(flushed.value, n).Some?
  {
    var row := CarrierRow(NewCarrier(n, CarrierKey(n).value));
    FlushOneMore(t, rows, row);
    if FlushRows(t, rows + [row]).Some? {
      var carriers := FlushRows(t, rows + [row]).value.carriers;
      assert carriers[|carriers| - 1].lardiUser == CarrierKey(n).value;
    }
  }

  lemma LoadsAtStart(db: Db, now: int)
    ensures LoadsStaged(db, [], now, Staged(db, []))
  {
  }

  lemma LoadStep(db: Db, batch: seq<LoadProposal>, k: nat, now: int, s: Staged)
    requires k < |batch|
    requires LoadsStaged(db, batch[..k], now, s)
    ensures LoadsStaged(db, batch[..k + 1], now, StageLoad(s, batch[k], now))
    ensures LoadBatchOk(db, batch[..k + 1]) ==>
              && LoadBatchOk(db, batch[..k])
              && |UpsertLoads(db, batch[..k + 1], now).loads| - |UpsertLoads(db, batch[..k], now).loads| ==
                 if FindLoad(s.tx.loads, batch[k].source, batch[k].externalId).None? then 1 else 0
  {
    StageLoadStep(db, batch[..k], now, s, batch[k]);
    LoadBatchOneMore(db, batch[..k], batch[k]);
    assert batch[..k + 1] == batch[..k] + [batch[k]];
  }

  lemma VisibleAtStart(db: Db)
    ensures VehiclesStaged(db, [], Some(Staged(db, [])))
  {
  }

  lemma VehicleStep(db: Db, batch: seq<VehicleProposal>, k: nat, s: Staged)
    requires k < |batch|
    requires VehiclesStaged(db, batch[..k], Some(s))
    ensures VehiclesStaged(db, batch[..k + 1], StageVehicle(s, batch[k]))
    ensures StageVehicle(s, batch[k]).None? ==> !VehicleBatchOk(db, batch)
    ensures VehicleBatchOk(db, batch[..k + 1]) ==>
              && VehicleBatchOk(db, batch[..k])
              && |UpsertVehicles(db, batch[..k + 1]).vehicles| - |UpsertVehicles(db, batch[..k]).vehicles| ==
                 if FindVehicle(s.tx.vehicles, batch[k].source, batch[k].externalId).None? then 1 else 0
  {
    hide VehicleBatchOk, InStep, StageVehicle, UpsertVehicles, FlushRows, CreatesBetween, FirstNew;
    StageVehicleStep(db, batch[..k], s, batch[k]);
    VehicleBatchOneMore(db, batch[..k], batch[k]);
    VehicleBatchPrefix(db, batch, k + 1);
    assert batch[..k + 1] == batch[..k] + [batch[k]];
  }

  lemma {:induction false} VehicleBatchPrefix(db: Db, batch: seq<VehicleProposal>, n: nat)
    requires n <= |batch|
    ensures VehicleBatchOk(db, batch) ==> VehicleBatchOk(db, batch[..n])
    decreases |batch|
  {
    if n == |batch| {
      assert batch[..n] == batch;
    } else {
      var front := batch[..|batch| - 1];
      assert batch == front + [batch[|batch| - 1]];
      VehicleBatchOneMore(db, front, batch[|batch| - 1]);
      VehicleBatchPrefix(db, front, n);
      assert front[..n] == batch[..n];
    }
  }
}
