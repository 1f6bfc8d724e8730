/** What carriers are promised about tracking, and what they get. */
module CarrierAccess {
  import opened Wrappers
  import opened Text
  import opened Tables
  import opened Ingestion
  import opened Lifecycle
  import opened Invariants
  import opened Evolution
  import opened Causes
  import opened Theorems

  /** The deal's vehicle belongs to the user's company. */
  ghost predicate IsTheirs(db: Db, user: User, d: nat)
    requires d < |db.deals|
  {
    var v := db.deals[d].vehicle;
    HasVehicle(db, v) && db.vehicles[v].value.company.Some? && db.vehicles[v].value.company == user.company
  }

  /** A vehicle is of the exchange, with a carrier, or of a company's fleet. */
  ghost predicate OneSided(db: Db) {
    forall v | 0 <= v < |db.vehicles| && db.vehicles[v].Some? && db.vehicles[v].value.carrier.Some? ::
      db.vehicles[v].value.company.None?
  }

  lemma {:induction false} UpsertVehiclesOneSided(db: Db, batch: seq<VehicleProposal>)
    requires OneSided(db)
    ensures OneSided(UpsertVehicles(db, batch))
  {
    if batch != [] {
      UpsertVehiclesOneSided(db, batch[..|batch| - 1]);
      UpsertVehicleOneSided(UpsertVehicles(db, batch[..|batch| - 1]), batch[|batch| - 1]);
    }
  }

  lemma UpsertVehicleOneSided(db: Db, n: VehicleProposal)
    requires OneSided(db)
    ensures OneSided(UpsertVehicle(db, n))
  {
    var existing, after := FindVehicle(db.vehicles, n.source, n.externalId), UpsertVehicle(db, n);
    forall v | 0 <= v < |after.vehicles| && after.vehicles[v].Some? && after.vehicles[v].value.carrier.Some?
      ensures after.vehicles[v].value.company.None?
    {
      assert v < |db.vehicles| ==> db.vehicles[v].Some?;
    }
  }

  /** Outside ingestion only registration adds a vehicle, without a carrier. */
  lemma FewNewVehicles(db: Db, step: Step)
    requires !step.IngestVehicles?
    ensures forall v | |db.vehicles| <= v < |Apply(db, step).vehicles| ::
              Apply(db, step).vehicles[v].Some? && Apply(db, step).vehicles[v].value.carrier.None?
  {
    if step.IngestLoads? {
      UpsertLoadsTouch(db, step.loadBatch, step.now);
    } else if step.RunMatcher? && ListsNewLoads(db, step.order) {
      assert forall i | 0 <= i < |step.order| :: step.order[i] in step.order;
      MatchAllOnlyMatched(db, step.order, step.replies);
    }
  }

  lemma StepOneSided(db: Db, step: Step)
    requires OneSided(db)
    ensures OneSided(Apply(db, step))
  {
    if step.IngestVehicles? {
      UpsertVehiclesOneSided(db, step.vehicleBatch);
    } else {
      StepEvolves(db, step);
      FewNewVehicles(db, step);
      hide Apply;
      var after := Apply(db, step);
      forall v | 0 <= v < |db.vehicles| ensures VehicleEvolves(db.vehicles[v], after.vehicles[v]) {
      }
    }
  }

  lemma {:induction false} RunOneSided(steps: seq<Step>)
    ensures OneSided(Run(EMPTY, steps))
  {
    if steps != [] {
      RunOneSided(steps[..|steps| - 1]);
      StepOneSided(Run(EMPTY, steps[..|steps| - 1]), steps[|steps| - 1]);
    }
  }

  /** Carriers are documented to see their own deals at any stage. In no reachable
      state is a deal any company's own, because a vehicle that can be booked comes
      from the exchange; so the promise is kept for a carrier and a deal exactly
      when the deal is not on the road, and then by refusing. */
  lemma CarrierPromise(steps: seq<Step>, user: User, d: nat)
    requires d < |Run(EMPTY, steps).deals| && user.role == CarrierRole
    ensures var db := Run(EMPTY, steps);
            && !IsTheirs(db, user, d)
            && ((CanTrackDeal(db, user, d) <==> IsTheirs(db, user, d)) <==> !OnTheRoad(db.deals[d].status))
  {
    RunInv(steps);
    RunOneSided(steps);
    TrackingIsOwnerOnTheRoad(steps, user, d);
    assert DealRef(Run(EMPTY, steps), Run(EMPTY, steps).deals[d]);
  }

  // ---------- vehicles without a company ----------

  /** The fleet routes compare company ids, and no company equals no company: an
      exchange vehicle is in the fleet of exactly those carriers and administrators
      who have no company, and they may edit and delete it. */
  lemma ExchangeVehiclesAreOpen(
      steps: seq<Step>, user: User, v: nat, plate: string, bodyType: string, capacity: int, status: VehicleStatus)
    requires var db := Run(EMPTY, steps);
             HasVehicle(db, v) && db.vehicles[v].value.carrier.Some?
    ensures var db := Run(EMPTY, steps);
            && (EditVehicle(db, user, v, plate, bodyType, capacity, status).Ok? <==>
                  (user.role == CarrierRole || user.role == AdminRole) && user.company.None? && Strip(plate) != "")
            && (DeleteVehicle(db, user, v).Ok? <==>
                  (user.role == CarrierRole || user.role == AdminRole) && user.company.None? && !Referenced(db, v))
  {
    RunOneSided(steps);
    hide Run, Strip, Referenced;
    NoCompanyOf(Run(EMPTY, steps), v);
  }

  lemma NoCompanyOf(db: Db, v: nat)
    requires OneSided(db) && HasVehicle(db, v) && db.vehicles[v].value.carrier.Some?
    ensures db.vehicles[v].value.company.None?
  {
  }

  // ---------- a run that breaks the promise ----------

  const SHIPPER := User(1, ShipperRole, None)
  const ADMINISTRATOR := User(2, AdminRole, None)
  const ONE_CARRIER := User(3, CarrierRole, Some(1))
  const OTHER_CARRIER := User(4, CarrierRole, Some(2))

  const TRUCK := VehicleProposal("lardi", "77", NO_PLACE, NO_PLACE, None, None, Number(5), None, "", map[])
  const CARGO := LoadForm("UA", "Kyiv", "PL", "Lodz", "timber", "", Blank, Blank, true, [], "EUR")

  /** A truck is ingested, a load posted, and a deal proposed. */
  const UNTIL_BOOKED := [IngestVehicles([TRUCK]), Post(SHIPPER, CARGO), Propose(SHIPPER, 0, 0, 100, "EUR")]

  /** The cargo is loaded. */
  const UNTIL_LOADED := UNTIL_BOOKED + [Advance(ADMINISTRATOR, 0, Loaded, 0)]

  lemma CargoIsOk()
    ensures FormOk(CARGO)
  {
    TrimOfTrimmed("UA", IsSpace);
    TrimOfTrimmed("Kyiv", IsSpace);
    TrimOfTrimmed("PL", IsSpace);
    TrimOfTrimmed("Lodz", IsSpace);
    TrimOfTrimmed("timber", IsSpace);
  }

  lemma TruckIngested()
    ensures Run(EMPTY, UNTIL_BOOKED[..1]) ==
            EMPTY.(carriers := [NewCarrier(TRUCK, 5)], vehicles := [Some(NewVehicle(TRUCK, Some(0)))])
  {
    var batch, step := [TRUCK], IngestVehicles([TRUCK]);
    assert UNTIL_BOOKED[..1] == [step] && [step][..0] == [] && batch[..0] == [];
    assert Run(EMPTY, [step]) == Apply(EMPTY, step);
    assert VehicleBatchOk(EMPTY, batch);
    assert UpsertVehicles(EMPTY, batch) == UpsertVehicle(EMPTY, TRUCK);
    var known := WithCarrier(EMPTY, TRUCK);
    assert known == EMPTY.(carriers := [NewCarrier(TRUCK, 5)]);
    assert CarrierId(known, TRUCK) == Some(0);
  }

  lemma CargoPosted()
    ensures Run(EMPTY, UNTIL_BOOKED[..2]) ==
            EMPTY.(carriers := [NewCarrier(TRUCK, 5)], vehicles := [Some(NewVehicle(TRUCK, Some(0)))],
                   loads := [PlatformLoad(SHIPPER, CARGO)])
  {
    TruckIngested();
    CargoIsOk();
    hide FormOk, PlatformLoad, NewCarrier, NewVehicle;
    assert UNTIL_BOOKED[..2][..1] == UNTIL_BOOKED[..1] && UNTIL_BOOKED[..2][1] == Post(SHIPPER, CARGO);
  }

  lemma DealProposed(db: Db)
    requires db.vehicles == [Some(NewVehicle(TRUCK, Some(0)))] && |db.carriers| == 1
    requires db.loads == [PlatformLoad(SHIPPER, CARGO)] && db.matches == [] && db.deals == []
    ensures Apply(db, Propose(SHIPPER, 0, 0, 100, "EUR")).deals == [Deal(0, 0, 0, 100, Upper("EUR"), DealBooked)]
  {
    assert CanBook(db, 0, 0);
  }

  lemma DealBookedInRun()
    ensures Run(EMPTY, UNTIL_BOOKED).deals == [Deal(0, 0, 0, 100, Upper("EUR"), DealBooked)]
  {
    CargoPosted();
    DealProposed(Run(EMPTY, UNTIL_BOOKED[..2]));
    assert UNTIL_BOOKED[..|UNTIL_BOOKED| - 1] == UNTIL_BOOKED[..2];
    hide Apply, NewVehicle, PlatformLoad, NewCarrier;
  }

  lemma DealLoadedInRun()
    ensures Run(EMPTY, UNTIL_LOADED).deals == [Deal(0, 0, 0, 100, Upper("EUR"), Loaded)]
  {
    DealBookedInRun();
    assert UNTIL_LOADED[..|UNTIL_LOADED| - 1] == UNTIL_BOOKED;
    assert Run(EMPTY, UNTIL_LOADED) == Apply(Run(EMPTY, UNTIL_BOOKED), Advance(ADMINISTRATOR, 0, Loaded, 0));
    hide Run, DealSample;
  }

  /** Not "at any stage": while the deal is booked no carrier may track it. And not
      "their own": once it is loaded, carriers of two different companies both may,
      and it is neither's. */
  lemma CarrierPromiseFails()
    ensures |Run(EMPTY, UNTIL_BOOKED).deals| == 1 && |Run(EMPTY, UNTIL_LOADED).deals| == 1
    ensures !CanTrackDeal(Run(EMPTY, UNTIL_BOOKED), ONE_CARRIER, 0)
              && !CanTrackDeal(Run(EMPTY, UNTIL_BOOKED), OTHER_CARRIER, 0)
    ensures CanTrackDeal(Run(EMPTY, UNTIL_LOADED), ONE_CARRIER, 0)
              && CanTrackDeal(Run(EMPTY, UNTIL_LOADED), OTHER_CARRIER, 0)
    ensures ONE_CARRIER.company != OTHER_CARRIER.company
            && !IsTheirs(Run(EMPTY, UNTIL_LOADED), ONE_CARRIER, 0)
                      && !IsTheirs(Run(EMPTY, UNTIL_LOADED), OTHER_CARRIER, 0)
  {
    DealBookedInRun();
    DealLoadedInRun();
    hide Run;
    CarrierPromise(UNTIL_LOADED, ONE_CARRIER, 0);
    CarrierPromise(UNTIL_LOADED, OTHER_CARRIER, 0);
  }
}
