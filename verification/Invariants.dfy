/** The facts that tie the tables together in every reachable state, and the
    proof that every step keeps them. */
module Invariants {
  import opened Wrappers
  import opened Tables
  import opened UnitOfWork
  import opened Counting
  import opened Ranking
  import opened Ingestion
  import opened Matcher
  import opened Gps
  import opened Pricing
  import opened Lifecycle

  // ---------- references ----------

  ghost predicate MatchRefs(db: Db) {
    forall i | 0 <= i < |db.matches| :: db.matches[i].load < |db.loads| && HasVehicle(db, db.matches[i].vehicle)
  }

  /** A deal's carrier is its vehicle's carrier. */
  ghost predicate DealRef(db: Db, d: Deal) {
    && d.load < |db.loads| && HasVehicle(db, d.vehicle) && d.carrier < |db.carriers|
    && db.vehicles[d.vehicle].value.carrier == Some(d.carrier)
  }

  ghost predicate DealRefs(db: Db) {
    forall i | 0 <= i < |db.deals| :: DealRef(db, db.deals[i])
  }

  ghost predicate VehicleRefs(db: Db) {
    forall v | 0 <= v < |db.vehicles| && db.vehicles[v].Some? && db.vehicles[v].value.carrier.Some? ::
      db.vehicles[v].value.carrier.value < |db.carriers|
  }

  ghost predicate PositionRefs(db: Db) {
    forall i | 0 <= i < |db.positions| :: HasVehicle(db, db.positions[i].vehicle)
  }

  ghost predicate FeedbackRefs(db: Db) {
    forall k | k in db.feedback :: k.0 < |db.matches|
  }

  ghost predicate Refs(db: Db) {
    MatchRefs(db) && DealRefs(db) && VehicleRefs(db) && PositionRefs(db) && FeedbackRefs(db)
  }

  // ---------- loads against deals and matches ----------

  ghost predicate HasDeal(deals: seq<Deal>, load: nat) {
    exists d | 0 <= d < |deals| :: deals[d].load == load
  }

  ghost predicate HasMatch(matches: seq<Match>, load: nat) {
    exists i | 0 <= i < |matches| :: matches[i].load == load
  }

  /** BOOKED exactly if a deal refers to the load, MATCHED only with a match row,
      NEW only without, and never NEGOTIATING or EXPIRED. */
  ghost predicate LoadInv(l: Load, load: nat, matches: seq<Match>, deals: seq<Deal>) {
    && (l.status == Booked <==> HasDeal(deals, load))
    && (l.status == Matched ==> HasMatch(matches, load))
    && (l.status == New ==> !HasMatch(matches, load))
    && l.status != Negotiating && l.status != Expired
  }

  ghost predicate LoadsInv(db: Db) {
    forall l | 0 <= l < |db.loads| :: LoadInv(db.loads[l], l, db.matches, db.deals)
  }

  // ---------- matches against deals ----------

  ghost predicate PairsUnique(matches: seq<Match>) {
    forall i, j | 0 <= i < j < |matches| :: !IsPair(matches[j], matches[i].load, matches[i].vehicle)
  }

  /** The deal's pair has a match row that was promoted, and perhaps rejected since. */
  ghost predicate DealHasMatch(matches: seq<Match>, d: Deal) {
    exists i | 0 <= i < |matches| ::
      IsPair(matches[i], d.load, d.vehicle) && (matches[i].status == Promoted || matches[i].status == Rejected)
  }

  ghost predicate HasDealOn(deals: seq<Deal>, load: nat, vehicle: nat) {
    exists d | 0 <= d < |deals| :: IsDealOn(deals[d], load, vehicle)
  }

  ghost predicate MatchesInv(db: Db) {
    && PairsUnique(db.matches)
    && (forall d | 0 <= d < |db.deals| :: DealHasMatch(db.matches, db.deals[d]))
    && (forall i | 0 <= i < |db.matches| && db.matches[i].status == Promoted ::
          HasDealOn(db.deals, db.matches[i].load, db.matches[i].vehicle))
  }

  // ---------- price samples ----------

  predicate IsLardiSample(s: PriceSample) {
    s.source.FromLardi?
  }

  /** Came in through ingestion with a non-zero price in a named currency. */
  predicate PricedIngested(l: Load) {
    && l.externalId.Some? && l.price.Some? && l.price.value != 0
    && l.currency.Some? && l.currency.value != ""
  }

  /** Delivered at some time, at a non-zero price. */
  predicate PricedDelivered(d: Deal) {
    d.price != 0 && (d.status == Delivered || d.status == Invoiced || d.status == Paid)
  }

  /** The sample copies the load's route, weight and first body type. */
  ghost predicate CopiesLoad(s: PriceSample, l: Load) {
    && s.fromCountry == l.origin.country && s.fromCity == l.origin.city
    && s.toCountry == l.destination.country && s.toCity == l.destination.city
    && s.weight == l.weight && s.bodyType == FirstBody(l.bodyTypes)
  }

  ghost predicate FromThisDeal(db: Db, s: PriceSample, d: nat) {
    && d < |db.deals| && db.deals[d].load < |db.loads|
    && PricedDelivered(db.deals[d])
    && CopiesLoad(s, db.loads[db.deals[d].load])
    && s.price == db.deals[d].price
    && s.currency == (if db.deals[d].currency != "" then db.deals[d].currency else "UAH")
  }

  ghost predicate FromThisLoad(s: PriceSample, externalId: string, l: Load) {
    && l.externalId == Some(externalId) && PricedIngested(l)
    && CopiesLoad(s, l) && s.price == l.price.value && s.currency == l.currency.value
  }

  ghost predicate Provenance(db: Db, s: PriceSample) {
    match s.source
    case FromDeal(d) => FromThisDeal(db, s, d)
    case FromLardi(e) => exists l | 0 <= l < |db.loads| :: FromThisLoad(s, e, db.loads[l])
  }

  ghost predicate HasSample(samples: seq<PriceSample>, d: nat) {
    exists i | 0 <= i < |samples| :: samples[i].source == FromDeal(d)
  }

  ghost predicate OneSamplePerDeal(samples: seq<PriceSample>) {
    forall i, j | 0 <= i < j < |samples| && samples[i].source.FromDeal? :: samples[j].source != samples[i].source
  }

  ghost predicate SamplesInv(db: Db) {
    && (forall i | 0 <= i < |db.samples| :: Provenance(db, db.samples[i]))
    && OneSamplePerDeal(db.samples)
    && (forall d | 0 <= d < |db.deals| && PricedDelivered(db.deals[d]) :: HasSample(db.samples, d))
    && Count(db.samples, IsLardiSample) == Count(db.loads, PricedIngested)
    && |db.samples| == Count(db.loads, PricedIngested) + Count(db.deals, PricedDelivered)
  }

  // ---------- keys ----------

  ghost predicate LoadKeysUnique(loads: seq<Load>) {
    forall i, j | 0 <= i < j < |loads| && loads[i].externalId.Some? ::
      !IsLoadKey(loads[j], loads[i].source, loads[i].externalId.value)
  }

  ghost predicate VehicleKeysUnique(vehicles: seq<Option<Vehicle>>) {
    forall i, j | 0 <= i < j < |vehicles| && vehicles[i].Some? && vehicles[i].value.externalId.Some? ::
      !IsVehicleKey(vehicles[j], vehicles[i].value.source, vehicles[i].value.externalId.value)
  }

  /** Not a database constraint, but nobody else creates carriers. */
  ghost predicate CarriersUnique(carriers: seq<Carrier>) {
    forall i, j | 0 <= i < j < |carriers| :: carriers[i].lardiUser != carriers[j].lardiUser
  }

  ghost predicate KeysInv(db: Db) {
    LoadKeysUnique(db.loads) && VehicleKeysUnique(db.vehicles) && CarriersUnique(db.carriers)
  }

  // ---------- all of them ----------

  ghost predicate Inv(db: Db) {
    && Refs(db) && LoadsInv(db) && MatchesInv(db) && SamplesInv(db) && KeysInv(db) && UniqueFixes(db.positions)
  }

  lemma EmptyInv()
    ensures Inv(EMPTY)
  {
  }

  // ---------- changing one load ----------

  /** The columns no step writes. */
  ghost predicate SameFrozenLoad(a: Load, b: Load) {
    b == a.(status := b.status, payload := b.payload)
  }

  ghost predicate SameFrozenLoads(a: seq<Load>, b: seq<Load>) {
    |a| <= |b| && forall i | 0 <= i < |a| :: SameFrozenLoad(a[i], b[i])
  }

  /** Samples do not notice changes of status and payload. */
  lemma SamplesIgnoreStatus(db: Db, l: nat, after: Load)
    requires SamplesInv(db) && l < |db.loads| && SameFrozenLoad(db.loads[l], after)
    ensures SamplesInv(db.(loads := db.loads[l := after]))
  {
    var next := db.(loads := db.loads[l := after]);
    CountUpdate(db.loads, l, after, PricedIngested);
    forall i | 0 <= i < |next.samples| ensures Provenance(next, next.samples[i]) {
      ProvenanceKept(db, next, db.samples[i]);
    }
  }

  /** A sample's origin stays what it was while frozen columns and deals stay. */
  lemma ProvenanceKept(db: Db, next: Db, s: PriceSample)
    requires Provenance(db, s) && SameFrozenLoads(db.loads, next.loads)
    requires |db.deals| <= |next.deals|
    requires forall d | 0 <= d < |db.deals| && PricedDelivered(db.deals[d]) ::
               PricedDelivered(next.deals[d]) && next.deals[d] == db.deals[d].(status := next.deals[d].status)
    ensures Provenance(next, s)
  {
    match s.source
    case FromDeal(d) =>
      assert SameFrozenLoad(db.loads[db.deals[d].load], next.loads[db.deals[d].load]);
    case FromLardi(e) =>
      var l :| 0 <= l < |db.loads| && FromThisLoad(s, e, db.loads[l]);
      assert SameFrozenLoad(db.loads[l], next.loads[l]);
      assert FromThisLoad(s, e, next.loads[l]);
  }

  lemma KeysIgnoreStatus(loads: seq<Load>, l: nat, after: Load)
    requires LoadKeysUnique(loads) && l < |loads| && SameFrozenLoad(loads[l], after)
    ensures LoadKeysUnique(loads[l := after])
  {
    var next := loads[l := after];
    forall i, j | 0 <= i < j < |next| && next[i].externalId.Some?
      ensures !IsLoadKey(next[j], next[i].source, next[i].externalId.value)
    {
      assert !IsLoadKey(loads[j], loads[i].source, loads[i].externalId.value);
    }
  }

  lemma LoadChangedRefs(db: Db, l: nat, after: Load)
    requires Refs(db) && l < |db.loads|
    ensures Refs(db.(loads := db.loads[l := after]))
  {
    var next := db.(loads := db.loads[l := after]);
    forall i | 0 <= i < |db.deals| ensures DealRef(next, db.deals[i]) {
      assert DealRef(db, db.deals[i]);
    }
  }

  lemma LoadChangedLoads(db: Db, l: nat, after: Load)
    requires LoadsInv(db) && l < |db.loads| && LoadInv(after, l, db.matches, db.deals)
    ensures LoadsInv(db.(loads := db.loads[l := after]))
  {
    hide LoadInv;
  }

  /** Rewriting a load's status or payload keeps everything, given the status fits. */
  lemma LoadChanged(db: Db, l: nat, after: Load)
    requires Inv(db) && l < |db.loads| && SameFrozenLoad(db.loads[l], after)
    requires LoadInv(after, l, db.matches, db.deals)
    ensures Inv(db.(loads := db.loads[l := after]))
  {
    hide Refs, LoadsInv, LoadInv, MatchesInv, SamplesInv, UniqueFixes;
    hide LoadKeysUnique, VehicleKeysUnique, CarriersUnique, SameFrozenLoad;
    LoadChangedRefs(db, l, after);
    LoadChangedLoads(db, l, after);
    SamplesIgnoreStatus(db, l, after);
    KeysIgnoreStatus(db.loads, l, after);
    SameMatchesAndDeals(db, db.(loads := db.loads[l := after]));
  }

  // ---------- ingestion ----------

  /** The sample rows that go with a new load: one if it is priced, else none. */
  ghost predicate SamplesFor(l: Load, samples: seq<PriceSample>) {
    if PricedIngested(l)
    then |samples| == 1 && samples[0].source == FromLardi(l.externalId.value)
         && FromThisLoad(samples[0], l.externalId.value, l)
    else samples == []
  }

  /** The state after a new load with the samples that go with it. */
  function WithLoad(db: Db, l: Load, samples: seq<PriceSample>): Db {
    db.(loads := db.loads + [l], samples := db.samples + samples)
  }

  lemma LoadAppendedSamples(db: Db, l: Load, samples: seq<PriceSample>)
    requires SamplesInv(db) && SamplesFor(l, samples)
    ensures SamplesInv(WithLoad(db, l, samples))
  {
    var next := WithLoad(db, l, samples);
    assert next.loads[|db.loads|] == l;
    CountAppend(db.loads, l, PricedIngested);
    forall i | 0 <= i < |next.samples| ensures Provenance(next, next.samples[i]) {
      if i < |db.samples| {
        ProvenanceKept(db, next, db.samples[i]);
      } else {
        assert FromThisLoad(samples[0], l.externalId.value, next.loads[|db.loads|]);
      }
    }
    if samples == [] {
      assert next.samples == db.samples;
    } else {
      assert next.samples == db.samples + [samples[0]];
      CountAppend(db.samples, samples[0], IsLardiSample);
      SamplesKeptByAppend(db.samples, samples[0]);
    }
  }

  /** Nothing refers to a load that is not there yet. */
  lemma LoadAppendedLoads(db: Db, l: Load, samples: seq<PriceSample>)
    requires Refs(db) && LoadsInv(db) && l.status == New
    ensures LoadsInv(WithLoad(db, l, samples))
  {
    var next := WithLoad(db, l, samples).loads;
    assert forall i | 0 <= i < |db.deals| :: DealRef(db, db.deals[i]);
    assert !HasDeal(db.deals, |db.loads|) && !HasMatch(db.matches, |db.loads|);
    forall k | 0 <= k < |next| ensures LoadInv(next[k], k, db.matches, db.deals) {
      assert k < |db.loads| ==> LoadInv(db.loads[k], k, db.matches, db.deals);
    }
  }

  lemma LoadAppendedRefs(db: Db, l: Load, samples: seq<PriceSample>)
    requires Refs(db)
    ensures Refs(WithLoad(db, l, samples))
  {
    var next := WithLoad(db, l, samples);
    forall i | 0 <= i < |db.deals| ensures DealRef(next, db.deals[i]) {
      assert DealRef(db, db.deals[i]);
    }
  }

  lemma LoadAppendedKeys(db: Db, l: Load, samples: seq<PriceSample>)
    requires KeysInv(db)
    requires l.externalId.Some? ==> FindLoad(db.loads, l.source, l.externalId.value).None?
    ensures KeysInv(WithLoad(db, l, samples))
  {
    hide VehicleKeysUnique, CarriersUnique;
    if l.externalId.Some? {
      assert forall i | 0 <= i < |db.loads| :: !IsLoadKey(db.loads[i], l.source, l.externalId.value);
    }
  }

  lemma SameMatchesAndDeals(db: Db, next: Db)
    requires MatchesInv(db) && next.matches == db.matches && next.deals == db.deals
    ensures MatchesInv(next)
  {
    hide PairsUnique, DealHasMatch, HasDealOn;
  }

  lemma LoadAppended(db: Db, l: Load, samples: seq<PriceSample>)
    requires Inv(db) && l.status == New && SamplesFor(l, samples)
    requires l.externalId.Some? ==> FindLoad(db.loads, l.source, l.externalId.value).None?
    ensures Inv(WithLoad(db, l, samples))
  {
    hide Refs, LoadsInv, MatchesInv, SamplesInv, KeysInv, UniqueFixes, SamplesFor;
    LoadAppendedSamples(db, l, samples);
    LoadAppendedLoads(db, l, samples);
    LoadAppendedRefs(db, l, samples);
    LoadAppendedKeys(db, l, samples);
    SameMatchesAndDeals(db, WithLoad(db, l, samples));
  }

  lemma SamplesKeptByAppend(samples: seq<PriceSample>, s: PriceSample)
    ensures forall d: nat :: HasSample(samples, d) || s.source == FromDeal(d) <==> HasSample(samples + [s], d)
  {
    var all := samples + [s];
    assert all[|samples|] == s;
    forall d: nat | HasSample(samples, d) ensures HasSample(all, d) {
      var i :| 0 <= i < |samples| && samples[i].source == FromDeal(d);
      assert all[i].source == FromDeal(d);
    }
  }

  lemma UpsertLoadInv(db: Db, n: LoadProposal, now: int)
    requires Inv(db)
    ensures Inv(UpsertLoad(db, n, now))
  {
    var existing := FindLoad(db.loads, n.source, n.externalId);
    if existing.Some? {
      LoadChanged(db, existing.value, db.loads[existing.value].(payload := n.payload));
    } else {
      LoadAppended(db, NewLoad(n), if IsPriced(n.price, n.currency) then [SampleOf(n, now)] else []);
    }
  }

  lemma {:induction false} UpsertLoadsInv(db: Db, batch: seq<LoadProposal>, now: int)
    requires Inv(db)
    ensures Inv(UpsertLoads(db, batch, now))
  {
    if batch != [] {
      UpsertLoadsInv(db, batch[..|batch| - 1], now);
      UpsertLoadInv(UpsertLoads(db, batch[..|batch| - 1], now), batch[|batch| - 1], now);
    }
  }

  // ---------- changing vehicles ----------

  /** Vehicles change, come and go; those that rows refer to stay, with their carrier. */
  lemma VehiclesChanged(db: Db, next: Db)
    requires Inv(db) && next == db.(vehicles := next.vehicles, carriers := next.carriers)
    requires db.carriers <= next.carriers && CarriersUnique(next.carriers)
    requires VehicleRefs(next) && VehicleKeysUnique(next.vehicles)
    requires |db.vehicles| <= |next.vehicles|
    requires forall v: nat | HasVehicle(db, v) && Referenced(db, v) ::
               HasVehicle(next, v) && next.vehicles[v].value.carrier == db.vehicles[v].value.carrier
    ensures Inv(next)
  {
    forall i | 0 <= i < |db.matches| ensures HasVehicle(next, db.matches[i].vehicle) {
      assert Referenced(db, db.matches[i].vehicle);
    }
    forall i | 0 <= i < |db.deals| ensures DealRef(next, db.deals[i]) {
      assert DealRef(db, db.deals[i]) && Referenced(db, db.deals[i].vehicle);
    }
    forall i | 0 <= i < |db.positions| ensures HasVehicle(next, db.positions[i].vehicle) {
      assert Referenced(db, db.positions[i].vehicle);
    }
    forall i | 0 <= i < |db.samples| ensures Provenance(next, db.samples[i]) {
      ProvenanceKept(db, next, db.samples[i]);
    }
  }

  ghost predicate SameFrozenVehicle(a: Vehicle, b: Vehicle) {
    a.source == b.source && a.externalId == b.externalId && a.carrier == b.carrier && a.company == b.company
  }

  lemma VehicleSet(db: Db, v: nat, after: Vehicle)
    requires Inv(db) && HasVehicle(db, v) && SameFrozenVehicle(db.vehicles[v].value, after)
    ensures Inv(SetVehicle(db, v, after))
  {
    var next := SetVehicle(db, v, after);
    forall i, j | 0 <= i < j < |next.vehicles| && next.vehicles[i].Some? && next.vehicles[i].value.externalId.Some?
      ensures !IsVehicleKey(next.vehicles[j], next.vehicles[i].value.source, next.vehicles[i].value.externalId.value)
    {
      assert !IsVehicleKey(db.vehicles[j], db.vehicles[i].value.source, db.vehicles[i].value.externalId.value);
    }
    VehiclesChanged(db, next);
  }

  lemma VehicleAppended(db: Db, x: Vehicle)
    requires Inv(db)
    requires x.externalId.Some? ==> FindVehicle(db.vehicles, x.source, x.externalId.value).None?
    requires x.carrier.Some? ==> x.carrier.value < |db.carriers|
    ensures Inv(db.(vehicles := db.vehicles + [Some(x)]))
  {
    var next := db.(vehicles := db.vehicles + [Some(x)]);
    assert next.vehicles[|db.vehicles|] == Some(x);
    assert VehicleKeysUnique(next.vehicles) by {
      if x.externalId.Some? {
        assert forall i | 0 <= i < |db.vehicles| :: !IsVehicleKey(db.vehicles[i], x.source, x.externalId.value);
      }
    }
    VehiclesChanged(db, next);
  }

  lemma UpsertVehicleInv(db: Db, n: VehicleProposal)
    requires Inv(db)
    ensures Inv(UpsertVehicle(db, n))
  {
    var existing := FindVehicle(db.vehicles, n.source, n.externalId);
    if existing.Some? {
      VehicleSet(db, existing.value, db.vehicles[existing.value].value.(payload := n.payload));
    } else {
      var known := WithCarrier(db, n);
      assert CarriersUnique(known.carriers);
      VehiclesChanged(db, known);
      VehicleAppended(known, NewVehicle(n, CarrierId(known, n)));
    }
  }

  lemma {:induction false} UpsertVehiclesInv(db: Db, batch: seq<VehicleProposal>)
    requires Inv(db)
    ensures Inv(UpsertVehicles(db, batch))
  {
    if batch != [] {
      UpsertVehiclesInv(db, batch[..|batch| - 1]);
      UpsertVehicleInv(UpsertVehicles(db, batch[..|batch| - 1]), batch[|batch| - 1]);
    }
  }

  lemma DeleteVehicleInv(db: Db, user: User, v: nat)
    requires Inv(db) && DeleteVehicle(db, user, v).Ok?
    ensures Inv(DeleteVehicle(db, user, v).value)
  {
    VehiclesChanged(db, DeleteVehicle(db, user, v).value);
  }

  // ---------- changing matches ----------

  /** A match may be rewritten: same pair, promoted only with a deal, no longer
      promoted only as rejected. */
  ghost predicate MatchFits(deals: seq<Deal>, a: Match, b: Match) {
    && b.load == a.load && b.vehicle == a.vehicle
    && (b.status == Promoted ==> HasDealOn(deals, b.load, b.vehicle))
    && (a.status == Promoted || a.status == Rejected ==> b.status == Promoted || b.status == Rejected)
  }

  ghost predicate MatchesFit(db: Db, next: seq<Match>) {
    |next| == |db.matches| && forall i | 0 <= i < |next| :: MatchFits(db.deals, db.matches[i], next[i])
  }

  lemma SameLoadsMatched(a: seq<Match>, b: seq<Match>, load: nat)
    requires |a| == |b| && forall i | 0 <= i < |a| :: a[i].load == b[i].load
    ensures HasMatch(a, load) <==> HasMatch(b, load)
  {
    if i :| 0 <= i < |a| && a[i].load == load {
      assert b[i].load == load;
    }
    if i :| 0 <= i < |b| && b[i].load == load {
      assert a[i].load == load;
    }
  }

  lemma RewrittenMatches(db: Db, next: seq<Match>)
    requires MatchesInv(db) && MatchesFit(db, next)
    ensures MatchesInv(db.(matches := next))
  {
    forall d | 0 <= d < |db.deals| ensures DealHasMatch(next, db.deals[d]) {
      assert DealHasMatch(db.matches, db.deals[d]);
      var i :| 0 <= i < |db.matches| && IsPair(db.matches[i], db.deals[d].load, db.deals[d].vehicle)
               && (db.matches[i].status == Promoted || db.matches[i].status == Rejected);
      assert MatchFits(db.deals, db.matches[i], next[i]);
    }
    forall i, j | 0 <= i < j < |next| ensures !IsPair(next[j], next[i].load, next[i].vehicle) {
      assert MatchFits(db.deals, db.matches[i], next[i]) && MatchFits(db.deals, db.matches[j], next[j]);
      assert !IsPair(db.matches[j], db.matches[i].load, db.matches[i].vehicle);
    }
  }

  lemma RewrittenLoads(db: Db, next: seq<Match>)
    requires LoadsInv(db) && MatchesFit(db, next)
    ensures LoadsInv(db.(matches := next))
  {
    assert forall i | 0 <= i < |next| ::
        MatchFits(db.deals, db.matches[i], next[i]) ==> next[i].load == db.matches[i].load;
    forall l | 0 <= l < |db.loads| ensures LoadInv(db.loads[l], l, next, db.deals) {
      assert LoadInv(db.loads[l], l, db.matches, db.deals);
      SameLoadsMatched(db.matches, next, l);
    }
  }

  lemma RewrittenRefs(db: Db, next: seq<Match>)
    requires Refs(db) && MatchesFit(db, next)
    ensures Refs(db.(matches := next))
  {
    var after := db.(matches := next);
    forall i | 0 <= i < |next| ensures next[i].load < |after.loads| && HasVehicle(after, next[i].vehicle) {
      assert MatchFits(db.deals, db.matches[i], next[i]);
    }
    assert forall d | 0 <= d < |db.deals| :: DealRef(db, db.deals[d]) ==> DealRef(after, db.deals[d]);
  }

  lemma MatchesRewritten(db: Db, next: seq<Match>)
    requires Inv(db) && MatchesFit(db, next)
    ensures Inv(db.(matches := next))
  {
    hide Refs, LoadsInv, MatchesInv, SamplesInv, MatchesFit;
    RewrittenRefs(db, next);
    RewrittenLoads(db, next);
    RewrittenMatches(db, next);
    SameSamples(db, db.(matches := next));
  }

  lemma MatchChanged(db: Db, m: nat, after: Match)
    requires Inv(db) && m < |db.matches| && MatchFits(db.deals, db.matches[m], after)
    ensures Inv(db.(matches := db.matches[m := after]))
  {
    UntouchedFit(db);
    MatchesRewritten(db, db.matches[m := after]);
  }

  lemma UntouchedFit(db: Db)
    requires Inv(db)
    ensures MatchesFit(db, db.matches)
  {
  }

  /** The loop touches each match once and neither pair nor status. */
  lemma PriceMatchesInv(db: Db, now: int, suggestions: map<nat, Suggestion>)
    requires Inv(db)
    ensures Inv(PriceMatches(db, now, suggestions))
  {
    UntouchedFit(db);
    hide Inv;
    var next := PriceMatches(db, now, suggestions).matches;
    forall i | 0 <= i < |next| ensures MatchFits(db.deals, db.matches[i], next[i]) {
      assert MatchFits(db.deals, db.matches[i], db.matches[i]);
    }
    MatchesRewritten(db, next);
  }

  // ---------- the matcher ----------

  lemma {:induction false} NewMatchesShape(db: Db, load: nat, items: seq<ScoredItem>)
    requires NewMatches(db, load, items).Some?
    ensures forall m | m in NewMatches(db, load, items).value :: m.load == load && m.status == Proposed
  {
    if items != [] {
      NewMatchesShape(db, load, items[..|items| - 1]);
    }
  }

  /** New match rows for one load, which becomes MATCHED. */
  function WithMatches(db: Db, load: nat, rows: seq<Match>): Db
    requires load < |db.loads|
  {
    SetLoadStatus(db, load, Matched).(matches := db.matches + rows)
  }

  lemma MatchesAppendedPairs(db: Db, load: nat, rows: seq<Match>)
    requires MatchesInv(db) && load < |db.loads| && Insertable(db, rows)
    requires forall m | m in rows :: m.load == load && m.status == Proposed
    ensures MatchesInv(WithMatches(db, load, rows))
  {
    var next := WithMatches(db, load, rows);
    forall d | 0 <= d < |db.deals| ensures DealHasMatch(next.matches, db.deals[d]) {
      assert DealHasMatch(db.matches, db.deals[d]);
      DealHasMatchAppend(db.matches, rows, db.deals[d]);
    }
    forall i | 0 <= i < |next.matches| && next.matches[i].status == Promoted
      ensures HasDealOn(next.deals, next.matches[i].load, next.matches[i].vehicle)
    {
      assert forall k | 0 <= k < |rows| :: rows[k] in rows && rows[k].status == Proposed;
      assert i < |db.matches|;
    }
    forall i, j | 0 <= i < j < |next.matches|
      ensures !IsPair(next.matches[j], next.matches[i].load, next.matches[i].vehicle)
    {
      if j < |db.matches| {
        assert !IsPair(db.matches[j], db.matches[i].load, db.matches[i].vehicle);
      } else {
        var b := j - |db.matches|;
        assert Admits(db, MatchRow(rows[b]));
        if i < |db.matches| {
          assert !IsPair(db.matches[i], rows[b].load, rows[b].vehicle);
        } else {
          assert !(rows[i - |db.matches|].load == rows[b].load && rows[i - |db.matches|].vehicle == rows[b].vehicle);
        }
      }
    }
  }

  lemma MatchesAppendedLoads(db: Db, load: nat, rows: seq<Match>)
    requires LoadsInv(db) && load < |db.loads| && (db.loads[load].status == New || db.loads[load].status == Matched)
    requires rows != [] && forall m | m in rows :: m.load == load
    ensures LoadsInv(WithMatches(db, load, rows))
  {
    var next := WithMatches(db, load, rows);
    assert rows[0] in rows;
    assert forall i | 0 <= i < |rows| :: rows[i] in rows;
    forall l | 0 <= l < |db.loads| ensures LoadInv(next.loads[l], l, next.matches, next.deals) {
      assert LoadInv(db.loads[l], l, db.matches, db.deals);
      HasMatchAppend(db.matches, rows, l);
    }
  }

  lemma MatchesAppendedRefs(db: Db, load: nat, rows: seq<Match>)
    requires Refs(db) && load < |db.loads| && Insertable(db, rows)
    ensures Refs(WithMatches(db, load, rows))
  {
    var next := WithMatches(db, load, rows);
    forall i | 0 <= i < |next.matches|
      ensures next.matches[i].load < |next.loads| && HasVehicle(next, next.matches[i].vehicle)
    {
      if i >= |db.matches| {
        assert Admits(db, MatchRow(rows[i - |db.matches|]));
      }
    }
    forall i | 0 <= i < |db.deals| ensures DealRef(next, db.deals[i]) {
      assert DealRef(db, db.deals[i]);
    }
  }

  lemma MatchesAppended(db: Db, load: nat, rows: seq<Match>)
    requires Inv(db) && load < |db.loads| && (db.loads[load].status == New || db.loads[load].status == Matched)
    requires rows != [] && Insertable(db, rows)
    requires forall m | m in rows :: m.load == load && m.status == Proposed
    ensures Inv(WithMatches(db, load, rows))
  {
    hide Refs, LoadsInv, MatchesInv, SamplesInv, UniqueFixes, Insertable;
    hide LoadKeysUnique, VehicleKeysUnique, CarriersUnique;
    var next := WithMatches(db, load, rows);
    var row := db.loads[load].(status := Matched);
    SamplesIgnoreStatus(db, load, row);
    KeysIgnoreStatus(db.loads, load, row);
    MatchesAppendedPairs(db, load, rows);
    MatchesAppendedLoads(db, load, rows);
    MatchesAppendedRefs(db, load, rows);
    SameSamples(db.(loads := next.loads), next);
  }

  /** Samples depend on loads, deals and samples only. */
  lemma SameSamples(db: Db, next: Db)
    requires SamplesInv(db) && next.loads == db.loads && next.deals == db.deals && next.samples == db.samples
    ensures SamplesInv(next)
  {
    forall i | 0 <= i < |db.samples| ensures Provenance(next, db.samples[i]) {
      ProvenanceKept(db, next, db.samples[i]);
    }
  }

  lemma HasMatchAppend(matches: seq<Match>, rows: seq<Match>, load: nat)
    ensures HasMatch(matches + rows, load) <==>
              HasMatch(matches, load) || exists i | 0 <= i < |rows| :: rows[i].load == load
  {
    var all := matches + rows;
    if i :| 0 <= i < |matches| && matches[i].load == load {
      assert all[i].load == load;
    }
    if i :| 0 <= i < |rows| && rows[i].load == load {
      assert all[|matches| + i].load == load;
    }
  }

  lemma DealHasMatchAppend(matches: seq<Match>, rows: seq<Match>, d: Deal)
    requires DealHasMatch(matches, d)
    ensures DealHasMatch(matches + rows, d)
  {
    var i :| 0 <= i < |matches| && IsPair(matches[i], d.load, d.vehicle)
             && (matches[i].status == Promoted || matches[i].status == Rejected);
    assert IsPair((matches + rows)[i], d.load, d.vehicle);
  }

  /** One load's turn keeps everything, and touches the status of no other load. */
  lemma MatchLoadInv(db: Db, load: nat, reply: Option<seq<ScoredItem>>)
    requires Inv(db) && load < |db.loads| && db.loads[load].status == New
    requires MatchLoad(db, load, reply).Ok?
    ensures var next := MatchLoad(db, load, reply).value;
            && Inv(next) && |next.loads| == |db.loads|
            && forall l | 0 <= l < |db.loads| && l != load :: next.loads[l] == db.loads[l]
  {
    if HasCandidate(db, db.loads[load]) {
      var rows := NewMatches(db, load, reply.value).value;
      NewMatchesShape(db, load, reply.value);
      if rows == [] {
        assert db.matches + rows == db.matches;
      } else {
        MatchesAppended(db, load, rows);
      }
    }
  }

  lemma MatchAllOneMore(db: Db, front: seq<nat>, load: nat, replies: map<nat, seq<ScoredItem>>)
    requires InTable(db, front) && InTable(db, front + [load]) && load < |db.loads|
    ensures var (before, total) := MatchAll(db, front, replies);
            MatchAll(db, front + [load], replies).0 ==
            if total.Some? then Settle(before, MatchLoad(before, load, ReplyFor(replies, load))) else before
  {
    hide MatchLoad, InTable;
    var order := front + [load];
    assert order[..|order| - 1] == front;
    assert order[|order| - 1] == load;
  }

  /** The loads whose turn has not come yet are still NEW. */
  lemma {:induction false} MatchAllInv(db: Db, order: seq<nat>, replies: map<nat, seq<ScoredItem>>)
    requires Inv(db) && InTable(db, order) && Distinct(order)
    requires forall i | 0 <= i < |order| :: db.loads[order[i]].status == New
    ensures Inv(MatchAll(db, order, replies).0)
    ensures forall l | 0 <= l < |db.loads| && l !in order :: MatchAll(db, order, replies).0.loads[l] == db.loads[l]
  {
    hide Inv, MatchLoad;
    if order != [] {
      var front, load := order[..|order| - 1], order[|order| - 1];
      assert order == front + [load] && load !in front;
      MatchAllInv(db, front, replies);
      MatchAllOneMore(db, front, load, replies);
      hide MatchAll, Distinct;
      TurnInv(MatchAll(db, front, replies).0, load, ReplyFor(replies, load));
    }
  }

  lemma TurnInv(db: Db, load: nat, reply: Option<seq<ScoredItem>>)
    requires Inv(db) && load < |db.loads| && db.loads[load].status == New
    ensures var next := Settle(db, MatchLoad(db, load, reply));
            && Inv(next) && |next.loads| == |db.loads|
            && forall l | 0 <= l < |db.loads| && l != load :: next.loads[l] == db.loads[l]
  {
    if MatchLoad(db, load, reply).Ok? {
      MatchLoadInv(db, load, reply);
    }
  }

  // ---------- deals ----------

  lemma HasDealAppend(deals: seq<Deal>, d: Deal, load: nat)
    ensures HasDeal(deals + [d], load) <==> HasDeal(deals, load) || d.load == load
  {
    var all := deals + [d];
    assert all[|deals|] == d;
    if i :| 0 <= i < |deals| && deals[i].load == load {
      assert all[i].load == load;
    }
  }

  lemma HasDealOnAppend(deals: seq<Deal>, d: Deal, load: nat, vehicle: nat)
    ensures HasDealOn(deals + [d], load, vehicle) <==> HasDealOn(deals, load, vehicle) || IsDealOn(d, load, vehicle)
  {
    var all := deals + [d];
    assert all[|deals|] == d;
    if i :| 0 <= i < |deals| && IsDealOn(deals[i], load, vehicle) {
      assert IsDealOn(all[i], load, vehicle);
    }
  }

  /** The state after a deal on the pair of match `m`. */
  function WithDeal(db: Db, m: nat, d: Deal): Db
    requires m < |db.matches| && d.load < |db.loads|
  {
    SetLoadStatus(SetMatchStatus(db, m, Promoted), d.load, Booked).(deals := db.deals + [d])
  }

  lemma DealAppendedSamples(db: Db, m: nat, d: Deal)
    requires SamplesInv(db) && m < |db.matches| && d.load < |db.loads| && d.status == DealBooked
    ensures SamplesInv(WithDeal(db, m, d))
  {
    var next := WithDeal(db, m, d);
    CountUpdate(db.loads, d.load, next.loads[d.load], PricedIngested);
    CountAppend(db.deals, d, PricedDelivered);
    forall i | 0 <= i < |db.samples| ensures Provenance(next, db.samples[i]) {
      ProvenanceKept(db, next, db.samples[i]);
    }
  }

  lemma DealAppendedMatches(db: Db, m: nat, d: Deal)
    requires MatchesInv(db) && m < |db.matches| && d.load < |db.loads|
    requires IsPair(db.matches[m], d.load, d.vehicle)
    ensures MatchesInv(WithDeal(db, m, d))
  {
    var next := WithDeal(db, m, d);
    forall k | 0 <= k < |next.deals| ensures DealHasMatch(next.matches, next.deals[k]) {
      if k < |db.deals| {
        assert DealHasMatch(db.matches, db.deals[k]);
        var i :| 0 <= i < |db.matches| && IsPair(db.matches[i], db.deals[k].load, db.deals[k].vehicle)
                 && (db.matches[i].status == Promoted || db.matches[i].status == Rejected);
        assert IsPair(next.matches[i], db.deals[k].load, db.deals[k].vehicle);
      } else {
        assert IsPair(next.matches[m], d.load, d.vehicle);
      }
    }
    forall i | 0 <= i < |next.matches| && next.matches[i].status == Promoted
      ensures HasDealOn(next.deals, next.matches[i].load, next.matches[i].vehicle)
    {
      HasDealOnAppend(db.deals, d, next.matches[i].load, next.matches[i].vehicle);
    }
    forall i, j | 0 <= i < j < |next.matches|
      ensures !IsPair(next.matches[j], next.matches[i].load, next.matches[i].vehicle)
    {
      assert !IsPair(db.matches[j], db.matches[i].load, db.matches[i].vehicle);
    }
  }

  lemma DealAppendedLoads(db: Db, m: nat, d: Deal)
    requires LoadsInv(db) && m < |db.matches| && d.load < |db.loads|
    ensures LoadsInv(WithDeal(db, m, d))
  {
    var next := WithDeal(db, m, d);
    forall l | 0 <= l < |db.loads| ensures LoadInv(next.loads[l], l, next.matches, next.deals) {
      assert LoadInv(db.loads[l], l, db.matches, db.deals);
      SameLoadsMatched(db.matches, next.matches, l);
      HasDealAppend(db.deals, d, l);
    }
  }

  /** A booked deal on a pair whose match is promoted books its load. */
  lemma DealAppended(db: Db, m: nat, d: Deal)
    requires Inv(db) && m < |db.matches|
    requires IsPair(db.matches[m], d.load, d.vehicle) && DealRef(db, d) && d.status == DealBooked
    ensures Inv(WithDeal(db, m, d))
  {
    var next := WithDeal(db, m, d);
    DealAppendedSamples(db, m, d);
    DealAppendedMatches(db, m, d);
    DealAppendedLoads(db, m, d);
    KeysIgnoreStatus(db.loads, d.load, next.loads[d.load]);
    forall k | 0 <= k < |next.deals| ensures DealRef(next, next.deals[k]) {
      assert k < |db.deals| ==> DealRef(db, db.deals[k]);
    }
  }

  lemma PromoteMatchInv(db: Db, user: User, m: nat, price: int, currency: string)
    requires Inv(db) && PromoteMatch(db, user, m, price, currency).Ok?
    ensures Inv(PromoteMatch(db, user, m, price, currency).value)
  {
    var next := PromoteMatch(db, user, m, price, currency).value;
    DealAppended(db, m, next.deals[|db.deals|]);
  }

  /** The proposal's match, as if the matcher had found it, then its deal. */
  lemma BookingInv(db: Db, vehicle: nat, load: nat, price: int, currency: string)
    requires Inv(db) && HasVehicle(db, vehicle) && load < |db.loads| && CanBook(db, vehicle, load)
    requires db.loads[load].status == New || db.loads[load].status == Matched
    ensures Inv(Booking(db, vehicle, load, price, currency))
  {
    var row := Match(load, vehicle, Proposed, 80, None, None);
    assert Insertable(db, [row]);
    MatchesAppended(db, load, [row]);
    hide Inv, Insertable, FindMatch;
    var matched := WithMatches(db, load, [row]);
    var taken := SetVehicleStatus(matched, vehicle, VehicleBooked);
    VehicleSet(matched, vehicle, matched.vehicles[vehicle].value.(status := VehicleBooked));
    DealAppended(taken, |db.matches|, Booking(db, vehicle, load, price, currency).deals[|db.deals|]);
    BookingIsDeal(db, vehicle, load, price, currency);
  }

  lemma ProposeDealInv(db: Db, user: User, vehicle: nat, load: nat, price: int, currency: string)
    requires Inv(db) && ProposeDeal(db, user, vehicle, load, price, currency).Ok?
    ensures Inv(ProposeDeal(db, user, vehicle, load, price, currency).value.0)
  {
    hide Inv, Booking, CanBook;
    if ProposeDeal(db, user, vehicle, load, price, currency).value.0 != db {
      BookingInv(db, vehicle, load, price, currency);
    }
  }

  lemma BookingIsDeal(db: Db, vehicle: nat, load: nat, price: int, currency: string)
    requires HasVehicle(db, vehicle) && load < |db.loads| && CanBook(db, vehicle, load)
    ensures var row := Match(load, vehicle, Proposed, 80, None, None);
            var matched := WithMatches(db, load, [row]);
            var next := Booking(db, vehicle, load, price, currency);
            next == WithDeal(SetVehicleStatus(matched, vehicle, VehicleBooked), |db.matches|, next.deals[|db.deals|])
  {
    var row := Match(load, vehicle, Proposed, 80, None, None);
    var matched := WithMatches(db, load, [row]);
    var next := Booking(db, vehicle, load, price, currency);
    var other := WithDeal(SetVehicleStatus(matched, vehicle, VehicleBooked), |db.matches|, next.deals[|db.deals|]);
    assert next.loads == other.loads;
    assert next.matches == other.matches;
  }

  lemma CarrierNextIsAdminNext(status: DealStatus)
    ensures CarrierNext(status).Some? ==> CarrierNext(status).value in AdminNext(status)
  {
  }

  /** A deal that moves on without a delivery at a price leaves the samples alone. */
  lemma MovedSamples(db: Db, d: nat, status: DealStatus)
    requires SamplesInv(db) && d < |db.deals| && status in AdminNext(db.deals[d].status)
    requires status != Delivered || db.deals[d].price == 0
    ensures SamplesInv(db.(deals := db.deals[d := db.deals[d].(status := status)]))
  {
    var after := db.deals[d].(status := status);
    var next := db.(deals := db.deals[d := after]);
    CountUpdate(db.deals, d, after, PricedDelivered);
    forall i | 0 <= i < |db.samples| ensures Provenance(next, db.samples[i]) {
      ProvenanceKept(db, next, db.samples[i]);
    }
  }

  /** On delivery at a price the deal's one sample is written. */
  lemma DeliveredSamples(db: Db, d: nat, now: int)
    requires SamplesInv(db) && DealRefs(db) && d < |db.deals|
    requires db.deals[d].status == InTransit && db.deals[d].price != 0
    ensures SamplesInv(Advanced(db, d, Delivered, now))
  {
    var next := Advanced(db, d, Delivered, now);
    var sample := DealSample(db, d, now);
    assert DealRef(db, db.deals[d]);
    assert next.samples == db.samples + [sample];
    DeliveredProvenance(db, d, now);
    CountUpdate(db.deals, d, next.deals[d], PricedDelivered);
    CountAppend(db.samples, sample, IsLardiSample);
    SamplesKeptByAppend(db.samples, sample);
    OneSampleAppend(db.samples, d, sample);
    forall k | 0 <= k < |next.deals| && PricedDelivered(next.deals[k]) ensures HasSample(next.samples, k) {
      assert k != d ==> HasSample(db.samples, k);
    }
  }

  lemma OneSampleAppend(samples: seq<PriceSample>, d: nat, s: PriceSample)
    requires OneSamplePerDeal(samples) && s.source == FromDeal(d)
    requires forall i | 0 <= i < |samples| :: samples[i].source != FromDeal(d)
    ensures OneSamplePerDeal(samples + [s])
  {
  }

  lemma DeliveredProvenance(db: Db, d: nat, now: int)
    requires SamplesInv(db) && d < |db.deals| && db.deals[d].load < |db.loads|
    requires db.deals[d].status == InTransit && db.deals[d].price != 0
    ensures var next := Advanced(db, d, Delivered, now);
            && (forall i | 0 <= i < |next.samples| :: Provenance(next, next.samples[i]))
            && (forall i | 0 <= i < |db.samples| :: db.samples[i].source != FromDeal(d))
  {
    var next := Advanced(db, d, Delivered, now);
    forall i | 0 <= i < |next.samples| ensures Provenance(next, next.samples[i]) {
      if i < |db.samples| {
        ProvenanceKept(db, next, db.samples[i]);
      } else {
        assert FromThisDeal(next, next.samples[i], d);
      }
    }
    forall i | 0 <= i < |db.samples| ensures db.samples[i].source != FromDeal(d) {
      assert Provenance(db, db.samples[i]);
    }
  }

  lemma AdvancedLoads(db: Db, d: nat, status: DealStatus, now: int)
    requires LoadsInv(db) && MatchesInv(db) && d < |db.deals|
    ensures LoadsInv(Advanced(db, d, status, now)) && MatchesInv(Advanced(db, d, status, now))
  {
    var next := Advanced(db, d, status, now);
    forall l | 0 <= l < |db.loads| ensures LoadInv(db.loads[l], l, next.matches, next.deals) {
      assert LoadInv(db.loads[l], l, db.matches, db.deals);
      SameLoadsDealt(db.deals, next.deals, l);
    }
    forall k | 0 <= k < |next.deals| ensures DealHasMatch(next.matches, next.deals[k]) {
      assert DealHasMatch(db.matches, db.deals[k]);
    }
    forall i | 0 <= i < |next.matches| && next.matches[i].status == Promoted
      ensures HasDealOn(next.deals, next.matches[i].load, next.matches[i].vehicle)
    {
      var k :| 0 <= k < |db.deals| && IsDealOn(db.deals[k], next.matches[i].load, next.matches[i].vehicle);
      assert IsDealOn(next.deals[k], next.matches[i].load, next.matches[i].vehicle);
    }
  }

  lemma AdvanceAllowed(db: Db, user: User, d: nat, status: DealStatus, now: int)
    requires AdvanceDeal(db, user, d, status, now).Ok?
    ensures d < |db.deals| && status in AdminNext(db.deals[d].status)
    ensures AdvanceDeal(db, user, d, status, now).value == Advanced(db, d, status, now)
  {
    CarrierNextIsAdminNext(db.deals[d].status);
  }

  lemma AdvancedSamples(db: Db, d: nat, status: DealStatus, now: int)
    requires SamplesInv(db) && DealRefs(db) && d < |db.deals| && status in AdminNext(db.deals[d].status)
    ensures SamplesInv(Advanced(db, d, status, now))
  {
    if status == Delivered && db.deals[d].price != 0 {
      DeliveredSamples(db, d, now);
    } else {
      MovedSamples(db, d, status);
    }
  }

  lemma AdvancedRefs(db: Db, d: nat, status: DealStatus, now: int)
    requires Refs(db) && d < |db.deals|
    ensures Refs(Advanced(db, d, status, now))
  {
    var next := Advanced(db, d, status, now);
    forall k | 0 <= k < |next.deals| ensures DealRef(next, next.deals[k]) {
      assert DealRef(db, db.deals[k]);
    }
  }

  lemma AdvancedInv(db: Db, d: nat, status: DealStatus, now: int)
    requires Inv(db) && d < |db.deals| && status in AdminNext(db.deals[d].status)
    ensures Inv(Advanced(db, d, status, now))
  {
    AdvancedRefs(db, d, status, now);
    AdvancedLoads(db, d, status, now);
    AdvancedSamples(db, d, status, now);
  }

  lemma SameLoadsDealt(a: seq<Deal>, b: seq<Deal>, load: nat)
    requires |a| == |b| && forall i | 0 <= i < |a| :: a[i].load == b[i].load
    ensures HasDeal(a, load) <==> HasDeal(b, load)
  {
    if i :| 0 <= i < |a| && a[i].load == load {
      assert b[i].load == load;
    }
    if i :| 0 <= i < |b| && b[i].load == load {
      assert a[i].load == load;
    }
  }

  // ---------- positions ----------

  lemma PollRefs(db: Db, query: seq<nat>, reply: seq<Fix>)
    requires PositionRefs(db)
    ensures PositionRefs(Poll(db, query, reply))
  {
    var next := Poll(db, query, reply);
    var owners, fixes := Owners(db, query), ByDevice(reply);
    OwnersShape(db, query);
    NewPositionsShape(db, owners, fixes);
    forall i | 0 <= i < |next.positions| ensures HasVehicle(next, next.positions[i].vehicle) {
      if i >= |db.positions| {
        assert Records(db, owners, fixes, NewPositions(db, owners, fixes)[i - |db.positions|]);
      }
    }
  }

  lemma PollInv(db: Db, query: seq<nat>, reply: seq<Fix>)
    requires Inv(db)
    ensures Inv(Poll(db, query, reply))
  {
    PollKeepsUnique(db, query, reply);
    PollRefs(db, query, reply);
    SameTables(db, Poll(db, query, reply));
  }

  /** Nothing but positions and feedback differs. */
  lemma SameTables(db: Db, next: Db)
    requires Inv(db) && next == db.(positions := next.positions, feedback := next.feedback)
    requires PositionRefs(next) && UniqueFixes(next.positions) && FeedbackRefs(next)
    ensures Inv(next)
  {
    SameSamples(db, next);
    forall i | 0 <= i < |db.deals| ensures DealRef(next, db.deals[i]) {
      assert DealRef(db, db.deals[i]);
    }
  }

  lemma RateMatchInv(db: Db, user: User, m: nat, verdict: Verdict)
    requires Inv(db) && RateMatch(db, user, m, verdict).Ok?
    ensures Inv(RateMatch(db, user, m, verdict).value)
  {
    var rated := db.(feedback := db.feedback[(m, user.id) := verdict]);
    SameTables(db, rated);
    if db.matches[m].status == Proposed {
      MatchChanged(rated, m, db.matches[m].(status := Reviewed));
    }
  }

  lemma LoadCancelled(db: Db, l: nat)
    requires Inv(db) && l < |db.loads| && db.loads[l].status != Booked
    ensures Inv(SetLoadStatus(db, l, Cancelled))
  {
    assert LoadInv(db.loads[l], l, db.matches, db.deals);
    LoadChanged(db, l, db.loads[l].(status := Cancelled));
  }

  // ---------- every step ----------

  lemma IngestLoadsStep(db: Db, step: Step)
    requires Inv(db) && step.IngestLoads?
    ensures Inv(Apply(db, step))
  {
    hide Inv;
    UpsertLoadsInv(db, step.loadBatch, step.now);
  }

  lemma IngestVehiclesStep(db: Db, step: Step)
    requires Inv(db) && step.IngestVehicles?
    ensures Inv(Apply(db, step))
  {
    hide Inv;
    UpsertVehiclesInv(db, step.vehicleBatch);
  }

  lemma PostStep(db: Db, step: Step)
    requires Inv(db) && step.Post?
    ensures Inv(Apply(db, step))
  {
    hide Inv;
    if PostLoad(db, step.user, step.form).Ok? {
      LoadAppended(db, PlatformLoad(step.user, step.form), []);
      assert db.samples + [] == db.samples;
    }
  }

  lemma CancelStep(db: Db, step: Step)
    requires Inv(db) && step.Cancel?
    ensures Inv(Apply(db, step))
  {
    hide Inv;
    if CancelLoad(db, step.user, step.load).Ok? {
      LoadCancelled(db, step.load);
    }
  }

  lemma RunMatcherStep(db: Db, step: Step)
    requires Inv(db) && step.RunMatcher?
    ensures Inv(Apply(db, step))
  {
    hide Inv;
    if ListsNewLoads(db, step.order) {
      assert forall i | 0 <= i < |step.order| :: step.order[i] in step.order;
      MatchAllInv(db, step.order, step.replies);
    }
  }

  lemma RejectStep(db: Db, step: Step)
    requires Inv(db) && step.Reject?
    ensures Inv(Apply(db, step))
  {
    hide Inv;
    if step.m < |db.matches| {
      MatchChanged(db, step.m, db.matches[step.m].(status := Rejected));
    }
  }

  lemma RateStep(db: Db, step: Step)
    requires Inv(db) && step.Rate?
    ensures Inv(Apply(db, step))
  {
    hide Inv;
    if RateMatch(db, step.user, step.m, step.verdict).Ok? {
      RateMatchInv(db, step.user, step.m, step.verdict);
    }
  }

  lemma RunPricingStep(db: Db, step: Step)
    requires Inv(db) && step.RunPricing?
    ensures Inv(Apply(db, step))
  {
    hide Inv;
    PriceMatchesInv(db, step.now, step.suggestions);
  }

  lemma PromoteStep(db: Db, step: Step)
    requires Inv(db) && step.Promote?
    ensures Inv(Apply(db, step))
  {
    hide Inv;
    if PromoteMatch(db, step.user, step.m, step.price, step.currency).Ok? {
      PromoteMatchInv(db, step.user, step.m, step.price, step.currency);
    }
  }

  lemma ProposeStep(db: Db, step: Step)
    requires Inv(db) && step.Propose?
    ensures Inv(Apply(db, step))
  {
    hide Inv;
    if ProposeDeal(db, step.user, step.vehicle, step.load, step.price, step.currency).Ok? {
      ProposeDealInv(db, step.user, step.vehicle, step.load, step.price, step.currency);
    }
  }

  lemma AdvanceStep(db: Db, step: Step)
    requires Inv(db) && step.Advance?
    ensures Inv(Apply(db, step))
  {
    hide Inv;
    if AdvanceDeal(db, step.user, step.deal, step.dealStatus, step.now).Ok? {
      AdvanceAllowed(db, step.user, step.deal, step.dealStatus, step.now);
      AdvancedInv(db, step.deal, step.dealStatus, step.now);
    }
  }

  lemma RegisterStep(db: Db, step: Step)
    requires Inv(db) && step.Register?
    ensures Inv(Apply(db, step))
  {
    hide Inv;
    var r := RegisterVehicle(db, step.user, step.plate, step.bodyType, step.capacity, step.device);
    if r.Ok? {
      VehicleAppended(db, r.value.vehicles[|db.vehicles|].value);
    }
  }

  lemma EditStep(db: Db, step: Step)
    requires Inv(db) && step.Edit?
    ensures Inv(Apply(db, step))
  {
    hide Inv;
    var r := EditVehicle(db, step.user, step.vehicle, step.plate, step.bodyType, step.capacity, step.vehicleStatus);
    if r.Ok? {
      VehicleSet(db, step.vehicle, r.value.vehicles[step.vehicle].value);
    }
  }

  lemma LinkStep(db: Db, step: Step)
    requires Inv(db) && step.Link?
    ensures Inv(Apply(db, step))
  {
    hide Inv;
    if LinkDevice(db, step.user, step.vehicle, step.server).Ok? {
      VehicleSet(db, step.vehicle, db.vehicles[step.vehicle].value.(device := Some(step.server.device)));
    }
  }

  lemma DeleteStep(db: Db, step: Step)
    requires Inv(db) && step.Delete?
    ensures Inv(Apply(db, step))
  {
    hide Inv;
    if DeleteVehicle(db, step.user, step.vehicle).Ok? {
      DeleteVehicleInv(db, step.user, step.vehicle);
    }
  }

  lemma PollGpsStep(db: Db, step: Step)
    requires Inv(db) && step.PollGps?
    ensures Inv(Apply(db, step))
  {
    hide Inv, Poll;
    PollInv(db, step.query, step.reply);
  }

  lemma StepInv(db: Db, step: Step)
    requires Inv(db)
    ensures Inv(Apply(db, step))
  {
    hide Inv, Apply;
    match step
    case IngestLoads(_, _) => IngestLoadsStep(db, step);
    case IngestVehicles(_) => IngestVehiclesStep(db, step);
    case Post(_, _) => PostStep(db, step);
    case Cancel(_, _) => CancelStep(db, step);
    case RunMatcher(_, _) => RunMatcherStep(db, step);
    case Reject(_) => RejectStep(db, step);
    case Rate(_, _, _) => RateStep(db, step);
    case RunPricing(_, _) => RunPricingStep(db, step);
    case Promote(_, _, _, _) => PromoteStep(db, step);
    case Propose(_, _, _, _, _) => ProposeStep(db, step);
    case Advance(_, _, _, _) => AdvanceStep(db, step);
    case Register(_, _, _, _, _) => RegisterStep(db, step);
    case Edit(_, _, _, _, _, _) => EditStep(db, step);
    case Link(_, _, _) => LinkStep(db, step);
    case Delete(_, _) => DeleteStep(db, step);
    case PollGps(_, _) => PollGpsStep(db, step);
  }

  /** The tables agree in every reachable state. */
  lemma {:induction false} RunInv(steps: seq<Step>)
    ensures Inv(Run(EMPTY, steps))
  {
    if steps == [] {
      EmptyInv();
    } else {
      RunInv(steps[..|steps| - 1]);
      StepInv(Run(EMPTY, steps[..|steps| - 1]), steps[|steps| - 1]);
    }
  }
}
