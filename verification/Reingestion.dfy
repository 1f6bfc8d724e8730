/** What a committed batch leaves behind, row by row, and what ingesting it once
    more does. */
module Reingestion {
  import opened Wrappers
  import opened Tables
  import opened Ingestion
  import opened Lifecycle
  import opened Invariants

  /** The last proposal of the batch with the given key. */
  function LastWith(batch: seq<LoadProposal>, source: string, externalId: string): Option<LoadProposal> {
    if batch == [] then None
    else if HasLoadKey(batch[|batch| - 1], source, externalId) then Some(batch[|batch| - 1])
    else LastWith(batch[..|batch| - 1], source, externalId)
  }

  function LastFor(batch: seq<LoadProposal>, l: Load): Option<LoadProposal> {
    if l.externalId.Some? then LastWith(batch, l.source, l.externalId.value) else None
  }

  /** The row with the payload of the last proposal for it, if there is one. */
  function Refreshed(batch: seq<LoadProposal>, l: Load): Load {
    if LastFor(batch, l).Some? then l.(payload := LastFor(batch, l).value.payload) else l
  }

  /** A row added by the batch: a proposal's row, with the last payload for its key. */
  ghost predicate IsAdded(batch: seq<LoadProposal>, l: Load) {
    exists k | 0 <= k < |batch| :: SameFrozenLoad(NewLoad(batch[k]), l) && l == Refreshed(batch, l) && l.status == New
  }

  lemma LastOneMore(batch: seq<LoadProposal>, n: LoadProposal, l: Load)
    ensures LastFor(batch + [n], l) == if IsLoadKey(l, n.source, n.externalId) then Some(n) else LastFor(batch, l)
  {
    assert (batch + [n])[..|batch + [n]| - 1] == batch;
  }

  lemma {:induction false} LastWithFinds(batch: seq<LoadProposal>, k: nat)
    requires k < |batch|
    ensures LastWith(batch, batch[k].source, batch[k].externalId).Some?
  {
    if k < |batch| - 1 {
      LastWithFinds(batch[..|batch| - 1], k);
    }
  }

  ghost predicate RowsAfter(db: Db, batch: seq<LoadProposal>, after: Db) {
    && |db.loads| <= |after.loads|
    && (forall i | 0 <= i < |db.loads| :: after.loads[i] == Refreshed(batch, db.loads[i]))
    && (forall i | |db.loads| <= i < |after.loads| :: IsAdded(batch, after.loads[i]))
  }

  lemma AddedOneMore(batch: seq<LoadProposal>, n: LoadProposal, l: Load)
    requires IsAdded(batch, l)
    ensures IsAdded(batch + [n], if IsLoadKey(l, n.source, n.externalId) then l.(payload := n.payload) else l)
  {
    var k :| 0 <= k < |batch| && SameFrozenLoad(NewLoad(batch[k]), l) && l == Refreshed(batch, l) && l.status == New;
    var all := batch + [n];
    var m := if IsLoadKey(l, n.source, n.externalId) then l.(payload := n.payload) else l;
    LastOneMore(batch, n, m);
    LastOneMore(batch, n, l);
    assert all[k] == batch[k] && SameFrozenLoad(NewLoad(all[k]), m) && m == Refreshed(all, m);
  }

  lemma RowsOneMore(db: Db, batch: seq<LoadProposal>, before: Db, n: LoadProposal, now: int)
    requires RowsAfter(db, batch, before) && LoadKeysUnique(before.loads)
    ensures RowsAfter(db, batch + [n], UpsertLoad(before, n, now))
  {
    var all, after := batch + [n], UpsertLoad(before, n, now);
    assert all[|batch|] == n;
    var existing := FindLoad(before.loads, n.source, n.externalId);
    forall i | 0 <= i < |before.loads|
      ensures after.loads[i] == if IsLoadKey(before.loads[i], n.source, n.externalId)
                                then before.loads[i].(payload := n.payload) else before.loads[i]
    {
      if IsLoadKey(before.loads[i], n.source, n.externalId) {
        KeyOnce(before.loads, i, existing.value, n.source, n.externalId);
      }
    }
    forall i | 0 <= i < |db.loads| ensures after.loads[i] == Refreshed(all, db.loads[i]) {
      LastOneMore(batch, n, db.loads[i]);
    }
    forall i | |db.loads| <= i < |after.loads| ensures IsAdded(all, after.loads[i]) {
      if i < |before.loads| {
        AddedOneMore(batch, n, before.loads[i]);
      } else {
        LastOneMore(batch, n, NewLoad(n));
        assert SameFrozenLoad(NewLoad(all[|batch|]), after.loads[i]);
      }
    }
  }

  lemma KeyOnce(loads: seq<Load>, i: nat, j: nat, source: string, externalId: string)
    requires LoadKeysUnique(loads) && i < |loads| && j < |loads|
    requires IsLoadKey(loads[i], source, externalId) && IsLoadKey(loads[j], source, externalId)
    ensures i == j
  {
  }

  /** After the upserts every old row keeps all columns but the payload, which is
      that of the last proposal for it, and every new row is a proposal's. */
  lemma {:induction false} RowsAfterBatch(db: Db, batch: seq<LoadProposal>, now: int)
    requires Inv(db)
    ensures RowsAfter(db, batch, UpsertLoads(db, batch, now))
  {
    if batch != [] {
      var front, n := batch[..|batch| - 1], batch[|batch| - 1];
      assert front + [n] == batch;
      RowsAfterBatch(db, front, now);
      KeysAfterBatch(db, front, now);
      hide RowsAfter, LoadKeysUnique, UpsertLoad, Inv;
      RowsOneMore(db, front, UpsertLoads(db, front, now), n, now);
    } else {
      RowsAtStart(db);
    }
  }

  lemma RowsAtStart(db: Db)
    ensures RowsAfter(db, [], db)
  {
  }

  lemma KeysAfterBatch(db: Db, batch: seq<LoadProposal>, now: int)
    requires Inv(db)
    ensures LoadKeysUnique(UpsertLoads(db, batch, now).loads)
  {
    UpsertLoadsInv(db, batch, now);
  }

  /** If the database knows every key of the batch, no row and no sample is added
      and nothing but loads is touched. */
  lemma {:induction false} NothingAdded(db: Db, batch: seq<LoadProposal>, now: int)
    requires forall k | 0 <= k < |batch| :: FindLoad(db.loads, batch[k].source, batch[k].externalId).Some?
    ensures var after := UpsertLoads(db, batch, now);
            |after.loads| == |db.loads| && after == db.(loads := after.loads)
  {
    if batch != [] {
      var front, n := batch[..|batch| - 1], batch[|batch| - 1];
      assert forall k | 0 <= k < |front| :: front[k] == batch[k];
      NothingAdded(db, front, now);
      UpsertLoadsFinds(db, front, now, n.source, n.externalId);
    }
  }

  lemma AllLoadsKnown(db: Db, batch: seq<LoadProposal>, now: int)
    ensures forall k | 0 <= k < |batch| ::
              FindLoad(UpsertLoads(db, batch, now).loads, batch[k].source, batch[k].externalId).Some?
  {
    forall k | 0 <= k < |batch|
      ensures FindLoad(UpsertLoads(db, batch, now).loads, batch[k].source, batch[k].externalId).Some?
    {
      UpsertLoadsFinds(db, batch, now, batch[k].source, batch[k].externalId);
      assert HasLoadKey(batch[k], batch[k].source, batch[k].externalId);
    }
  }

  lemma RefreshedLoadTwice(batch: seq<LoadProposal>, l: Load)
    ensures Refreshed(batch, Refreshed(batch, l)) == Refreshed(batch, l)
  {
  }

  /** Rows that carry the last payloads already do not notice a second batch. */
  lemma SameLoadsAgain(db: Db, batch: seq<LoadProposal>, after: Db, again: Db)
    requires RowsAfter(db, batch, after) && RowsAfter(after, batch, again)
    requires |again.loads| == |after.loads| && again == after.(loads := again.loads)
    ensures again == after
  {
    hide Refreshed;
    forall i | 0 <= i < |after.loads| ensures again.loads[i] == after.loads[i] {
      assert again.loads[i] == Refreshed(batch, after.loads[i]);
      if i < |db.loads| {
        RefreshedLoadTwice(batch, db.loads[i]);
      } else {
        assert IsAdded(batch, after.loads[i]);
      }
    }
    assert again.loads == after.loads;
  }

  /** Ingesting a committed batch again commits, counts no new row, and leaves the
      database exactly as it was. */
  lemma ReingestionChangesNothing(steps: seq<Step>, batch: seq<LoadProposal>, now: int, later: int)
    requires LoadBatchOk(Run(EMPTY, steps), batch)
    ensures var after := Apply(Run(EMPTY, steps), IngestLoads(batch, now));
            && RowsAfter(Run(EMPTY, steps), batch, after)
            && LoadBatchOk(after, batch)
            && Apply(after, IngestLoads(batch, later)) == after
  {
    RunInv(steps);
    var db := Run(EMPTY, steps);
    var after := UpsertLoads(db, batch, now);
    UpsertLoadsInv(db, batch, now);
    hide Run, Inv, UpsertLoads, RowsAfter, FindLoad;
    RowsAfterBatch(db, batch, now);
    RowsAfterBatch(after, batch, later);
    AllLoadsKnown(db, batch, now);
    NothingAdded(after, batch, later);
    SameLoadsAgain(db, batch, after, UpsertLoads(after, batch, later));
  }

  /** The proposal at `j` is the last of the batch with the key. */
  ghost predicate IsLastLoad(batch: seq<LoadProposal>, j: nat, source: string, externalId: string) {
    && j < |batch| && batch[j].source == source && batch[j].externalId == externalId
    && forall m | j < m < |batch| :: !(batch[m].source == source && batch[m].externalId == externalId)
  }

  lemma {:induction false} LastWithMeans(batch: seq<LoadProposal>, j: nat, source: string, externalId: string)
    requires IsLastLoad(batch, j, source, externalId)
    ensures LastWith(batch, source, externalId) == Some(batch[j])
  {
    if j < |batch| - 1 {
      var front := batch[..|batch| - 1];
      assert !HasLoadKey(batch[|batch| - 1], source, externalId);
      assert forall m | 0 <= m < |front| :: front[m] == batch[m];
      LastWithMeans(front, j, source, externalId);
    }
  }

  lemma {:induction false} LastWithNone(batch: seq<LoadProposal>, source: string, externalId: string)
    requires forall m | 0 <= m < |batch| :: !(batch[m].source == source && batch[m].externalId == externalId)
    ensures LastWith(batch, source, externalId).None?
  {
    if batch != [] {
      assert !HasLoadKey(batch[|batch| - 1], source, externalId);
      LastWithNone(batch[..|batch| - 1], source, externalId);
    }
  }

  /** A row that was there keeps every column but the payload, and any row the batch
      has proposals for ends with the payload of the last of them. */
  lemma PayloadsAfterBatch(
      db: Db, batch: seq<LoadProposal>, now: int, i: nat, j: nat, source: string, externalId: string)
    requires Inv(db) && i < |UpsertLoads(db, batch, now).loads|
    requires IsLoadKey(UpsertLoads(db, batch, now).loads[i], source, externalId)
    ensures var row := UpsertLoads(db, batch, now).loads[i];
            && (i < |db.loads| ==> row == db.loads[i].(payload := row.payload))
            && (IsLastLoad(batch, j, source, externalId) ==> row.payload == batch[j].payload)
            && ((forall m | 0 <= m < |batch| :: !(batch[m].source == source && batch[m].externalId == externalId)) ==>
                  i < |db.loads| && row == db.loads[i])
  {
    RowsAfterBatch(db, batch, now);
    var row := UpsertLoads(db, batch, now).loads[i];
    hide Inv, UpsertLoads;
    if i >= |db.loads| {
      assert IsAdded(batch, row);
      var k :| 0 <= k < |batch| && SameFrozenLoad(NewLoad(batch[k]), row) && row == Refreshed(batch, row);
      assert batch[k].source == source && batch[k].externalId == externalId;
    }
    if IsLastLoad(batch, j, source, externalId) {
      LastWithMeans(batch, j, source, externalId);
    }
    if forall m | 0 <= m < |batch| :: !(batch[m].source == source && batch[m].externalId == externalId) {
      LastWithNone(batch, source, externalId);
    }
  }

  // ---------- vehicles ----------

  function LastVehicleWith(batch: seq<VehicleProposal>, source: string, externalId: string): Option<VehicleProposal> {
    if batch == [] then None
    else if HasVehicleKey(batch[|batch| - 1], source, externalId) then Some(batch[|batch| - 1])
    else LastVehicleWith(batch[..|batch| - 1], source, externalId)
  }

  function LastVehicleFor(batch: seq<VehicleProposal>, v: Option<Vehicle>): Option<VehicleProposal> {
    if v.Some? && v.value.externalId.Some? then LastVehicleWith(batch, v.value.source, v.value.externalId.value)
    else None
  }

  function RefreshedVehicle(batch: seq<VehicleProposal>, v: Option<Vehicle>): Option<Vehicle> {
    if LastVehicleFor(batch, v).Some? then Some(v.value.(payload := LastVehicleFor(batch, v).value.payload)) else v
  }

  /** The proposal's row with the last payload for its key; its carrier is the one
      with the proposal's Lardi user id, which exists if the proposal names one. */
  ghost predicate IsRowOf(batch: seq<VehicleProposal>, after: Db, n: VehicleProposal, v: Option<Vehicle>) {
    && v == RefreshedVehicle(batch, Some(NewVehicle(n, CarrierId(after, n))))
    && (CarrierKey(n).Some? ==> CarrierId(after, n).Some?)
  }

  /** A row added by the batch comes from the first proposal with its key. */
  ghost predicate IsAddedVehicle(db: Db, batch: seq<VehicleProposal>, after: Db, v: Option<Vehicle>) {
    exists k | 0 <= k < |batch| :: FirstNew(db, batch, k) && IsRowOf(batch, after, batch[k], v)
  }

  ghost predicate VehicleRowsAfter(db: Db, batch: seq<VehicleProposal>, after: Db) {
    && |db.vehicles| <= |after.vehicles|
    && (forall i | 0 <= i < |db.vehicles| :: after.vehicles[i] == RefreshedVehicle(batch, db.vehicles[i]))
    && (forall i | |db.vehicles| <= i < |after.vehicles| :: IsAddedVehicle(db, batch, after, after.vehicles[i]))
    && after == db.(vehicles := after.vehicles, carriers := after.carriers)
  }

  lemma LastVehicleOneMore(batch: seq<VehicleProposal>, n: VehicleProposal, v: Option<Vehicle>)
    ensures LastVehicleFor(batch + [n], v) ==
            if IsVehicleKey(v, n.source, n.externalId) then Some(n) else LastVehicleFor(batch, v)
  {
    assert (batch + [n])[..|batch + [n]| - 1] == batch;
  }

  function RefreshedBy(n: VehicleProposal, v: Option<Vehicle>): Option<Vehicle> {
    if IsVehicleKey(v, n.source, n.externalId) then Some(v.value.(payload := n.payload)) else v
  }

  lemma RefreshedOneMore(batch: seq<VehicleProposal>, n: VehicleProposal, v: Option<Vehicle>)
    ensures RefreshedVehicle(batch + [n], v) == RefreshedBy(n, RefreshedVehicle(batch, v))
  {
    LastVehicleOneMore(batch, n, v);
  }

  lemma CarrierIdKept(a: Db, b: Db, n: VehicleProposal)
    requires a.carriers <= b.carriers && CarrierId(a, n).Some?
    ensures CarrierId(b, n) == CarrierId(a, n)
  {
    var i := CarrierId(a, n).value;
    assert forall k | 0 <= k <= i :: a.carriers[k] == b.carriers[k];
  }

  lemma AddedVehicleOneMore(
      db: Db, batch: seq<VehicleProposal>, before: Db, after: Db, n: VehicleProposal, v: Option<Vehicle>)
    requires IsAddedVehicle(db, batch, before, v) && before.carriers <= after.carriers
    ensures IsAddedVehicle(db, batch + [n], after, RefreshedBy(n, v))
  {
    var k :| 0 <= k < |batch| && FirstNew(db, batch, k) && IsRowOf(batch, before, batch[k], v);
    var all := batch + [n];
    PrefixStable(db, batch, n);
    assert all[k] == batch[k];
    if CarrierKey(batch[k]).Some? {
      CarrierIdKept(before, after, batch[k]);
    }
    RefreshedOneMore(batch, n, Some(NewVehicle(batch[k], CarrierId(after, batch[k]))));
    assert FirstNew(db, all, k) && IsRowOf(all, after, all[k], RefreshedBy(n, v));
  }

  lemma VehicleKeyOnce(vehicles: seq<Option<Vehicle>>, i: nat, j: nat, source: string, externalId: string)
    requires VehicleKeysUnique(vehicles) && i < |vehicles| && j < |vehicles|
    requires IsVehicleKey(vehicles[i], source, externalId) && IsVehicleKey(vehicles[j], source, externalId)
    ensures i == j
  {
  }

  /** One upsert refreshes the row with the proposal's key and no other. */
  lemma UpsertVehicleRows(before: Db, n: VehicleProposal)
    requires VehicleKeysUnique(before.vehicles)
    ensures var after := UpsertVehicle(before, n);
            && |before.vehicles| <= |after.vehicles| && before.carriers <= after.carriers
            && (forall i | 0 <= i < |before.vehicles| :: after.vehicles[i] == RefreshedBy(n, before.vehicles[i]))
            && after == before.(vehicles := after.vehicles, carriers := after.carriers)
  {
    var after := UpsertVehicle(before, n);
    var existing := FindVehicle(before.vehicles, n.source, n.externalId);
    forall i | 0 <= i < |before.vehicles| ensures after.vehicles[i] == RefreshedBy(n, before.vehicles[i]) {
      if IsVehicleKey(before.vehicles[i], n.source, n.externalId) {
        VehicleKeyOnce(before.vehicles, i, existing.value, n.source, n.externalId);
      }
    }
  }

  /** The row a new key adds. */
  lemma AddedVehicleIsNew(db: Db, batch: seq<VehicleProposal>, n: VehicleProposal)
    ensures var before, all := UpsertVehicles(db, batch), batch + [n];
            var after := UpsertVehicle(before, n);
            |after.vehicles| > |before.vehicles| ==>
              && |after.vehicles| == |before.vehicles| + 1
              && IsAddedVehicle(db, all, after, after.vehicles[|before.vehicles|])
  {
    var before, all := UpsertVehicles(db, batch), batch + [n];
    var after := UpsertVehicle(before, n);
    if FindVehicle(before.vehicles, n.source, n.externalId).None? {
      FirstNewAtEnd(db, batch, n);
      if CarrierKey(n).Some? {
        WithCarrierFinds(before, n, CarrierKey(n).value);
      }
      var row := Some(NewVehicle(n, CarrierId(after, n)));
      LastVehicleOneMore(batch, n, row);
      assert all[|batch|] == n && IsRowOf(all, after, all[|batch|], row);
    }
  }

  lemma VehicleRowsOneMore(db: Db, batch: seq<VehicleProposal>, n: VehicleProposal)
    requires var before := UpsertVehicles(db, batch);
             VehicleRowsAfter(db, batch, before) && VehicleKeysUnique(before.vehicles)
    ensures VehicleRowsAfter(db, batch + [n], UpsertVehicle(UpsertVehicles(db, batch), n))
  {
    var before, all := UpsertVehicles(db, batch), batch + [n];
    var after := UpsertVehicle(before, n);
    UpsertVehicleRows(before, n);
    AddedVehicleIsNew(db, batch, n);
    hide UpsertVehicle, UpsertVehicles, VehicleKeysUnique, IsAddedVehicle, RefreshedVehicle, RefreshedBy;
    forall i | 0 <= i < |db.vehicles| ensures after.vehicles[i] == RefreshedVehicle(all, db.vehicles[i]) {
      RefreshedOneMore(batch, n, db.vehicles[i]);
    }
    forall i | |db.vehicles| <= i < |after.vehicles| ensures IsAddedVehicle(db, all, after, after.vehicles[i]) {
      if i < |before.vehicles| {
        AddedVehicleOneMore(db, batch, before, after, n, before.vehicles[i]);
      }
    }
  }

  /** After the upserts every old vehicle keeps all columns but the payload, and
      every new one is the first proposal with its key, linked to the carrier that
      proposal names; both carry the last payload for their key. */
  lemma {:induction false} VehicleRowsAfterBatch(db: Db, batch: seq<VehicleProposal>)
    requires Inv(db)
    ensures VehicleRowsAfter(db, batch, UpsertVehicles(db, batch))
  {
    if batch != [] {
      var front, n := batch[..|batch| - 1], batch[|batch| - 1];
      assert front + [n] == batch;
      VehicleRowsAfterBatch(db, front);
      UpsertVehiclesInv(db, front);
      hide Inv, VehicleRowsAfter;
      VehicleKeysAfter(UpsertVehicles(db, front));
      VehicleRowsOneMore(db, front, n);
    }
  }

  lemma VehicleKeysAfter(db: Db)
    requires Inv(db)
    ensures VehicleKeysUnique(db.vehicles)
  {
  }

  lemma {:induction false} NoVehicleAdded(db: Db, batch: seq<VehicleProposal>)
    requires forall k | 0 <= k < |batch| :: FindVehicle(db.vehicles, batch[k].source, batch[k].externalId).Some?
    ensures |UpsertVehicles(db, batch).vehicles| == |db.vehicles| && UpsertVehicles(db, batch).carriers == db.carriers
  {
    if batch != [] {
      var front, n := batch[..|batch| - 1], batch[|batch| - 1];
      assert forall k | 0 <= k < |front| :: front[k] == batch[k];
      NoVehicleAdded(db, front);
      UpsertVehiclesFinds(db, front, n.source, n.externalId);
    }
  }

  lemma RefreshedTwice(batch: seq<VehicleProposal>, v: Option<Vehicle>)
    ensures RefreshedVehicle(batch, RefreshedVehicle(batch, v)) == RefreshedVehicle(batch, v)
  {
  }

  /** The same for vehicles: once a batch has gone through, ingesting it again
      commits and leaves the database exactly as it was. */
  lemma VehicleReingestionChangesNothing(steps: seq<Step>, batch: seq<VehicleProposal>)
    requires VehicleBatchOk(Run(EMPTY, steps), batch)
    ensures var after := Apply(Run(EMPTY, steps), IngestVehicles(batch));
            && VehicleRowsAfter(Run(EMPTY, steps), batch, after)
            && VehicleBatchOk(after, batch)
            && Apply(after, IngestVehicles(batch)) == after
  {
    RunInv(steps);
    var db := Run(EMPTY, steps);
    var after := UpsertVehicles(db, batch);
    UpsertVehiclesInv(db, batch);
    VehicleRowsAfterBatch(db, batch);
    AllKnown(db, batch);
    VehicleRowsAfterBatch(after, batch);
    NoVehicleAdded(after, batch);
    SameRowsAgain(db, batch);
    assert forall k | 0 <= k < |batch| :: !FirstNew(after, batch, k);
  }

  lemma AllKnown(db: Db, batch: seq<VehicleProposal>)
    ensures forall k | 0 <= k < |batch| ::
              FindVehicle(UpsertVehicles(db, batch).vehicles, batch[k].source, batch[k].externalId).Some?
  {
    forall k | 0 <= k < |batch|
      ensures FindVehicle(UpsertVehicles(db, batch).vehicles, batch[k].source, batch[k].externalId).Some?
    {
      UpsertVehiclesFinds(db, batch, batch[k].source, batch[k].externalId);
      assert HasVehicleKey(batch[k], batch[k].source, batch[k].externalId);
    }
  }

  lemma SameRowsAgain(db: Db, batch: seq<VehicleProposal>)
    requires VehicleRowsAfter(db, batch, UpsertVehicles(db, batch))
    requires VehicleRowsAfter(UpsertVehicles(db, batch), batch, UpsertVehicles(UpsertVehicles(db, batch), batch))
    requires |UpsertVehicles(UpsertVehicles(db, batch), batch).vehicles| == |UpsertVehicles(db, batch).vehicles|
    requires UpsertVehicles(UpsertVehicles(db, batch), batch).carriers == UpsertVehicles(db, batch).carriers
    ensures UpsertVehicles(UpsertVehicles(db, batch), batch) == UpsertVehicles(db, batch)
  {
    var after, again := UpsertVehicles(db, batch), UpsertVehicles(UpsertVehicles(db, batch), batch);
    hide UpsertVehicles, RefreshedVehicle;
    forall i | 0 <= i < |after.vehicles| ensures again.vehicles[i] == after.vehicles[i] {
      assert again.vehicles[i] == RefreshedVehicle(batch, after.vehicles[i]);
      if i < |db.vehicles| {
        RefreshedTwice(batch, db.vehicles[i]);
      } else {
        assert IsAddedVehicle(db, batch, after, after.vehicles[i]);
        var k :| 0 <= k < |batch| && FirstNew(db, batch, k) && IsRowOf(batch, after, batch[k], after.vehicles[i]);
        RefreshedTwice(batch, Some(NewVehicle(batch[k], CarrierId(after, batch[k]))));
      }
    }
    assert again.vehicles == after.vehicles;
  }

  /** The proposal at `j` is the last of the batch with the key. */
  ghost predicate IsLastVehicle(batch: seq<VehicleProposal>, j: nat, source: string, externalId: string) {
    && j < |batch| && batch[j].source == source && batch[j].externalId == externalId
    && forall m | j < m < |batch| :: !(batch[m].source == source && batch[m].externalId == externalId)
  }

  lemma {:induction false} LastVehicleMeans(batch: seq<VehicleProposal>, j: nat, source: string, externalId: string)
    requires IsLastVehicle(batch, j, source, externalId)
    ensures LastVehicleWith(batch, source, externalId) == Some(batch[j])
  {
    if j < |batch| - 1 {
      var front := batch[..|batch| - 1];
      assert !HasVehicleKey(batch[|batch| - 1], source, externalId);
      assert forall m | 0 <= m < |front| :: front[m] == batch[m];
      LastVehicleMeans(front, j, source, externalId);
    }
  }

  lemma {:induction false} LastVehicleNone(batch: seq<VehicleProposal>, source: string, externalId: string)
    requires forall m | 0 <= m < |batch| :: !(batch[m].source == source && batch[m].externalId == externalId)
    ensures LastVehicleWith(batch, source, externalId).None?
  {
    if batch != [] {
      assert !HasVehicleKey(batch[|batch| - 1], source, externalId);
      LastVehicleNone(batch[..|batch| - 1], source, externalId);
    }
  }

  /** The same for vehicles. */
  lemma VehiclePayloadsAfterBatch(
      db: Db, batch: seq<VehicleProposal>, i: nat, j: nat, source: string, externalId: string)
    requires Inv(db) && i < |UpsertVehicles(db, batch).vehicles|
    requires IsVehicleKey(UpsertVehicles(db, batch).vehicles[i], source, externalId)
    ensures var row := UpsertVehicles(db, batch).vehicles[i].value;
            && (i < |db.vehicles| ==> db.vehicles[i].Some? && row == db.vehicles[i].value.(payload := row.payload))
            && (IsLastVehicle(batch, j, source, externalId) ==> row.payload == batch[j].payload)
            && ((forall m | 0 <= m < |batch| :: !(batch[m].source == source && batch[m].externalId == externalId)) ==>
                  i < |db.vehicles| && db.vehicles[i] == Some(row))
  {
    VehicleRowsAfterBatch(db, batch);
    var row := UpsertVehicles(db, batch).vehicles[i];
    if i >= |db.vehicles| {
      var after := UpsertVehicles(db, batch);
      assert IsAddedVehicle(db, batch, after, row);
      var k :| 0 <= k < |batch| && FirstNew(db, batch, k) && IsRowOf(batch, after, batch[k], row);
      NewVehicleShape(batch[k], CarrierId(after, batch[k]));
      assert batch[k].source == source && batch[k].externalId == externalId;
    }
    hide Inv, UpsertVehicles, NewVehicle;
    if IsLastVehicle(batch, j, source, externalId) {
      LastVehicleMeans(batch, j, source, externalId);
    }
    if forall m | 0 <= m < |batch| :: !(batch[m].source == source && batch[m].externalId == externalId) {
      LastVehicleNone(batch, source, externalId);
    }
  }
}
