/** The GPS poll and the two "latest position" queries. The position table has
    no uniqueness constraint; one row per vehicle and fix time is the poll's own
    doing. */
module Gps {
  import opened Wrappers
  import opened Tables
  import opened UnitOfWork

  /** A position as the tracking server reports it. */
  datatype Fix = Fix(device: nat, lat: int, lon: int, fixedAt: int)

  // ---------- the poll ----------

  /** The dictionary device -> vehicle; a later vehicle takes over a shared device. */
  function Owners(db: Db, query: seq<nat>): map<nat, nat> {
    if query == [] then map[]
    else
      var owners, v := Owners(db, query[..|query| - 1]), query[|query| - 1];
      if HasVehicle(db, v) && db.vehicles[v].value.device.Some?
      then owners[db.vehicles[v].value.device.value := v] else owners
  }

  function IndexOfDevice(fixes: seq<Fix>, device: nat): (r: Option<nat>)
    ensures r.Some? ==> r.value < |fixes| && fixes[r.value].device == device
    ensures r.None? ==> forall i | 0 <= i < |fixes| :: fixes[i].device != device
  {
    First(fixes, (f: Fix) => f.device == device)
  }

  /** The adapter's dictionary, in insertion order: one fix per device, the last
      one reported. */
  function ByDevice(reply: seq<Fix>): seq<Fix> {
    if reply == [] then []
    else
      var fixes, f := ByDevice(reply[..|reply| - 1]), reply[|reply| - 1];
      var i := IndexOfDevice(fixes, f.device);
      if i.Some? then fixes[i.value := f] else fixes + [f]
  }

  ghost predicate OnePerDevice(fixes: seq<Fix>) {
    forall i, j | 0 <= i < j < |fixes| :: fixes[i].device != fixes[j].device
  }

  /** The last thing the reply says about the fix's device. */
  ghost predicate IsLastFix(reply: seq<Fix>, f: Fix) {
    exists k | 0 <= k < |reply| :: reply[k] == f && forall j | k < j < |reply| :: reply[j].device != f.device
  }

  predicate IsLinked(db: Db, v: nat, device: nat) {
    HasVehicle(db, v) && db.vehicles[v].value.device == Some(device)
  }

  /** The last listed vehicle that is linked to the device. */
  ghost predicate IsOwner(db: Db, query: seq<nat>, device: nat, v: nat) {
    exists k | 0 <= k < |query| ::
      query[k] == v && IsLinked(db, v, device) && forall j | k < j < |query| :: !IsLinked(db, query[j], device)
  }

  /** The fix becomes a row: its device is linked and its time is new for the vehicle. */
  predicate IsNewFix(db: Db, owners: map<nat, nat>, f: Fix) {
    f.device in owners && FindPosition(db.positions, owners[f.device], f.fixedAt).None?
  }

  function RowOf(owners: map<nat, nat>, f: Fix): Position
    requires f.device in owners
  {
    Position(owners[f.device], f.lat, f.lon, f.device, f.fixedAt)
  }

  function NewPositions(db: Db, owners: map<nat, nat>, fixes: seq<Fix>): seq<Position> {
    if fixes == [] then []
    else
      var rows, f := NewPositions(db, owners, fixes[..|fixes| - 1]), fixes[|fixes| - 1];
      if IsNewFix(db, owners, f) then rows + [RowOf(owners, f)] else rows
  }

  /** One polling cycle; `query` answers the query for linked vehicles. */
  function Poll(db: Db, query: seq<nat>, reply: seq<Fix>): Db {
    db.(positions := db.positions + NewPositions(db, Owners(db, query), ByDevice(reply)))
  }

  ghost predicate UniqueFixes(positions: seq<Position>) {
    forall i, j | 0 <= i < j < |positions| ::
      !(positions[i].vehicle == positions[j].vehicle && positions[i].recordedAt == positions[j].recordedAt)
  }

  // ---------- what a poll keeps ----------

  lemma {:induction false} OwnersShape(db: Db, query: seq<nat>)
    ensures forall d | d in Owners(db, query) ::
              HasVehicle(db, Owners(db, query)[d]) && db.vehicles[Owners(db, query)[d]].value.device == Some(d)
  {
    if query != [] {
      OwnersShape(db, query[..|query| - 1]);
    }
  }

  lemma LastFixOneMore(reply: seq<Fix>, f: Fix, g: Fix)
    ensures IsLastFix(reply + [g], f) <==> f == g || (IsLastFix(reply, f) && f.device != g.device)
  {
    var all := reply + [g];
    assert all[|reply|] == g;
    if IsLastFix(all, f) && f != g {
      var k :| 0 <= k < |all| && all[k] == f && forall j | k < j < |all| :: all[j].device != f.device;
      assert k < |reply| && reply[k] == f;
      assert forall j | k < j < |reply| :: all[j] == reply[j];
    }
    if IsLastFix(reply, f) && f.device != g.device {
      var k :| 0 <= k < |reply| && reply[k] == f && forall j | k < j < |reply| :: reply[j].device != f.device;
      assert all[k] == f && forall j | k < j < |reply| :: all[j] == reply[j];
    }
  }

  /** The adapter's dictionary holds the last fix of every reported device and
      nothing else. */
  lemma {:induction false} ByDeviceExactly(reply: seq<Fix>)
    ensures forall f :: f in ByDevice(reply) <==> IsLastFix(reply, f)
  {
    if reply != [] {
      var front, g := reply[..|reply| - 1], reply[|reply| - 1];
      ByDeviceExactly(front);
      ByDeviceShape(front);
      assert reply == front + [g];
      forall f ensures f in ByDevice(reply) <==> IsLastFix(reply, f) {
        LastFixOneMore(front, f, g);
        ByDeviceOneMore(front, g, f);
      }
    }
  }

  lemma ByDeviceOneMore(reply: seq<Fix>, g: Fix, f: Fix)
    requires OnePerDevice(ByDevice(reply))
    ensures f in ByDevice(reply + [g]) <==> f == g || (f in ByDevice(reply) && f.device != g.device)
  {
    var all, fixes := reply + [g], ByDevice(reply);
    assert all[..|all| - 1] == reply && all[|all| - 1] == g;
    var i := IndexOfDevice(fixes, g.device);
    if i.Some? {
      var after := fixes[i.value := g];
      assert after[i.value] == g;
      if f in fixes && f.device != g.device {
        var k :| 0 <= k < |fixes| && fixes[k] == f;
        assert after[k] == f;
      }
    }
  }

  lemma {:induction false} LastFixExists(reply: seq<Fix>, k: nat)
    requires k < |reply|
    ensures exists f :: IsLastFix(reply, f) && f.device == reply[k].device
  {
    var front, g := reply[..|reply| - 1], reply[|reply| - 1];
    assert reply == front + [g];
    if g.device == reply[k].device {
      LastFixOneMore(front, g, g);
    } else {
      LastFixExists(front, k);
      var f :| IsLastFix(front, f) && f.device == front[k].device;
      LastFixOneMore(front, f, g);
    }
  }

  lemma OwnerOneMore(db: Db, query: seq<nat>, w: nat, device: nat, v: nat)
    ensures IsOwner(db, query + [w], device, v) <==>
            if IsLinked(db, w, device) then v == w else IsOwner(db, query, device, v)
  {
    var all := query + [w];
    assert all[|query|] == w && forall k | 0 <= k < |query| :: all[k] == query[k];
    if IsOwner(db, query, device, v) && !IsLinked(db, w, device) {
      var k :| 0 <= k < |query| && query[k] == v && IsLinked(db, v, device)
               && forall j | k < j < |query| :: !IsLinked(db, query[j], device);
      assert all[k] == v;
    }
  }

  /** The dictionary maps exactly the devices of listed vehicles, each to the last
      vehicle linked to it. */
  lemma {:induction false} OwnersExactly(db: Db, query: seq<nat>, device: nat, v: nat)
    ensures device in Owners(db, query) && Owners(db, query)[device] == v <==> IsOwner(db, query, device, v)
  {
    if query != [] {
      var front, w := query[..|query| - 1], query[|query| - 1];
      OwnersExactly(db, front, device, v);
      assert query == front + [w];
      OwnerOneMore(db, front, w, device, v);
    }
  }

  /** No linked vehicle of the listing leaves its device without an owner. */
  lemma {:induction false} OwnerExists(db: Db, query: seq<nat>, device: nat, k: nat)
    requires k < |query| && IsLinked(db, query[k], device)
    ensures exists v :: IsOwner(db, query, device, v)
  {
    var front, w := query[..|query| - 1], query[|query| - 1];
    assert query == front + [w];
    if IsLinked(db, w, device) {
      OwnerOneMore(db, front, w, device, w);
    } else {
      OwnerExists(db, front, device, k);
      var v :| IsOwner(db, front, device, v);
      OwnerOneMore(db, front, w, device, v);
    }
  }

  lemma {:induction false} ByDeviceShape(reply: seq<Fix>)
    ensures OnePerDevice(ByDevice(reply))
    ensures forall f | f in ByDevice(reply) :: f in reply
  {
    if reply != [] {
      var front, f := reply[..|reply| - 1], reply[|reply| - 1];
      ByDeviceShape(front);
      assert f in reply && forall g | g in front :: g in reply;
    }
  }

  /** The row records one of the fixes, and that fix is new. */
  ghost predicate Records(db: Db, owners: map<nat, nat>, fixes: seq<Fix>, row: Position) {
    exists k | 0 <= k < |fixes| :: IsNewFix(db, owners, fixes[k]) && row == RowOf(owners, fixes[k])
  }

  lemma {:induction false} NewPositionsShape(db: Db, owners: map<nat, nat>, fixes: seq<Fix>)
    ensures forall row | row in NewPositions(db, owners, fixes) :: Records(db, owners, fixes, row)
    ensures forall f | f in fixes && IsNewFix(db, owners, f) :: RowOf(owners, f) in NewPositions(db, owners, fixes)
  {
    if fixes != [] {
      var front, f := fixes[..|fixes| - 1], fixes[|fixes| - 1];
      assert fixes == front + [f];
      NewPositionsShape(db, owners, front);
      forall row | row in NewPositions(db, owners, fixes) ensures Records(db, owners, fixes, row) {
        if row in NewPositions(db, owners, front) {
          var k :| 0 <= k < |front| && IsNewFix(db, owners, front[k]) && row == RowOf(owners, front[k]);
          assert fixes[k] == front[k];
        } else {
          assert IsNewFix(db, owners, fixes[|fixes| - 1]);
        }
      }
    }
  }

  ghost predicate OnePerVehicle(rows: seq<Position>) {
    forall i, j | 0 <= i < j < |rows| :: rows[i].vehicle != rows[j].vehicle
  }

  /** Different devices belong to different vehicles, so one poll never adds two
      rows for a vehicle. */
  lemma {:induction false} NewPositionsOnePerVehicle(db: Db, query: seq<nat>, fixes: seq<Fix>)
    requires OnePerDevice(fixes)
    ensures OnePerVehicle(NewPositions(db, Owners(db, query), fixes))
  {
    if fixes != [] {
      var owners := Owners(db, query);
      var front, f := fixes[..|fixes| - 1], fixes[|fixes| - 1];
      NewPositionsOnePerVehicle(db, query, front);
      NewPositionsShape(db, owners, front);
      OwnersShape(db, query);
      var before := NewPositions(db, owners, front);
      if IsNewFix(db, owners, f) {
        forall i | 0 <= i < |before| ensures before[i].vehicle != owners[f.device] {
          assert Records(db, owners, front, before[i]);
          var k :| 0 <= k < |front| && IsNewFix(db, owners, front[k]) && before[i] == RowOf(owners, front[k]);
          assert fixes[k].device != fixes[|fixes| - 1].device;
        }
      }
    }
  }

  /** A poll keeps (vehicle, fix time) unique although nothing in the database
      enforces it. */
  lemma PollKeepsUnique(db: Db, query: seq<nat>, reply: seq<Fix>)
    requires UniqueFixes(db.positions)
    ensures UniqueFixes(Poll(db, query, reply).positions)
  {
    var owners, fixes := Owners(db, query), ByDevice(reply);
    var rows := NewPositions(db, owners, fixes);
    ByDeviceShape(reply);
    NewPositionsOnePerVehicle(db, query, fixes);
    NewPositionsShape(db, owners, fixes);
    forall i, j | 0 <= i < |db.positions| && 0 <= j < |rows|
      ensures !IsFix(db.positions[i], rows[j].vehicle, rows[j].recordedAt)
    {
      assert rows[j] in rows;
      var k :| 0 <= k < |fixes| && IsNewFix(db, owners, fixes[k]) && rows[j] == RowOf(owners, fixes[k]);
    }
    UniqueAppend(db.positions, rows);
  }

  lemma UniqueAppend(a: seq<Position>, b: seq<Position>)
    requires UniqueFixes(a)
    requires OnePerVehicle(b)
    requires forall i, j | 0 <= i < |a| && 0 <= j < |b| :: !IsFix(a[i], b[j].vehicle, b[j].recordedAt)
    ensures UniqueFixes(a + b)
  {
    var all := a + b;
    forall i, j | 0 <= i < j < |all|
      ensures !(all[i].vehicle == all[j].vehicle && all[i].recordedAt == all[j].recordedAt)
    {
      if |a| <= i {
        assert b[i - |a|].vehicle != b[j - |a|].vehicle;
      } else if |a| <= j {
        assert !IsFix(a[i], b[j - |a|].vehicle, b[j - |a|].recordedAt);
      }
    }
  }

  /** The rows a poll has to add: the last fix of a device whose last listed vehicle
      has no fix of that time. */
  ghost predicate IsDue(db: Db, query: seq<nat>, reply: seq<Fix>, f: Fix, v: nat) {
    IsLastFix(reply, f) && IsOwner(db, query, f.device, v) && FindPosition(db.positions, v, f.fixedAt).None?
  }

  ghost predicate IsDueRow(db: Db, query: seq<nat>, reply: seq<Fix>, p: Position) {
    exists f :: IsDue(db, query, reply, f, p.vehicle) && p == Position(p.vehicle, f.lat, f.lon, f.device, f.fixedAt)
  }

  /** A poll adds exactly the rows that are due. */
  lemma PollAddsExactly(db: Db, query: seq<nat>, reply: seq<Fix>, p: Position)
    ensures p in NewPositions(db, Owners(db, query), ByDevice(reply)) <==> IsDueRow(db, query, reply, p)
  {
    var owners, fixes := Owners(db, query), ByDevice(reply);
    ByDeviceExactly(reply);
    NewPositionsShape(db, owners, fixes);
    if p in NewPositions(db, owners, fixes) {
      assert Records(db, owners, fixes, p);
      var k :| 0 <= k < |fixes| && IsNewFix(db, owners, fixes[k]) && p == RowOf(owners, fixes[k]);
      assert fixes[k] in fixes;
      OwnersExactly(db, query, fixes[k].device, p.vehicle);
      assert IsDue(db, query, reply, fixes[k], p.vehicle);
    }
    if IsDueRow(db, query, reply, p) {
      var f :| IsDue(db, query, reply, f, p.vehicle) && p == Position(p.vehicle, f.lat, f.lon, f.device, f.fixedAt);
      OwnersExactly(db, query, f.device, p.vehicle);
      assert f in fixes && p == RowOf(owners, f);
    }
  }

  lemma PolledRowsAreDue(db: Db, query: seq<nat>, reply: seq<Fix>)
    ensures var after := Poll(db, query, reply).positions;
            forall i | |db.positions| <= i < |after| :: IsDueRow(db, query, reply, after[i])
  {
    var rows, after := NewPositions(db, Owners(db, query), ByDevice(reply)), Poll(db, query, reply).positions;
    hide NewPositions, Owners, ByDevice, IsDueRow;
    forall i | |db.positions| <= i < |after| ensures IsDueRow(db, query, reply, after[i]) {
      assert after[i] == rows[i - |db.positions|] && after[i] in rows;
      PollAddsExactly(db, query, reply, after[i]);
    }
  }

  lemma DueRowIsAdded(db: Db, query: seq<nat>, reply: seq<Fix>, f: Fix, v: nat)
    requires IsDue(db, query, reply, f, v)
    ensures Position(v, f.lat, f.lon, f.device, f.fixedAt) in NewPositions(db, Owners(db, query), ByDevice(reply))
  {
    hide NewPositions, Owners, ByDevice, IsDue;
    var p := Position(v, f.lat, f.lon, f.device, f.fixedAt);
    PollAddsExactly(db, query, reply, p);
    assert IsDue(db, query, reply, f, p.vehicle);
  }

  /** A row that is due is at some place behind the old ones. */
  lemma DueIsStored(db: Db, query: seq<nat>, reply: seq<Fix>, f: Fix, v: nat) returns (j: nat)
    requires IsDue(db, query, reply, f, v)
    ensures var after := Poll(db, query, reply).positions;
            && db.positions <= after && |db.positions| <= j < |after|
            && after[j] == Position(v, f.lat, f.lon, f.device, f.fixedAt)
  {
    hide IsDue, NewPositions, Owners, ByDevice;
    var p, rows := Position(v, f.lat, f.lon, f.device, f.fixedAt), NewPositions(db, Owners(db, query), ByDevice(reply));
    DueRowIsAdded(db, query, reply, f, v);
    var k :| 0 <= k < |rows| && rows[k] == p;
    j := |db.positions| + k;
  }

  lemma OldFixKept(db: Db, query: seq<nat>, reply: seq<Fix>, v: nat, fixedAt: int)
    requires FindPosition(db.positions, v, fixedAt).Some?
    ensures FindPosition(Poll(db, query, reply).positions, v, fixedAt).Some?
  {
    var i, after := FindPosition(db.positions, v, fixedAt).value, Poll(db, query, reply).positions;
    assert after[i] == db.positions[i];
    hide Poll;
    StoredIsFound(after, i, v, fixedAt);
  }

  /** The last reported fix of every device, under the last listed vehicle linked
      to it, is in the table after the poll. */
  lemma PollRecords(db: Db, query: seq<nat>, reply: seq<Fix>, f: Fix, v: nat)
    requires IsLastFix(reply, f) && IsOwner(db, query, f.device, v)
    ensures FindPosition(Poll(db, query, reply).positions, v, f.fixedAt).Some?
  {
    hide Poll, IsLastFix, IsOwner, FindPosition;
    if FindPosition(db.positions, v, f.fixedAt).Some? {
      OldFixKept(db, query, reply, v, f.fixedAt);
    } else {
      var j := DueIsStored(db, query, reply, f, v);
      StoredIsFound(Poll(db, query, reply).positions, j, v, f.fixedAt);
    }
  }

  lemma StoredIsFound(positions: seq<Position>, i: nat, v: nat, fixedAt: int)
    requires i < |positions| && IsFix(positions[i], v, fixedAt)
    ensures FindPosition(positions, v, fixedAt).Some?
  {
  }

  lemma {:induction false} NothingNew(db: Db, owners: map<nat, nat>, fixes: seq<Fix>)
    requires forall f | f in fixes :: !IsNewFix(db, owners, f)
    ensures NewPositions(db, owners, fixes) == []
  {
    if fixes != [] {
      assert fixes[|fixes| - 1] in fixes;
      NothingNew(db, owners, fixes[..|fixes| - 1]);
    }
  }

  lemma {:induction false} OwnersIgnorePositions(a: Db, b: Db, query: seq<nat>)
    requires a.vehicles == b.vehicles
    ensures Owners(a, query) == Owners(b, query)
  {
    if query != [] {
      OwnersIgnorePositions(a, b, query[..|query| - 1]);
    }
  }

  /** An identical second poll adds nothing. */
  lemma SecondPollAddsNothing(db: Db, query: seq<nat>, reply: seq<Fix>)
    ensures Poll(Poll(db, query, reply), query, reply) == Poll(db, query, reply)
  {
    var after := Poll(db, query, reply);
    OwnersIgnorePositions(db, after, query);
    forall f | f in ByDevice(reply) ensures !IsNewFix(after, Owners(after, query), f) {
      if f.device in Owners(db, query) {
        ByDeviceExactly(reply);
        OwnersExactly(db, query, f.device, Owners(db, query)[f.device]);
        PollRecords(db, query, reply, f, Owners(db, query)[f.device]);
      }
    }
    NothingNew(after, Owners(after, query), ByDevice(reply));
    assert after.positions + [] == after.positions;
  }

  // ---------- "only newer positions" ----------

  /** The time of the vehicle's latest row. */
  function LatestTime(positions: seq<Position>, v: nat): (t: Option<int>)
    ensures t.None? ==> forall i | 0 <= i < |positions| :: positions[i].vehicle != v
    ensures t.Some? ==> exists i | 0 <= i < |positions| :: IsFix(positions[i], v, t.value)
    ensures t.Some? ==>
              forall i | 0 <= i < |positions| && positions[i].vehicle == v :: positions[i].recordedAt <= t.value
  {
    if positions == [] then None
    else
      var front, p := positions[..|positions| - 1], positions[|positions| - 1];
      var before := LatestTime(front, v);
      if p.vehicle == v && (before.None? || before.value < p.recordedAt) then
        assert IsFix(positions[|positions| - 1], v, p.recordedAt);
        Some(p.recordedAt)
      else
        assert forall i | 0 <= i < |front| :: front[i] == positions[i];
        before
  }

  /** The fix is not stored, and older than what is stored for the vehicle. */
  predicate IsLate(db: Db, v: nat, fixedAt: int) {
    && FindPosition(db.positions, v, fixedAt).None?
    && LatestTime(db.positions, v).Some? && fixedAt < LatestTime(db.positions, v).value
  }

  /** Each row from `n` on is newer than every row of its vehicle before it. */
  ghost predicate NewerFrom(positions: seq<Position>, n: nat) {
    forall i, j | 0 <= i < j < |positions| && n <= j && positions[i].vehicle == positions[j].vehicle ::
      positions[i].recordedAt < positions[j].recordedAt
  }

  /** The poll is documented to insert only positions newer than the vehicle's last
      one. It does exactly when no device last reported a late fix for its owner. */
  lemma PollInsertsOnlyNewer(db: Db, query: seq<nat>, reply: seq<Fix>)
    ensures NewerFrom(Poll(db, query, reply).positions, |db.positions|) <==>
            forall f, v | IsLastFix(reply, f) && IsOwner(db, query, f.device, v) :: !IsLate(db, v, f.fixedAt)
  {
    if NewerFrom(Poll(db, query, reply).positions, |db.positions|) {
      forall f, v | IsLastFix(reply, f) && IsOwner(db, query, f.device, v) ensures !IsLate(db, v, f.fixedAt) {
        if IsLate(db, v, f.fixedAt) {
          LateIsInserted(db, query, reply, f, v);
        }
      }
    } else {
      OlderIsLate(db, query, reply);
    }
  }

  lemma LatestIsStored(positions: seq<Position>, v: nat) returns (i: nat)
    requires LatestTime(positions, v).Some?
    ensures i < |positions| && IsFix(positions[i], v, LatestTime(positions, v).value)
  {
    i :| i < |positions| && IsFix(positions[i], v, LatestTime(positions, v).value);
  }

  lemma LateIsInserted(db: Db, query: seq<nat>, reply: seq<Fix>, f: Fix, v: nat)
    requires IsLastFix(reply, f) && IsOwner(db, query, f.device, v) && IsLate(db, v, f.fixedAt)
    ensures !NewerFrom(Poll(db, query, reply).positions, |db.positions|)
  {
    hide IsLastFix, IsOwner, FindPosition, LatestTime, Poll;
    var after := Poll(db, query, reply).positions;
    var j := DueIsStored(db, query, reply, f, v);
    var i := LatestIsStored(db.positions, v);
    assert after[i] == db.positions[i];
    assert after[i].vehicle == after[j].vehicle && after[i].recordedAt > after[j].recordedAt;
  }

  lemma OlderIsLate(db: Db, query: seq<nat>, reply: seq<Fix>)
    requires !NewerFrom(Poll(db, query, reply).positions, |db.positions|)
    ensures exists f, v :: IsLastFix(reply, f) && IsOwner(db, query, f.device, v) && IsLate(db, v, f.fixedAt)
  {
    var after, n := Poll(db, query, reply).positions, |db.positions|;
    var rows := NewPositions(db, Owners(db, query), ByDevice(reply));
    var i, j :| 0 <= i < j < |after| && n <= j && after[i].vehicle == after[j].vehicle
                && after[i].recordedAt >= after[j].recordedAt;
    ByDeviceShape(reply);
    NewPositionsOnePerVehicle(db, query, ByDevice(reply));
    assert i < n;
    var p := after[j];
    assert p == rows[j - n] && p in rows;
    PollAddsExactly(db, query, reply, p);
    var f :| IsDue(db, query, reply, f, p.vehicle) && p == Position(p.vehicle, f.lat, f.lon, f.device, f.fixedAt);
    assert !IsFix(db.positions[i], p.vehicle, f.fixedAt);
    assert IsLate(db, p.vehicle, f.fixedAt);
  }

  lemma OneOwner(db: Db, v: nat, device: nat)
    requires IsLinked(db, v, device)
    ensures Owners(db, [v]) == map[device := v]
  {
    assert [v][..0] == [];
  }

  lemma OneFix(db: Db, owners: map<nat, nat>, f: Fix)
    ensures ByDevice([f]) == [f]
    ensures NewPositions(db, owners, [f]) == if IsNewFix(db, owners, f) then [RowOf(owners, f)] else []
  {
    assert [f][..0] == [];
  }

  /** A poll of one vehicle that gets one new fix appends it. */
  lemma OneNewFix(db: Db, v: nat, f: Fix)
    requires IsLinked(db, v, f.device) && FindPosition(db.positions, v, f.fixedAt).None?
    ensures Poll(db, [v], [f]).positions == db.positions + [Position(v, f.lat, f.lon, f.device, f.fixedAt)]
  {
    OneOwner(db, v, f.device);
    OneFix(db, map[f.device := v], f);
  }

  // ---------- the service ----------

  class GPSPollService {
    const session: Session

    constructor (session: Session)
      ensures this.session == session
    {
      this.session := session;
    }

    /** The adapter's loop over the raw answer: one fix per device, the last. */
    static method GetPositions(reply: seq<Fix>) returns (result: seq<Fix>)
      ensures result == ByDevice(reply)
      ensures OnePerDevice(result) && forall f :: f in result <==> IsLastFix(reply, f)
    {
      result := [];
      for i := 0 to |reply|
        invariant result == ByDevice(reply[..i])
      {
        assert reply[..i + 1][..i] == reply[..i];
        var known := IndexOfDevice(result, reply[i].device);
        result := if known.Some? then result[known.value := reply[i]] else result + [reply[i]];
      }
      assert reply[..|reply|] == reply;
      ByDeviceExactly(reply);
      ByDeviceShape(reply);
    }

    /** The dictionary from linked devices to vehicles; of several vehicles with one
        device the last listed wins. */
    method DeviceOwners(query: seq<nat>) returns (owners: map<nat, nat>)
      ensures owners == Owners(session.tx, query)
      ensures forall device, v: nat ::
                device in owners && owners[device] == v <==> IsOwner(session.tx, query, device, v)
    {
      owners := map[];
      for i := 0 to |query|
        invariant owners == Owners(session.tx, query[..i])
      {
        assert query[..i + 1][..i] == query[..i];
        var v := query[i];
        if HasVehicle(session.tx, v) && session.tx.vehicles[v].value.device.Some? {
          owners := owners[session.tx.vehicles[v].value.device.value := v];
        }
      }
      assert query[..|query|] == query;
      forall device: nat, v: nat
        ensures device in owners && owners[device] == v <==> IsOwner(session.tx, query, device, v)
      {
        OwnersExactly(session.tx, query, device, v);
      }
    }

    method PollInner(query: seq<nat>, reply: seq<Fix>) returns (newCount: nat)
      requires session.Idle()
      modifies session
      ensures session.Idle() && session.db == Poll(old(session.db), query, reply)
      ensures newCount == |session.db.positions| - |old(session.db.positions)|
      ensures forall i | |old(session.db.positions)| <= i < |session.db.positions| ::
                IsDueRow(old(session.db), query, reply, session.db.positions[i])
    {
      hide Owners, ByDevice, FlushRows;
      ghost var db := session.db;
      var owners := DeviceOwners(query);
      var positions := GetPositions(reply);
      newCount := 0;
      ghost var rows: seq<Position> := [];
      for i := 0 to |positions|
        invariant session.db == db && session.tx == db
        invariant rows == NewPositions(db, owners, positions[..i])
        invariant session.pending == PositionRows(rows) && newCount == |rows|
      {
        assert positions[..i + 1][..i] == positions[..i];
        var f := positions[i];
        if f.device !in owners {
          continue;
        }
        var existing := FindPosition(session.tx.positions, owners[f.device], f.fixedAt);
        if existing.Some? {
          continue;
        }
        var row := Position(owners[f.device], f.lat, f.lon, f.device, f.fixedAt);
        session.Add(PositionRow(row));
        rows := rows + [row];
        assert PositionRows(rows) == PositionRows(rows[..|rows| - 1]) + [PositionRow(row)];
        newCount := newCount + 1;
      }
      assert positions[..|positions|] == positions;
      FlushNewPositions(db, query, positions);
      PolledRowsAreDue(db, query, reply);
      hide NewPositions, PositionRows, IsDueRow;
      if newCount > 0 {
        var _ := session.Commit();
      } else {
        assert db.positions + rows == db.positions;
      }
    }
  }

  function PositionRows(rows: seq<Position>): seq<Row> {
    seq(|rows|, i requires 0 <= i < |rows| => PositionRow(rows[i]))
  }

  lemma {:induction false} FlushPositions(t: Db, rows: seq<Position>)
    requires forall i | 0 <= i < |rows| :: HasVehicle(t, rows[i].vehicle)
    ensures FlushRows(t, PositionRows(rows)) == Some(t.(positions := t.positions + rows))
  {
    if rows == [] {
      assert t.positions + rows == t.positions;
    } else {
      var front, last := rows[..|rows| - 1], rows[|rows| - 1];
      FlushPositions(t, front);
      assert PositionRows(rows) == PositionRows(front) + [PositionRow(last)];
      FlushOneMore(t, PositionRows(front), PositionRow(last));
      assert t.positions + front + [last] == t.positions + rows;
    }
  }

  lemma FlushNewPositions(db: Db, query: seq<nat>, fixes: seq<Fix>)
    ensures var rows := NewPositions(db, Owners(db, query), fixes);
            FlushRows(db, PositionRows(rows)) == Some(db.(positions := db.positions + rows))
  {
    var owners := Owners(db, query);
    var rows := NewPositions(db, owners, fixes);
    OwnersShape(db, query);
    NewPositionsShape(db, owners, fixes);
    forall i | 0 <= i < |rows| ensures HasVehicle(db, rows[i].vehicle) {
      assert Records(db, owners, fixes, rows[i]);
    }
    FlushPositions(db, rows);
  }

  // ---------- the latest position ----------

  /** The answer to `ORDER BY vehicle_id, recorded_at DESC` over the vehicles
      `ids`: any such ordering of the rows, ties in any order. */
  ghost predicate FleetOrder(positions: seq<Position>, ids: set<nat>, rows: seq<Position>) {
    && (forall p :: p in rows <==> p in positions && p.vehicle in ids)
    && (forall i, j | 0 <= i < j < |rows| ::
          || rows[i].vehicle < rows[j].vehicle
          || (rows[i].vehicle == rows[j].vehicle && rows[i].recordedAt >= rows[j].recordedAt))
  }

  /** `DISTINCT ON (vehicle_id)`: the first row of every run. */
  function DistinctOn(rows: seq<Position>): seq<Position> {
    if rows == [] then []
    else
      var front, last := DistinctOn(rows[..|rows| - 1]), rows[|rows| - 1];
      if |rows| >= 2 && rows[|rows| - 2].vehicle == last.vehicle then front else front + [last]
  }

  function Latest(rows: seq<Position>): map<nat, Position> {
    if rows == [] then map[]
    else Latest(rows[..|rows| - 1])[rows[|rows| - 1].vehicle := rows[|rows| - 1]]
  }

  /** The fleet page's dictionary, filled row by row. */
  method FleetPositions(rows: seq<Position>) returns (positions: map<nat, Position>)
    ensures positions == Latest(DistinctOn(rows))
  {
    var distinct := DistinctOn(rows);
    positions := map[];
    for i := 0 to |distinct|
      invariant positions == Latest(distinct[..i])
    {
      assert distinct[..i + 1][..i] == distinct[..i];
      positions := positions[distinct[i].vehicle := distinct[i]];
    }
    assert distinct[..|distinct|] == distinct;
  }

  /** The tracking page: any answer to `ORDER BY recorded_at DESC LIMIT 1`. */
  ghost predicate IsTracked(positions: seq<Position>, vehicle: nat, answer: Option<Position>) {
    match answer
    case None => forall p | p in positions :: p.vehicle != vehicle
    case Some(p) =>
      && p in positions && p.vehicle == vehicle
      && forall q | q in positions && q.vehicle == vehicle :: q.recordedAt <= p.recordedAt
  }

  ghost predicate IsFirstOf(rows: seq<Position>, vehicle: nat, p: Position) {
    exists i | 0 <= i < |rows| ::
      rows[i] == p && p.vehicle == vehicle && forall j | 0 <= j < i :: rows[j].vehicle != vehicle
  }

  lemma FirstOfAppend(rows: seq<Position>, last: Position, vehicle: nat, p: Position)
    requires IsFirstOf(rows, vehicle, p)
    ensures IsFirstOf(rows + [last], vehicle, p)
  {
    var i :| 0 <= i < |rows| && rows[i] == p && p.vehicle == vehicle
              && forall j | 0 <= j < i :: rows[j].vehicle != vehicle;
    var all := rows + [last];
    assert all[i] == p && forall j | 0 <= j < i :: all[j] == rows[j];
  }

  lemma LastIsFirstOf(rows: seq<Position>, last: Position)
    requires forall j | 0 <= j < |rows| :: rows[j].vehicle != last.vehicle
    ensures IsFirstOf(rows + [last], last.vehicle, last)
  {
    assert (rows + [last])[|rows|] == last;
  }

  ghost predicate ByVehicle(rows: seq<Position>) {
    forall i, j | 0 <= i < j < |rows| :: rows[i].vehicle <= rows[j].vehicle
  }

  /** The dictionary has each vehicle's first row. */
  ghost predicate PicksFirst(rows: seq<Position>, fleet: map<nat, Position>) {
    && (forall p | p in rows :: p.vehicle in fleet)
    && (forall v | v in fleet :: IsFirstOf(rows, v, fleet[v]))
  }

  lemma PicksFirstOneMore(rows: seq<Position>, last: Position, fleet: map<nat, Position>)
    requires ByVehicle(rows + [last]) && PicksFirst(rows, fleet)
    ensures PicksFirst(rows + [last], if rows != [] && rows[|rows| - 1].vehicle == last.vehicle
                                      then fleet else fleet[last.vehicle := last])
  {
    var all := rows + [last];
    forall v | v in fleet ensures IsFirstOf(all, v, fleet[v]) {
      FirstOfAppend(rows, last, v, fleet[v]);
    }
    if rows != [] && rows[|rows| - 1].vehicle == last.vehicle {
      assert rows[|rows| - 1] in rows;
    } else {
      forall j | 0 <= j < |rows| ensures rows[j].vehicle != last.vehicle {
        assert all[j].vehicle <= all[|rows| - 1].vehicle <= all[|rows|].vehicle;
      }
      LastIsFirstOf(rows, last);
    }
  }

  /** The fleet page picks, for each vehicle, the first of its rows. */
  lemma {:induction false} FleetPicksFirst(rows: seq<Position>)
    requires ByVehicle(rows)
    ensures PicksFirst(rows, Latest(DistinctOn(rows)))
  {
    if rows != [] {
      var front, last := rows[..|rows| - 1], rows[|rows| - 1];
      assert rows == front + [last];
      assert ByVehicle(front);
      FleetPicksFirst(front);
      PicksFirstOneMore(front, last, Latest(DistinctOn(front)));
      LatestOneMore(front, last);
    }
  }

  lemma DistinctOneMore(rows: seq<Position>, last: Position)
    ensures DistinctOn(rows + [last]) ==
            if rows != [] && rows[|rows| - 1].vehicle == last.vehicle then DistinctOn(rows)
            else DistinctOn(rows) + [last]
  {
    var all := rows + [last];
    assert all[..|all| - 1] == rows && all[|all| - 1] == last;
  }

  lemma LatestAppend(rows: seq<Position>, last: Position)
    ensures Latest(rows + [last]) == Latest(rows)[last.vehicle := last]
  {
    assert (rows + [last])[..|rows + [last]| - 1] == rows;
  }

  lemma LatestOneMore(rows: seq<Position>, last: Position)
    ensures Latest(DistinctOn(rows + [last])) ==
            if rows != [] && rows[|rows| - 1].vehicle == last.vehicle then Latest(DistinctOn(rows))
            else Latest(DistinctOn(rows))[last.vehicle := last]
  {
    DistinctOneMore(rows, last);
    LatestAppend(DistinctOn(rows), last);
  }

  /** On a table with unique fixes the two pages show the same row. */
  lemma PagesAgree(positions: seq<Position>, ids: set<nat>, rows: seq<Position>, vehicle: nat, answer: Option<Position>)
    requires UniqueFixes(positions)
    requires FleetOrder(positions, ids, rows) && vehicle in ids
    requires IsTracked(positions, vehicle, answer)
    ensures var fleet := Latest(DistinctOn(rows));
            answer == if vehicle in fleet then Some(fleet[vehicle]) else None
  {
    FleetPicksFirst(rows);
    var fleet := Latest(DistinctOn(rows));
    if answer.Some? {
      assert answer.value in rows && vehicle in fleet;
      FirstIsNewest(positions, ids, rows, vehicle, fleet[vehicle]);
      SameFixSameRow(positions, answer.value, fleet[vehicle]);
    } else if vehicle in fleet {
      FirstIsNewest(positions, ids, rows, vehicle, fleet[vehicle]);
      assert false;
    }
  }

  /** The first row of a vehicle in the fleet page's order is one of its newest. */
  lemma FirstIsNewest(positions: seq<Position>, ids: set<nat>, rows: seq<Position>, vehicle: nat, p: Position)
    requires FleetOrder(positions, ids, rows) && vehicle in ids && IsFirstOf(rows, vehicle, p)
    ensures p in positions && p.vehicle == vehicle
    ensures forall q | q in positions && q.vehicle == vehicle :: q.recordedAt <= p.recordedAt
  {
    var i :| 0 <= i < |rows| && rows[i] == p && p.vehicle == vehicle
              && forall j | 0 <= j < i :: rows[j].vehicle != vehicle;
    assert p in rows;
    forall q | q in positions && q.vehicle == vehicle ensures q.recordedAt <= p.recordedAt {
      assert q in rows;
      var j :| 0 <= j < |rows| && rows[j] == q;
    }
  }

  lemma SameFixSameRow(positions: seq<Position>, p: Position, q: Position)
    requires UniqueFixes(positions) && p in positions && q in positions
    requires p.vehicle == q.vehicle && p.recordedAt == q.recordedAt
    ensures p == q
  {
  }

  /** Both pages answer correctly for themselves, with different rows. */
  ghost predicate Disagree(
      positions: seq<Position>, ids: set<nat>, rows: seq<Position>, vehicle: nat, answer: Position)
  {
    && FleetOrder(positions, ids, rows) && vehicle in ids && IsTracked(positions, vehicle, Some(answer))
    && vehicle in Latest(DistinctOn(rows)) && answer != Latest(DistinctOn(rows))[vehicle]
  }

  /** Without uniqueness the two pages may disagree: two rows with the same
      vehicle and fix time are enough. */
  lemma TiesCanDisagree(p: Position, q: Position)
    requires p != q && p.vehicle == q.vehicle && p.recordedAt == q.recordedAt
    ensures Disagree([p, q], {p.vehicle}, [p, q], p.vehicle, q)
  {
    DistinctOneMore([p], q);
    DistinctOneMore([], p);
    LatestAppend([], p);
    assert [p] + [q] == [p, q] && [] + [p] == [p];
    assert Latest(DistinctOn([p, q])) == map[p.vehicle := p];
  }

  /** While a vehicle's rows are only added to, its latest fix time never moves back. */
  lemma LatestNeverMovesBack(
      before: seq<Position>, after: seq<Position>, vehicle: nat, a: Option<Position>, b: Option<Position>)
    requires forall p | p in before && p.vehicle == vehicle :: p in after
    requires IsTracked(before, vehicle, a) && IsTracked(after, vehicle, b)
    ensures a.Some? ==> b.Some? && b.value.recordedAt >= a.value.recordedAt
  {
    if a.Some? {
      assert a.value in after;
    }
  }
}
