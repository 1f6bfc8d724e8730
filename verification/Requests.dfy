/** What two requests do to one another: which are final, which the user may take
    back, and which the second overrides. */
module Requests {
  import opened Wrappers
  import opened Tables
  import opened Gps
  import opened Lifecycle
  import opened Invariants
  import opened Evolution
  import opened Causes

  // ---------- loads ----------

  /** Nobody cancels or proposes a cancelled load. */
  lemma CancelledOnce(db: Db, user: User, load: nat, other: User, vehicle: nat, price: int, currency: string)
    requires CancelLoad(db, user, load).Ok?
    ensures var after := CancelLoad(db, user, load).value;
            && CancelLoad(after, other, load).Raised?
            && ProposeDeal(after, other, vehicle, load, price, currency).Raised?
  {
  }

  ghost predicate PromotesMatchOf(steps: seq<Step>, k: nat, l: nat)
    requires k < |steps|
  {
    && steps[k].Promote? && steps[k].user.role == AdminRole
    && steps[k].m < |StateAt(steps, k).matches| && StateAt(steps, k).matches[steps[k].m].load == l
  }

  lemma CancelledStep(steps: seq<Step>, n: nat, l: nat)
    requires n < |steps| && l < |StateAt(steps, n).loads|
    ensures l < |StateAt(steps, n + 1).loads|
    ensures var s, t := StateAt(steps, n).loads[l].status, StateAt(steps, n + 1).loads[l].status;
            && (s == Cancelled ==> t == Cancelled || (t == Booked && PromotesMatchOf(steps, n, l)))
            && (s == Booked ==> t == Booked)
  {
    EveryChangeHasItsCause(steps, n);
    RunEvolves(steps, n, n + 1);
    hide StateAt, MatchesExplained, DealsExplained, VehiclesExplained;
    var before, after := StateAt(steps, n), StateAt(steps, n + 1);
    assert LoadEvolves(before.loads[l], after.loads[l]);
    hide Evolves;
    if before.loads[l].status == Cancelled && after.loads[l].status != Cancelled {
      assert LoadCause(before, steps[n], l, after.loads[l].status);
    }
  }

  /** A cancelled load leaves that status only for BOOKED, and only when an
      administrator promotes one of its matches. */
  lemma {:induction false} CancelledUntilPromoted(steps: seq<Step>, i: nat, j: nat, l: nat)
    requires i <= j <= |steps| && l < |StateAt(steps, i).loads| && StateAt(steps, i).loads[l].status == Cancelled
    ensures l < |StateAt(steps, j).loads|
    ensures StateAt(steps, j).loads[l].status == Cancelled
            || (StateAt(steps, j).loads[l].status == Booked && exists k | i <= k < j :: PromotesMatchOf(steps, k, l))
    decreases j - i
  {
    hide StateAt, PromotesMatchOf;
    if i < j {
      CancelledUntilPromoted(steps, i, j - 1, l);
      CancelledStep(steps, j - 1, l);
    }
  }

  // ---------- matches ----------

  /** A rejected match stays rejected over any further requests; promoting it is
      refused, and rating it does not revive it. */
  lemma RejectedForGood(
      steps: seq<Step>, i: nat, j: nat, m: nat, user: User, price: int, currency: string, verdict: Verdict)
    requires i <= j <= |steps| && m < |StateAt(steps, i).matches|
    requires StateAt(steps, i).matches[m].status == Rejected
    ensures var db := StateAt(steps, j);
            && m < |db.matches| && db.matches[m].status == Rejected
            && PromoteMatch(db, user, m, price, currency).Raised?
            && (verdict != InvalidVerdict ==> RateMatch(db, user, m, verdict).value.matches == db.matches)
  {
    RunEvolves(steps, i, j);
    assert MatchEvolves(StateAt(steps, i).matches[m], StateAt(steps, j).matches[m]);
  }

  /** Rating reviews a proposed match and leaves every other status alone. */
  function RatedStatus(s: MatchStatus): MatchStatus {
    if s == Proposed then Reviewed else s
  }

  lemma RatingIs(db: Db, user: User, m: nat, verdict: Verdict)
    requires m < |db.matches| && verdict != InvalidVerdict
    ensures RateMatch(db, user, m, verdict) ==
            Ok(db.(feedback := db.feedback[(m, user.id) := verdict],
                   matches := db.matches[m := db.matches[m].(status := RatedStatus(db.matches[m].status))]))
  {
    assert db.matches[m := db.matches[m]] == db.matches;
  }

  /** Operators may change their mind: of two ratings by one operator only the
      second counts. */
  lemma ChangeOfMind(db: Db, user: User, m: nat, first: Verdict, second: Verdict)
    requires m < |db.matches| && first != InvalidVerdict && second != InvalidVerdict
    ensures RateMatch(db, user, m, first).Ok?
    ensures RateMatch(RateMatch(db, user, m, first).value, user, m, second) == RateMatch(db, user, m, second)
  {
    RatingIs(db, user, m, first);
    RatingIs(db, user, m, second);
    RatingIs(RateMatch(db, user, m, first).value, user, m, second);
    hide RateMatch;
    var f, key: (nat, nat) := db.feedback, (m, user.id);
    var once: map<(nat, nat), Verdict> := f[key := first];
    assert once[key := second] == f[key := second];
  }

  /** Two operators do not disturb each other. */
  lemma OperatorsAreIndependent(db: Db, a: User, b: User, m: nat, x: Verdict, y: Verdict)
    requires a.id != b.id && m < |db.matches| && x != InvalidVerdict && y != InvalidVerdict
    ensures RateMatch(db, a, m, x).Ok? && RateMatch(db, b, m, y).Ok?
    ensures RateMatch(RateMatch(db, a, m, x).value, b, m, y) == RateMatch(RateMatch(db, b, m, y).value, a, m, x)
  {
    RatingIs(db, a, m, x);
    RatingIs(db, b, m, y);
    RatingIs(RateMatch(db, a, m, x).value, b, m, y);
    RatingIs(RateMatch(db, b, m, y).value, a, m, x);
    hide RateMatch;
    var f, ka: (nat, nat), kb: (nat, nat) := db.feedback, (m, a.id), (m, b.id);
    var fa: map<(nat, nat), Verdict>, fb: map<(nat, nat), Verdict> := f[ka := x], f[kb := y];
    assert fa[kb := y] == fb[ka := x];
  }

  // ---------- vehicles ----------

  /** Of two edits the second counts, and the first leaves no trace. */
  lemma LastEditWins(
      db: Db, user: User, other: User, v: nat,
      plate: string, bodyType: string, capacity: int, status: VehicleStatus,
      plate2: string, bodyType2: string, capacity2: int, status2: VehicleStatus)
    requires EditVehicle(db, user, v, plate, bodyType, capacity, status).Ok?
    ensures var once := EditVehicle(db, user, v, plate, bodyType, capacity, status).value;
            EditVehicle(once, other, v, plate2, bodyType2, capacity2, status2) ==
            EditVehicle(db, other, v, plate2, bodyType2, capacity2, status2)
  {
    var once := EditVehicle(db, user, v, plate, bodyType, capacity, status).value;
    var twice := EditVehicle(once, other, v, plate2, bodyType2, capacity2, status2);
    var direct := EditVehicle(db, other, v, plate2, bodyType2, capacity2, status2);
    if twice.Ok? {
      assert twice.value.vehicles[v].value.payload == direct.value.vehicles[v].value.payload;
      assert twice.value.vehicles == direct.value.vehicles;
    }
  }

  /** A device linked to a vehicle reports for it: the next poll that lists the
      vehicle stores the device's last fix under it, unless a vehicle listed later
      has the same device. */
  lemma LinkedDeviceReports(db: Db, user: User, v: nat, device: nat, query: seq<nat>, k: nat, reply: seq<Fix>, f: Fix)
    requires LinkDevice(db, user, v, Assigns(device)).Ok?
    requires k < |query| && query[k] == v && IsLastFix(reply, f) && f.device == device
    ensures var linked := LinkDevice(db, user, v, Assigns(device)).value;
            (forall j | k < j < |query| :: !IsLinked(linked, query[j], device)) ==>
              FindPosition(Poll(linked, query, reply).positions, v, f.fixedAt).Some?
  {
    var linked := LinkDevice(db, user, v, Assigns(device)).value;
    if forall j | k < j < |query| :: !IsLinked(linked, query[j], device) {
      assert IsOwner(linked, query, device, v);
      PollRecords(linked, query, reply, f, v);
    }
  }

  lemma NewVehicleUnreferenced(db: Db, next: Db)
    requires Refs(db) && next.matches == db.matches && next.deals == db.deals && next.positions == db.positions
    ensures !Referenced(next, |db.vehicles|)
  {
    assert forall i | 0 <= i < |db.deals| :: DealRef(db, db.deals[i]);
  }

  lemma RegisteredThenDeleted(
      db: Db, user: User, plate: string, bodyType: string, capacity: int, device: Option<nat>, registered: Db)
    requires RegisterVehicle(db, user, plate, bodyType, capacity, device) == Ok(registered)
    requires !Referenced(registered, |db.vehicles|)
    ensures DeleteVehicle(registered, user, |db.vehicles|) == Ok(db.(vehicles := db.vehicles + [None]))
  {
    hide Referenced;
    assert registered.vehicles[|db.vehicles| := None] == db.vehicles + [None];
  }

  /** A vehicle just registered can be taken back by its fleet, which leaves
      nothing but the used id; a second deletion finds no vehicle. */
  lemma RegistrationUndone(
      steps: seq<Step>, user: User, plate: string, bodyType: string, capacity: int, device: Option<nat>)
    requires RegisterVehicle(Run(EMPTY, steps), user, plate, bodyType, capacity, device).Ok?
    ensures var db := Run(EMPTY, steps);
            var registered := RegisterVehicle(db, user, plate, bodyType, capacity, device).value;
            var undone := db.(vehicles := db.vehicles + [None]);
            && DeleteVehicle(registered, user, |db.vehicles|) == Ok(undone)
            && DeleteVehicle(undone, user, |db.vehicles|) == Raised(404)
  {
    RunInv(steps);
    hide Run, Referenced, Refs;
    var db := Run(EMPTY, steps);
    var registered := RegisterVehicle(db, user, plate, bodyType, capacity, device).value;
    NewVehicleUnreferenced(db, registered);
    RegisteredThenDeleted(db, user, plate, bodyType, capacity, device, registered);
  }

  /** A vehicle that a match, a deal or a position refers to is never deleted: every
      later attempt is refused, whoever makes it. */
  lemma ReferencedForGood(steps: seq<Step>, i: nat, j: nat, v: nat, user: User)
    requires i <= j <= |steps| && Referenced(StateAt(steps, i), v)
    ensures Referenced(StateAt(steps, j), v) && HasVehicle(StateAt(steps, j), v)
    ensures DeleteVehicle(StateAt(steps, j), user, v).Raised?
  {
    RunEvolves(steps, i, j);
    StateInv(steps, j);
    ReferencedEvolves(StateAt(steps, i), StateAt(steps, j), v);
  }

  lemma ReferencedEvolves(a: Db, b: Db, v: nat)
    requires Evolves(a, b) && Refs(b) && Referenced(a, v)
    ensures Referenced(b, v) && HasVehicle(b, v)
  {
    if i :| 0 <= i < |a.matches| && a.matches[i].vehicle == v {
      assert MatchEvolves(a.matches[i], b.matches[i]) && b.matches[i].vehicle == v;
    } else if i :| 0 <= i < |a.deals| && a.deals[i].vehicle == v {
      assert DealEvolves(a.deals[i], b.deals[i]) && b.deals[i].vehicle == v;
      assert DealRef(b, b.deals[i]);
    } else {
      var i :| 0 <= i < |a.positions| && a.positions[i].vehicle == v;
      assert b.positions[i] == a.positions[i];
    }
  }
}
