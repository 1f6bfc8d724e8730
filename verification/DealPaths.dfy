/** How far an administrator can take a deal. The documentation promises any status
    from any other; the code has a table of single steps. */
module DealPaths {
  import opened Wrappers
  import opened Tables
  import opened Lifecycle
  import opened Evolution
  import opened Theorems
  import opened CarrierAccess

  // ---------- one request ----------

  /** One request moves a deal to the next phase, or cancels it before delivery. */
  lemma AdministratorStep(db: Db, user: User, d: nat, target: DealStatus, now: int)
    requires d < |db.deals| && user.role == AdminRole
    ensures var status := db.deals[d].status;
            AdvanceDeal(db, user, d, target, now).Ok? <==>
              if target == DealCancelled then Phase(status) < Phase(Delivered) else Phase(target) == Phase(status) + 1
    ensures AdvanceDeal(db, user, d, target, now).Raised? ==> AdvanceDeal(db, user, d, target, now) == Raised(400)
  {
  }

  /** A carrier may report the next phase up to delivery, and nothing else. */
  lemma CarrierStep(db: Db, user: User, d: nat, target: DealStatus, now: int)
    requires d < |db.deals| && user.role == CarrierRole
    ensures AdvanceDeal(db, user, d, target, now).Ok? <==>
              Phase(target) == Phase(db.deals[d].status) + 1 <= Phase(Delivered)
    ensures AdvanceDeal(db, user, d, target, now).Raised? ==> AdvanceDeal(db, user, d, target, now) == Raised(400)
  {
  }

  /** Shippers and forwarders only look on. */
  lemma OnlookerStep(db: Db, user: User, d: nat, target: DealStatus, now: int)
    requires d < |db.deals| && (user.role == ShipperRole || user.role == ForwarderRole)
    ensures AdvanceDeal(db, user, d, target, now) == Raised(403)
  {
  }

  /** Not "any to any": the deal of a run is booked, and the administrator may not
      mark it paid. */
  lemma BookedIsNotPaid()
    ensures |Run(EMPTY, UNTIL_BOOKED).deals| == 1
    ensures AdvanceDeal(Run(EMPTY, UNTIL_BOOKED), ADMINISTRATOR, 0, Paid, 0) == Raised(400)
  {
    DealBookedInRun();
    hide Run;
    AdministratorStep(Run(EMPTY, UNTIL_BOOKED), ADMINISTRATOR, 0, Paid, 0);
  }

  // ---------- several requests ----------

  /** Nothing but this administrator's requests to move this deal. */
  ghost predicate OnlyAdvances(steps: seq<Step>, user: User, d: nat) {
    forall i | 0 <= i < |steps| :: steps[i].Advance? && steps[i].user == user && steps[i].deal == d
  }

  ghost predicate BringsTo(db: Db, steps: seq<Step>, user: User, d: nat, target: DealStatus) {
    && OnlyAdvances(steps, user, d)
    && d < |Run(db, steps).deals| && Run(db, steps).deals[d].status == target
  }

  lemma {:induction false} RunFromEvolves(db: Db, steps: seq<Step>)
    ensures Evolves(db, Run(db, steps))
  {
    hide Evolves, Apply;
    if steps == [] {
      EvolvesReflexive(db);
    } else {
      var front := steps[..|steps| - 1];
      RunFromEvolves(db, front);
      StepEvolves(Run(db, front), steps[|steps| - 1]);
      EvolvesTransitive(db, Run(db, front), Run(db, steps));
    }
  }

  lemma RunOneMore(db: Db, steps: seq<Step>, step: Step)
    ensures Run(db, steps + [step]) == Apply(Run(db, steps), step)
  {
    assert (steps + [step])[..|steps + [step]| - 1] == steps;
  }

  lemma Advances(db: Db, user: User, d: nat, target: DealStatus)
    requires d < |db.deals| && AdvanceDeal(db, user, d, target, 0).Ok?
    ensures var after := Apply(db, Advance(user, d, target, 0));
            d < |after.deals| && after.deals[d].status == target
  {
  }

  /** One more request after those that bring the deal half-way. */
  lemma OneMoreAdvance(db: Db, steps: seq<Step>, user: User, d: nat, half: DealStatus, target: DealStatus)
    requires BringsTo(db, steps, user, d, half)
    requires (user.role == AdminRole && target in AdminNext(half))
             || (user.role == CarrierRole && Phase(target) == Phase(half) + 1 <= Phase(Delivered))
    ensures BringsTo(db, steps + [Advance(user, d, target, 0)], user, d, target)
  {
    RunOneMore(db, steps, Advance(user, d, target, 0));
    hide Run, Apply;
    if user.role == CarrierRole {
      CarrierStep(Run(db, steps), user, d, target, 0);
    }
    Advances(Run(db, steps), user, d, target);
  }

  function Previous(s: DealStatus): DealStatus {
    match s
    case Loaded => DealBooked
    case InTransit => Loaded
    case Delivered => InTransit
    case Invoiced => Delivered
    case Paid => Invoiced
    case _ => DealBooked
  }

  /** The requests that take a deal forward one phase at a time. */
  lemma {:induction false} PathForward(db: Db, user: User, d: nat, target: DealStatus) returns (steps: seq<Step>)
    requires d < |db.deals| && target != DealCancelled
    requires user.role == AdminRole || (user.role == CarrierRole && Phase(target) <= Phase(Delivered))
    requires Phase(db.deals[d].status) <= Phase(target)
    ensures BringsTo(db, steps, user, d, target)
    ensures |steps| == Phase(target) - Phase(db.deals[d].status)
    decreases Phase(target)
  {
    hide Apply;
    if db.deals[d].status == target {
      steps := [];
    } else {
      hide Run;
      var front := PathForward(db, user, d, Previous(target));
      steps := front + [Advance(user, d, target, 0)];
      OneMoreAdvance(db, front, user, d, Previous(target), target);
    }
  }

  /** Some sequence of an administrator's requests brings a deal to a status exactly
      if that status lies ahead in the order of phases, cancellation only before
      delivery; so the promise "any to any" holds for these pairs and no others. */
  lemma AdministratorReach(db: Db, user: User, d: nat, target: DealStatus)
    requires d < |db.deals| && user.role == AdminRole
    ensures (exists steps :: BringsTo(db, steps, user, d, target)) <==> DealReaches(db.deals[d].status, target)
  {
    hide Run, Apply, BringsTo;
    var status := db.deals[d].status;
    if steps :| BringsTo(db, steps, user, d, target) {
      OnlyForward(db, steps, user, d, target);
    }
    if DealReaches(status, target) {
      if target != DealCancelled || status == DealCancelled {
        StatusReached(db, user, d, target);
      } else {
        NoRequest(db, user, d);
        OneMoreAdvance(db, [], user, d, status, target);
      }
    }
  }

  lemma OnlyForward(db: Db, steps: seq<Step>, user: User, d: nat, target: DealStatus)
    requires d < |db.deals| && BringsTo(db, steps, user, d, target)
    ensures DealReaches(db.deals[d].status, target)
  {
    RunFromEvolves(db, steps);
    hide Run;
    assert DealEvolves(db.deals[d], Run(db, steps).deals[d]);
  }

  lemma NoRequest(db: Db, user: User, d: nat)
    requires d < |db.deals|
    ensures BringsTo(db, [], user, d, db.deals[d].status)
  {
    assert Run(db, []) == db;
  }

  lemma StatusReached(db: Db, user: User, d: nat, target: DealStatus)
    requires d < |db.deals| && user.role == AdminRole
    requires DealReaches(db.deals[d].status, target) && (target == DealCancelled ==> db.deals[d].status == target)
    ensures exists steps :: BringsTo(db, steps, user, d, target)
  {
    hide Run, BringsTo;
    if db.deals[d].status == target {
      NoRequest(db, user, d);
    } else {
      var steps := PathForward(db, user, d, target);
    }
  }

  /** What one request of a carrier does to a deal's status. */
  lemma CarrierMoves(db: Db, user: User, d: nat, target: DealStatus, now: int)
    requires d < |db.deals| && user.role == CarrierRole
    ensures var after := Apply(db, Advance(user, d, target, now));
            && d < |after.deals|
            && (after.deals[d].status == db.deals[d].status
                || Phase(after.deals[d].status) == Phase(db.deals[d].status) + 1 <= Phase(Delivered))
  {
    CarrierStep(db, user, d, target, now);
    hide Phase, CarrierNext;
  }

  lemma {:induction false} CarrierOnlyForward(db: Db, steps: seq<Step>, user: User, d: nat)
    requires d < |db.deals| && user.role == CarrierRole && OnlyAdvances(steps, user, d)
    ensures d < |Run(db, steps).deals|
    ensures var a, b := db.deals[d].status, Run(db, steps).deals[d].status;
            a == b || Phase(a) < Phase(b) <= Phase(Delivered)
  {
    hide Apply;
    if steps != [] {
      var front, step := steps[..|steps| - 1], steps[|steps| - 1];
      assert forall i | 0 <= i < |front| :: front[i] == steps[i];
      CarrierOnlyForward(db, front, user, d);
      CarrierMoves(Run(db, front), user, d, step.dealStatus, step.now);
      assert step == Advance(user, d, step.dealStatus, step.now);
    }
  }

  /** Some sequence of a carrier's requests brings a deal to a status exactly if it is
      the deal's own, or lies ahead and not beyond delivery. */
  lemma CarrierReach(db: Db, user: User, d: nat, target: DealStatus)
    requires d < |db.deals| && user.role == CarrierRole
    ensures (exists steps :: BringsTo(db, steps, user, d, target)) <==>
              var status := db.deals[d].status;
              target == status || Phase(status) < Phase(target) <= Phase(Delivered)
  {
    hide Run, Apply;
    var status := db.deals[d].status;
    if steps :| BringsTo(db, steps, user, d, target) {
      CarrierOnlyForward(db, steps, user, d);
    }
    hide BringsTo;
    if target == status {
      NoRequest(db, user, d);
    } else if Phase(status) < Phase(target) <= Phase(Delivered) {
      var steps := PathForward(db, user, d, target);
    }
  }

  // ---------- all five changes ----------

  function Advancing(d: nat, path: seq<DealStatus>): seq<Step> {
    seq(|path|, i requires 0 <= i < |path| => Advance(ADMINISTRATOR, d, path[i], 0))
  }

  function End(from: DealStatus, path: seq<DealStatus>): DealStatus {
    if path == [] then from else path[|path| - 1]
  }

  /** Each entry of the path is a permitted next status. */
  predicate IsPath(from: DealStatus, path: seq<DealStatus>) {
    path != [] ==>
      var front := path[..|path| - 1];
      IsPath(from, front) && path[|path| - 1] in AdminNext(End(from, front))
  }

  /** A run in which a deal has a status and another that goes on from there along
      a path: every entry of the path is one more change. */
  lemma {:induction false} EveryAdvanceCounts(steps: seq<Step>, d: nat, from: DealStatus, path: seq<DealStatus>)
    requires d < |Run(EMPTY, steps).deals| && Run(EMPTY, steps).deals[d].status == from && IsPath(from, path)
    ensures var all := steps + Advancing(d, path);
            && d < |Run(EMPTY, all).deals|
            && Run(EMPTY, all).deals[d].status == End(from, path)
            && Changes(all, |all|, d) == Changes(steps, |steps|, d) + |path|
    decreases |path|
  {
    hide AdminNext, Run, Changes;
    if path == [] {
      assert steps + Advancing(d, path) == steps;
    } else {
      var front, target := path[..|path| - 1], path[|path| - 1];
      EveryAdvanceCounts(steps, d, from, front);
      AdvancingOneMore(steps, d, front, target);
      assert path == front + [target];
      AdvanceCounts(steps + Advancing(d, front), d, target);
    }
  }

  lemma AdvancingOneMore(steps: seq<Step>, d: nat, front: seq<DealStatus>, target: DealStatus)
    ensures steps + Advancing(d, front + [target]) ==
            (steps + Advancing(d, front)) + [Advance(ADMINISTRATOR, d, target, 0)]
  {
  }

  lemma AdvanceCounts(steps: seq<Step>, d: nat, target: DealStatus)
    requires d < |Run(EMPTY, steps).deals| && target in AdminNext(Run(EMPTY, steps).deals[d].status)
    ensures var all := steps + [Advance(ADMINISTRATOR, d, target, 0)];
            && d < |Run(EMPTY, all).deals| && Run(EMPTY, all).deals[d].status == target
            && Changes(all, |all|, d) == Changes(steps, |steps|, d) + 1
  {
    var all := steps + [Advance(ADMINISTRATOR, d, target, 0)];
    RunOneMore(EMPTY, steps, Advance(ADMINISTRATOR, d, target, 0));
    Advances(Run(EMPTY, steps), ADMINISTRATOR, d, target);
    DealStepReaches(Run(EMPTY, steps).deals[d].status, target);
    ChangesOneMore(all, |steps|, d);
    ChangesOfPrefix(steps, all, |steps|, d);
    assert all[..|steps|] == steps && all[..|all|] == all;
    hide Run, Apply, Changes;
  }

  lemma SamePrefixState(steps: seq<Step>, all: seq<Step>, n: nat)
    requires steps <= all && n <= |steps|
    ensures StateAt(all, n) == StateAt(steps, n)
  {
    hide Run;
    assert all[..n] == steps[..n];
  }

  lemma {:induction false} ChangesOfPrefix(steps: seq<Step>, all: seq<Step>, n: nat, d: nat)
    requires steps <= all && n <= |steps|
    ensures Changes(all, n, d) == Changes(steps, n, d)
  {
    hide StateAt;
    if n > 0 {
      ChangesOfPrefix(steps, all, n - 1, d);
      SamePrefixState(steps, all, n - 1);
      SamePrefixState(steps, all, n);
    }
  }

  const WHOLE_LIFE: seq<DealStatus> := [Loaded, InTransit, Delivered, Invoiced, Paid]

  lemma WholeLifeIsPath()
    ensures IsPath(DealBooked, WHOLE_LIFE)
  {
    var w := WHOLE_LIFE;
    assert w[..4] == [Loaded, InTransit, Delivered, Invoiced] && w[..4][..3] == [Loaded, InTransit, Delivered];
    assert [Loaded, InTransit, Delivered][..2] == [Loaded, InTransit] && [Loaded, InTransit][..1] == [Loaded];
    assert IsPath(DealBooked, [Loaded]) by {
      assert [Loaded][..0] == [];
    }
    assert IsPath(DealBooked, [Loaded, InTransit]);
    assert IsPath(DealBooked, [Loaded, InTransit, Delivered]);
    assert IsPath(DealBooked, [Loaded, InTransit, Delivered, Invoiced]);
  }

  /** The bound of five changes is attained. */
  lemma FiveChangesHappen()
    ensures Changes(UNTIL_BOOKED + Advancing(0, WHOLE_LIFE), |UNTIL_BOOKED| + 5, 0) == 5
  {
    DealBookedInRun();
    hide Run, Changes;
    WholeLifeIsPath();
    EveryAdvanceCounts(UNTIL_BOOKED, 0, DealBooked, WHOLE_LIFE);
    var all := UNTIL_BOOKED + Advancing(0, WHOLE_LIFE);
    AtMostFiveChanges(all, |all|, 0);
  }
}
