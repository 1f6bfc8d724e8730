/** The trust score of a company: automated checks, the email bonus, and the
    "verified" badge. Replies of the two registries are parameters. */
module Trust {
  import opened Wrappers

  const VERIFIED_THRESHOLD := 35
  const MAX_SCORE := 100
  const EDRPOU_POINTS := 35
  const VIES_POINTS := 30
  const EMAIL_POINTS := 15

  datatype CheckType = EdrpouCheck | ViesCheck | EmailCheck
  datatype CheckStatus = Passed | Failed | ManualRequired
  datatype Check = Check(kind: CheckType, status: CheckStatus, scoreDelta: int)

  /** A registry answers, or is unavailable; `confirmed` is "active" or "valid VAT". */
  datatype RegistryReply = Unavailable | Answer(confirmed: bool, legalName: string)

  /** One call of the service on a company. `edrpou` and `vies` are absent when
      the company has no such number. */
  datatype Event =
    | RunAll(edrpou: Option<RegistryReply>, vies: Option<RegistryReply>, emailVerified: bool, now: int)
    | EmailConfirmed(now: int)

  /** The company's columns that the service reads and writes. */
  datatype Ledger = Ledger(
    trustScore: int, isVerified: bool, verifiedAt: Option<int>, checks: seq<Check>, legalName: string)

  const NEW_COMPANY := Ledger(0, false, None, [], "")

  function Min(a: int, b: int): int {
    if a <= b then a else b
  }

  function CheckOf(kind: CheckType, points: int, reply: RegistryReply): Check {
    match reply
    case Unavailable => Check(kind, ManualRequired, 0)
    case Answer(true, _) => Check(kind, Passed, points)
    case Answer(false, _) => Check(kind, Failed, 0)
  }

  /** The check rows one event appends. */
  function ChecksOf(e: Event): seq<Check> {
    match e
    case RunAll(edrpou, vies, _, _) =>
      (if edrpou.Some? then [CheckOf(EdrpouCheck, EDRPOU_POINTS, edrpou.value)] else [])
      + (if vies.Some? then [CheckOf(ViesCheck, VIES_POINTS, vies.value)] else [])
    case EmailConfirmed(_) => [Check(EmailCheck, Passed, EMAIL_POINTS)]
  }

  function Points(checks: seq<Check>): int {
    if checks == [] then 0 else Points(checks[..|checks| - 1]) + checks[|checks| - 1].scoreDelta
  }

  lemma PointsOfFew(c: seq<Check>)
    ensures |c| == 0 ==> Points(c) == 0
    ensures |c| == 1 ==> Points(c) == c[0].scoreDelta
    ensures |c| == 2 ==> Points(c) == c[0].scoreDelta + c[1].scoreDelta
  {
    assert |c| == 1 ==> c[..0] == [];
    assert |c| == 2 ==> c[..1] == [c[0]] && [c[0]][..0] == [];
  }

  /** The delta one event hands to the score: its checks' points, and the email
      bonus of `run_all`, which leaves no check row. */
  function Delta(e: Event): int {
    Points(ChecksOf(e)) + (if e.RunAll? && e.emailVerified then EMAIL_POINTS else 0)
  }

  /** The registry answers, and confirms the company. */
  predicate Confirms(reply: Option<RegistryReply>) {
    reply.Some? && reply.value.Answer? && reply.value.confirmed
  }

  /** The running total of `run_all` is the event's delta: 35 points iff the
      Ukrainian registry confirms an active company, 30 iff VIES confirms the VAT
      number, 15 iff the email is verified. */
  lemma DeltaOfRunAll(edrpou: Option<RegistryReply>, vies: Option<RegistryReply>, emailVerified: bool, now: int)
    ensures Delta(RunAll(edrpou, vies, emailVerified, now)) ==
            (if edrpou.Some? then CheckOf(EdrpouCheck, EDRPOU_POINTS, edrpou.value).scoreDelta else 0)
            + (if vies.Some? then CheckOf(ViesCheck, VIES_POINTS, vies.value).scoreDelta else 0)
            + (if emailVerified then EMAIL_POINTS else 0)
    ensures Delta(RunAll(edrpou, vies, emailVerified, now)) ==
            (if Confirms(edrpou) then 35 else 0) + (if Confirms(vies) then 30 else 0)
            + (if emailVerified then 15 else 0)
  {
    PointsOfFew(ChecksOf(RunAll(edrpou, vies, emailVerified, now)));
  }

  function Filled(name: string, reply: Option<RegistryReply>): string {
    if name == "" && reply.Some? && reply.value.Answer? && reply.value.confirmed then reply.value.legalName else name
  }

  function ApplyScore(l: Ledger, delta: int, now: int): Ledger {
    var score := Min(MAX_SCORE, l.trustScore + delta);
    var promote := score >= VERIFIED_THRESHOLD && !l.isVerified;
    l.(trustScore := score,
       isVerified := l.isVerified || promote,
       verifiedAt := if promote then Some(now) else l.verifiedAt)
  }

  function Process(l: Ledger, e: Event): Ledger {
    var checked := l.(
      checks := l.checks + ChecksOf(e),
      legalName := if e.RunAll? then Filled(Filled(l.legalName, e.edrpou), e.vies) else l.legalName);
    ApplyScore(checked, Delta(e), e.now)
  }

  /** The row that records a registry's answer: unavailable registries leave it to a
      person, and only a confirmation is worth points. */
  ghost predicate Records(check: Check, kind: CheckType, points: int, reply: RegistryReply) {
    && check.kind == kind
    && (reply.Unavailable? ==> check.status == ManualRequired && check.scoreDelta == 0)
    && (reply.Answer? && reply.confirmed ==> check.status == Passed && check.scoreDelta == points)
    && (reply.Answer? && !reply.confirmed ==> check.status == Failed && check.scoreDelta == 0)
  }

  /** The name a registry gives, if it confirms the company and has one. */
  function NameFrom(reply: Option<RegistryReply>): string {
    if Confirms(reply) then reply.value.legalName else ""
  }

  /** What a full check leaves behind, column by column. */
  ghost predicate FullyChecked(
      a: Ledger, b: Ledger, edrpou: Option<RegistryReply>, vies: Option<RegistryReply>, emailVerified: bool)
  {
    && a.checks <= b.checks
    && |b.checks| == |a.checks| + (if edrpou.Some? then 1 else 0) + (if vies.Some? then 1 else 0)
    && (edrpou.Some? ==> Records(b.checks[|a.checks|], EdrpouCheck, 35, edrpou.value))
    && (vies.Some? ==> Records(b.checks[|b.checks| - 1], ViesCheck, 30, vies.value))
    && b.legalName == (if a.legalName != "" then a.legalName
                       else if NameFrom(edrpou) != "" then NameFrom(edrpou) else NameFrom(vies))
    && var sum := a.trustScore + (if Confirms(edrpou) then 35 else 0) + (if Confirms(vies) then 30 else 0)
                  + (if emailVerified then 15 else 0);
       b.trustScore == if sum > 100 then 100 else sum
  }

  lemma ProcessChecksFully(
      l: Ledger, edrpou: Option<RegistryReply>, vies: Option<RegistryReply>, emailVerified: bool, now: int)
    ensures FullyChecked(l, Process(l, RunAll(edrpou, vies, emailVerified, now)), edrpou, vies, emailVerified)
  {
    DeltaOfRunAll(edrpou, vies, emailVerified, now);
    hide Delta;
  }

  function Replay(events: seq<Event>): Ledger {
    if events == [] then NEW_COMPANY else Process(Replay(events[..|events| - 1]), events[|events| - 1])
  }

  // ---------- the service, updating a company in place ----------

  class Company {
    var trustScore: int
    var isVerified: bool
    var verifiedAt: Option<int>
    var checks: seq<Check>
    var legalName: string

    ghost function State(): Ledger
      reads this
    {
      Ledger(trustScore, isVerified, verifiedAt, checks, legalName)
    }

    constructor ()
      ensures State() == NEW_COMPANY
    {
      trustScore, isVerified, verifiedAt, checks, legalName := 0, false, None, [], "";
    }

    /** The score saturates at 100. The badge is held iff it was or the score has
        reached 35, and only a badge that is new is stamped. */
    method Score(delta: int, now: int)
      modifies `trustScore, `isVerified, `verifiedAt
      ensures State() == ApplyScore(old(State()), delta, now)
      ensures trustScore <= 100 && trustScore - old(trustScore) <= delta
      ensures trustScore == 100 || trustScore - old(trustScore) == delta
      ensures isVerified <==> old(isVerified) || trustScore >= 35
      ensures verifiedAt == if isVerified && !old(isVerified) then Some(now) else old(verifiedAt)
    {
      trustScore := Min(MAX_SCORE, trustScore + delta);
      if trustScore >= VERIFIED_THRESHOLD && !isVerified {
        isVerified := true;
        verifiedAt := Some(now);
      }
    }

    method RunAllChecks(edrpou: Option<RegistryReply>, vies: Option<RegistryReply>, emailVerified: bool, now: int)
      modifies this
      ensures State() == Process(old(State()), RunAll(edrpou, vies, emailVerified, now))
      ensures FullyChecked(old(State()), State(), edrpou, vies, emailVerified)
    {
      ghost var before, name := checks, legalName;
      hide CheckOf, Delta, ApplyScore;
      var totalDelta := 0;
      if edrpou.Some? {
        var check := CheckOf(EdrpouCheck, EDRPOU_POINTS, edrpou.value);
        if edrpou.value.Answer? && edrpou.value.confirmed && legalName == "" {
          legalName := edrpou.value.legalName;
        }
        checks := checks + [check];
        totalDelta := totalDelta + check.scoreDelta;
      }
      assert legalName == Filled(name, edrpou);
      if vies.Some? {
        var check := CheckOf(ViesCheck, VIES_POINTS, vies.value);
        if vies.value.Answer? && vies.value.confirmed && legalName == "" {
          legalName := vies.value.legalName;
        }
        checks := checks + [check];
        totalDelta := totalDelta + check.scoreDelta;
      }
      assert legalName == Filled(Filled(name, edrpou), vies);
      if emailVerified {
        totalDelta := totalDelta + EMAIL_POINTS;
      }
      DeltaOfRunAll(edrpou, vies, emailVerified, now);
      assert checks == before + ChecksOf(RunAll(edrpou, vies, emailVerified, now));
      hide Filled, ChecksOf, FullyChecked;
      Score(totalDelta, now);
      ProcessChecksFully(old(State()), edrpou, vies, emailVerified, now);
    }

    method UpdateEmailVerified(now: int)
      modifies this
      ensures State() == Process(old(State()), EmailConfirmed(now))
      ensures checks == old(checks) + [Check(EmailCheck, Passed, 15)] && legalName == old(legalName)
      ensures trustScore == if old(trustScore) + 15 > 100 then 100 else old(trustScore) + 15
    {
      checks := checks + [Check(EmailCheck, Passed, EMAIL_POINTS)];
      PointsOfFew(ChecksOf(EmailConfirmed(now)));
      Score(EMAIL_POINTS, now);
    }
  }

  // ---------- the ledger over whole histories ----------

  function Total(events: seq<Event>): int {
    if events == [] then 0 else Total(events[..|events| - 1]) + Delta(events[|events| - 1])
  }

  lemma DeltaNonNegative(e: Event)
    ensures 0 <= Delta(e)
  {
    PointsOfFew(ChecksOf(e));
  }

  /** The score is the capped sum of every delta applied, and the badge says
      exactly that the score has reached the threshold. */
  lemma {:induction false} ScoreIsCappedSum(events: seq<Event>)
    ensures Total(events) >= 0
    ensures Replay(events).trustScore == Min(MAX_SCORE, Total(events))
    ensures Replay(events).isVerified <==> Replay(events).trustScore >= VERIFIED_THRESHOLD
    ensures Replay(events).isVerified <==> Replay(events).verifiedAt.Some?
  {
    if events != [] {
      ScoreIsCappedSum(events[..|events| - 1]);
      DeltaNonNegative(events[|events| - 1]);
    }
  }

  lemma {:induction false} TotalSplit(a: seq<Event>, b: seq<Event>)
    ensures Total(a + b) == Total(a) + Total(b)
  {
    if b == [] {
      assert a + b == a;
    } else {
      assert (a + b)[..|a + b| - 1] == a + b[..|b| - 1];
      TotalSplit(a, b[..|b| - 1]);
    }
  }

  lemma {:induction false} TotalOfPermutation(a: seq<Event>, b: seq<Event>)
    requires multiset(a) == multiset(b)
    ensures Total(a) == Total(b)
    decreases |a|
  {
    assert |a| == |multiset(a)| && |b| == |multiset(b)|;
    if a != [] {
      var last := a[|a| - 1];
      var front := a[..|a| - 1];
      assert a == front + [last];
      assert last in multiset(b);
      var i :| 0 <= i < |b| && b[i] == last;
      assert b == b[..i] + [last] + b[i + 1..];
      assert multiset(front) == multiset(b[..i] + b[i + 1..]) by {
        assert multiset(a) == multiset(front) + multiset{last};
        assert multiset(b) == multiset(b[..i]) + multiset{last} + multiset(b[i + 1..]);
        assert multiset(front) == multiset(a) - multiset{last};
      }
      TotalOfPermutation(front, b[..i] + b[i + 1..]);
      TotalSplit(b[..i] + [last], b[i + 1..]);
      TotalSplit(b[..i], [last]);
      TotalSplit(b[..i], b[i + 1..]);
      assert Total([last]) == Delta(last) by { assert [last][..0] == []; }
    }
  }

  /** The order in which the checks and confirmations arrive does not matter. */
  lemma OrderDoesNotMatter(a: seq<Event>, b: seq<Event>)
    requires multiset(a) == multiset(b)
    ensures Replay(a).trustScore == Replay(b).trustScore
    ensures Replay(a).isVerified == Replay(b).isVerified
  {
    TotalOfPermutation(a, b);
    ScoreIsCappedSum(a);
    ScoreIsCappedSum(b);
  }

  lemma ReplayPrefix(events: seq<Event>, n: nat)
    requires n < |events|
    ensures Replay(events[..n + 1]) == Process(Replay(events[..n]), events[n])
  {
    assert events[..n + 1][..n] == events[..n];
  }

  /** A badge is kept, with its stamp. */
  lemma {:induction false} BadgeKept(events: seq<Event>, n: nat)
    requires n <= |events| && Replay(events[..n]).isVerified
    ensures Replay(events).isVerified && Replay(events).verifiedAt == Replay(events[..n]).verifiedAt
    decreases |events| - n
  {
    hide Replay, ChecksOf, Delta, Filled, Min;
    if n == |events| {
      assert events[..n] == events;
    } else {
      ReplayPrefix(events, n);
      BadgeKept(events, n + 1);
    }
  }

  lemma FilledKeeps(name: string, reply: Option<RegistryReply>)
    requires name != ""
    ensures Filled(name, reply) == name
  {
  }

  /** Check rows are only added, and a legal name is never replaced. */
  lemma {:induction false} RecordsKept(events: seq<Event>, n: nat)
    requires n <= |events|
    ensures Replay(events[..n]).checks <= Replay(events).checks
    ensures Replay(events[..n]).legalName != "" ==> Replay(events).legalName == Replay(events[..n]).legalName
    decreases |events| - n
  {
    hide Replay, ChecksOf, Delta, Filled, Min;
    if n == |events| {
      assert events[..n] == events;
    } else {
      ReplayPrefix(events, n);
      RecordsKept(events, n + 1);
      var e, name := events[n], Replay(events[..n]).legalName;
      if name != "" && e.RunAll? {
        FilledKeeps(name, e.edrpou);
        FilledKeeps(name, e.vies);
      }
    }
  }

  /** The badge is stamped once, by the first event that brings the sum to the
      threshold, and neither it, the stamp nor a legal name is ever taken back. */
  lemma StampedOnce(events: seq<Event>, n: nat)
    requires n <= |events|
    ensures Replay(events[..n]).isVerified ==>
              Replay(events).isVerified && Replay(events).verifiedAt == Replay(events[..n]).verifiedAt
    ensures n < |events| && !Replay(events[..n]).isVerified && Replay(events[..n + 1]).isVerified ==>
              Replay(events).verifiedAt == Some(events[n].now)
    ensures Replay(events[..n]).checks <= Replay(events).checks
    ensures Replay(events[..n]).legalName != "" ==> Replay(events).legalName == Replay(events[..n]).legalName
  {
    hide Replay, ChecksOf, Delta, Filled, Min;
    RecordsKept(events, n);
    if Replay(events[..n]).isVerified {
      BadgeKept(events, n);
    } else if n < |events| && Replay(events[..n + 1]).isVerified {
      ReplayPrefix(events, n);
      BadgeKept(events, n + 1);
    }
  }

  // ---------- what the badge means ----------

  ghost predicate RegistryPassed(checks: seq<Check>) {
    exists i | 0 <= i < |checks| :: checks[i].status == Passed && checks[i].kind != EmailCheck
  }

  /** How often the email bonus was granted. */
  function EmailBonuses(events: seq<Event>): nat {
    if events == [] then 0
    else
      var e := events[|events| - 1];
      EmailBonuses(events[..|events| - 1]) + (if e.EmailConfirmed? || e.emailVerified then 1 else 0)
  }

  lemma PassedAppend(a: seq<Check>, b: seq<Check>)
    ensures RegistryPassed(a + b) <==> RegistryPassed(a) || RegistryPassed(b)
  {
    if RegistryPassed(a) {
      var i :| 0 <= i < |a| && a[i].status == Passed && a[i].kind != EmailCheck;
      assert (a + b)[i] == a[i];
    }
    if RegistryPassed(b) {
      var i :| 0 <= i < |b| && b[i].status == Passed && b[i].kind != EmailCheck;
      assert (a + b)[|a| + i] == b[i];
    }
  }

  lemma {:induction false} ScoreWithoutRegistry(events: seq<Event>)
    requires !RegistryPassed(Replay(events).checks)
    ensures Total(events) == EMAIL_POINTS * EmailBonuses(events)
  {
    if events != [] {
      var e := events[|events| - 1];
      PassedAppend(Replay(events[..|events| - 1]).checks, ChecksOf(e));
      ScoreWithoutRegistry(events[..|events| - 1]);
      DeltaWithoutRegistry(e);
    }
  }

  lemma DeltaWithoutRegistry(e: Event)
    requires !RegistryPassed(ChecksOf(e))
    ensures Delta(e) == if e.EmailConfirmed? || e.emailVerified then EMAIL_POINTS else 0
  {
    var c := ChecksOf(e);
    PointsOfFew(c);
    forall i | 0 <= i < |c| ensures c[i].kind == EmailCheck || c[i].scoreDelta == 0 {
      assert c[i].kind == EmailCheck || c[i].status != Passed;
    }
  }

  /** The badge is documented to mean that an official registry confirmed the
      company. Without such a confirmation it is given exactly when the email
      bonus was granted three times or more. */
  lemma BadgeWithoutRegistry(events: seq<Event>)
    requires !RegistryPassed(Replay(events).checks)
    ensures Replay(events).isVerified <==> EmailBonuses(events) >= 3
  {
    ScoreIsCappedSum(events);
    ScoreWithoutRegistry(events);
  }

  lemma ReplayOneMore(events: seq<Event>, e: Event)
    ensures Replay(events + [e]) == Process(Replay(events), e)
  {
    assert (events + [e])[..|events + [e]| - 1] == events;
  }

  /** Three email confirmations alone give the badge. */
  lemma BadgeFromEmailsAlone()
    ensures exists events :: Replay(events).isVerified && !RegistryPassed(Replay(events).checks)
  {
    var e, c := EmailConfirmed(0), Check(EmailCheck, Passed, EMAIL_POINTS);
    hide Process, RegistryPassed;
    ReplayOneMore([], e);
    ReplayOneMore([e], e);
    ReplayOneMore([e, e], e);
    assert [] + [e] == [e] && [e] + [e] == [e, e] && [e, e] + [e] == [e, e, e];
    hide Replay;
    EmailStep(NEW_COMPANY);
    EmailStep(Replay([e]));
    EmailStep(Replay([e, e]));
    assert Replay([e, e, e]).checks == [c, c, c];
    NoRegistryAmong([c, c, c]);
  }

  lemma EmailStep(l: Ledger)
    ensures Process(l, EmailConfirmed(0)) ==
            ApplyScore(l.(checks := l.checks + [Check(EmailCheck, Passed, EMAIL_POINTS)]), EMAIL_POINTS, 0)
  {
    PointsOfFew(ChecksOf(EmailConfirmed(0)));
  }

  lemma NoRegistryAmong(checks: seq<Check>)
    requires forall i | 0 <= i < |checks| :: checks[i].kind == EmailCheck
    ensures !RegistryPassed(checks)
  {
  }

  /** In a history of at most two calls of the service, such as one `run_all` and
      one confirmation, the badge does mean a registry confirmation. */
  lemma BadgeMeansRegistry(events: seq<Event>)
    requires |events| <= 2
    requires Replay(events).isVerified
    ensures RegistryPassed(Replay(events).checks)
  {
    if !RegistryPassed(Replay(events).checks) {
      BadgeWithoutRegistry(events);
      BonusesBounded(events);
      assert false;
    }
  }

  lemma {:induction false} BonusesBounded(events: seq<Event>)
    ensures EmailBonuses(events) <= |events|
  {
    if events != [] {
      BonusesBounded(events[..|events| - 1]);
    }
  }
}
