/** The pricing agent: a window of comparable samples per load, and a suggested
    price on every open match that has none. The model's suggestion is a parameter. */
module Pricing {
  import opened Wrappers
  import opened Text
  import opened Counting
  import opened Ranking
  import opened Tables
  import opened UnitOfWork

  const LOOKBACK_SECONDS := 90 * 86400
  const MIN_SAMPLES := 3
  const MAX_SAMPLES := 20

  predicate Comparable(l: Load, now: int, s: PriceSample) {
    && s.fromCountry == l.origin.country
    && s.toCountry == l.destination.country
    && s.collectedAt >= now - LOOKBACK_SECONDS
    && (Truthy(FirstBody(l.bodyTypes)) ==> s.bodyType == FirstBody(l.bodyTypes))
  }

  /** The sample is from the load's country to the load's country, at most 90 days
      old, and of the load's first body type if that is named. */
  predicate SameLane(l: Load, now: int, s: PriceSample) {
    && s.fromCountry == l.origin.country && s.toCountry == l.destination.country
    && now - s.collectedAt <= 7776000
    && (l.bodyTypes.Some? && l.bodyTypes.value != [] && l.bodyTypes.value[0] != "" ==>
          s.bodyType == Some(l.bodyTypes.value[0]))
  }

  lemma ComparableIsSameLane(l: Load, now: int, s: PriceSample)
    ensures Comparable(l, now, s) <==> SameLane(l, now, s)
  {
  }

  function ComparableIds(db: Db, l: Load, now: int, n: nat): seq<nat>
    requires n <= |db.samples|
  {
    if n == 0 then []
    else ComparableIds(db, l, now, n - 1) + if Comparable(l, now, db.samples[n - 1]) then [n - 1] else []
  }

  /** Newest first. */
  function AgeKey(db: Db, now: int): nat -> real {
    (i: nat) => if i < |db.samples| then (now - db.samples[i].collectedAt) as real else 0.0
  }

  function Window(db: Db, l: Load, now: int): seq<nat> {
    Take(StableSort(ComparableIds(db, l, now, |db.samples|), AgeKey(db, now)), MAX_SAMPLES)
  }

  lemma {:induction false} ComparableIdsShape(db: Db, l: Load, now: int, n: nat)
    requires n <= |db.samples|
    ensures Distinct(ComparableIds(db, l, now, n))
    ensures forall i: nat :: i in ComparableIds(db, l, now, n) <==> i < n && Comparable(l, now, db.samples[i])
  {
    if n > 0 {
      ComparableIdsShape(db, l, now, n - 1);
    }
  }

  lemma IdsShape(db: Db, l: Load, now: int)
    ensures var ids := ComparableIds(db, l, now, |db.samples|);
            Distinct(ids) && forall i: nat :: i in ids <==> i < |db.samples| && SameLane(l, now, db.samples[i])
  {
    ComparableIdsShape(db, l, now, |db.samples|);
    hide ComparableIds;
    forall i: nat | i < |db.samples| ensures Comparable(l, now, db.samples[i]) <==> SameLane(l, now, db.samples[i]) {
      ComparableIsSameLane(l, now, db.samples[i]);
    }
  }

  lemma NewerFirst(db: Db, now: int, rows: seq<nat>, a: nat, b: nat)
    requires a < |db.samples| && b < |db.samples| && Precedes(rows, AgeKey(db, now), a, b)
    ensures db.samples[a].collectedAt >= db.samples[b].collectedAt
  {
  }

  /** Nothing is cut off a window that has room for all. */
  lemma RoomForAll(rows: seq<nat>, key: nat -> real, k: nat)
    ensures |rows| <= k ==> forall i: nat | i in rows :: i in Take(StableSort(rows, key), k)
    ensures |Take(StableSort(rows, key), k)| == if |rows| <= k then |rows| else k
  {
    SortContents(rows, key);
    hide StableSort;
  }

  /** At most twenty comparable samples, all of them if there are fewer, and no
      comparable sample left out is newer than one kept. */
  lemma WindowIsNewest(db: Db, l: Load, now: int)
    ensures var w := Window(db, l, now);
            && |w| <= 20 && Distinct(w)
            && (forall i | i in w :: i < |db.samples| && SameLane(l, now, db.samples[i]))
            && (forall i: nat, j: nat | i < |db.samples| && SameLane(l, now, db.samples[i]) && i !in w && j in w ::
                  |w| == 20 && db.samples[i].collectedAt <= db.samples[j].collectedAt)
            && (forall i, j | 0 <= i < j < |w| :: w[j] < |db.samples| && w[i] < |db.samples|
                  && db.samples[w[i]].collectedAt >= db.samples[w[j]].collectedAt)
    ensures |Window(db, l, now)| < MIN_SAMPLES <==> |ComparableIds(db, l, now, |db.samples|)| < MIN_SAMPLES
  {
    var ids, key, w := ComparableIds(db, l, now, |db.samples|), AgeKey(db, now), Window(db, l, now);
    IdsShape(db, l, now);
    ShortlistIsBest(ids, key, MAX_SAMPLES);
    RoomForAll(ids, key, MAX_SAMPLES);
    hide ComparableIds, SameLane, AgeKey, StableSort, Take, Precedes;
    forall i, j | 0 <= i < j < |w|
      ensures w[i] != w[j] && db.samples[w[i]].collectedAt >= db.samples[w[j]].collectedAt
    {
      assert w[i] in w && w[j] in w;
      NewerFirst(db, now, ids, w[i], w[j]);
      NotBeforeItself(ids, key, w[i]);
    }
    forall i: nat, j: nat | i < |db.samples| && SameLane(l, now, db.samples[i]) && i !in w && j in w
      ensures |w| == MAX_SAMPLES && db.samples[i].collectedAt <= db.samples[j].collectedAt
    {
      NewerFirst(db, now, ids, j, i);
    }
  }

  lemma NotBeforeItself(rows: seq<nat>, key: nat -> real, a: nat)
    requires Distinct(rows)
    ensures !Precedes(rows, key, a, a)
  {
  }

  function IsComparable(l: Load, now: int): PriceSample -> bool {
    (s: PriceSample) => SameLane(l, now, s)
  }

  /** There are at least three comparable samples in the table. */
  predicate EnoughSamples(db: Db, l: Load, now: int) {
    Count(db.samples, IsComparable(l, now)) >= MIN_SAMPLES
  }

  lemma {:induction false} ComparableIdsCount(db: Db, l: Load, now: int, n: nat)
    requires n <= |db.samples|
    ensures |ComparableIds(db, l, now, n)| == Count(db.samples[..n], IsComparable(l, now))
  {
    if n > 0 {
      ComparableIdsCount(db, l, now, n - 1);
      assert db.samples[..n] == db.samples[..n - 1] + [db.samples[n - 1]];
      CountAppend(db.samples[..n - 1], db.samples[n - 1], IsComparable(l, now));
    }
  }

  /** The window of at most twenty is short exactly if the table is. */
  lemma WindowIsEnough(db: Db, l: Load, now: int)
    ensures |Window(db, l, now)| >= MIN_SAMPLES <==> EnoughSamples(db, l, now)
  {
    ComparableIdsCount(db, l, now, |db.samples|);
    assert db.samples[..|db.samples|] == db.samples;
    SortContents(ComparableIds(db, l, now, |db.samples|), AgeKey(db, now));
  }

  // ---------- the run ----------

  /** The model's answer, or what becomes of it: a price and a currency. */
  datatype Suggestion = Suggestion(price: int, currency: string)

  predicate Unpriced(m: Match) {
    (m.status == Proposed || m.status == Reviewed) && m.suggestedPrice.None?
  }

  function Prefix3(s: string): string {
    if |s| <= 3 then s else s[..3]
  }

  /** The `i`-th match after the run. The model is asked once per match; `replies`
      holds its usable answers by match. */
  function Priced(db: Db, now: int, replies: map<nat, Suggestion>, i: nat, m: Match): Match {
    if Unpriced(m) && m.load < |db.loads| && EnoughSamples(db, db.loads[m.load], now) && i in replies
    then m.(suggestedPrice := Some(replies[i].price),
            suggestedCurrency := Some(Prefix3(Upper(replies[i].currency))))
    else m
  }

  /** What the run makes of the `i`-th match: an open match without a price gets the
      one answered for it, if its load has three samples of its lane. */
  ghost predicate IsPricedFrom(db: Db, now: int, replies: map<nat, Suggestion>, i: nat, a: Match, b: Match) {
    if (a.status == Proposed || a.status == Reviewed) && a.suggestedPrice == None && i in replies
       && a.load < |db.loads| && Count(db.samples, IsComparable(db.loads[a.load], now)) >= 3
    then
      && b.suggestedPrice == Some(replies[i].price) && b.suggestedCurrency.Some?
      && b.suggestedCurrency.value <= Upper(replies[i].currency)
      && |b.suggestedCurrency.value| == (if |replies[i].currency| < 3 then |replies[i].currency| else 3)
      && a == b.(suggestedPrice := None, suggestedCurrency := a.suggestedCurrency)
    else b == a
  }

  lemma PricedIsPricedFrom(db: Db, now: int, replies: map<nat, Suggestion>, i: nat, m: Match)
    ensures IsPricedFrom(db, now, replies, i, m, Priced(db, now, replies, i, m))
  {
  }

  function PriceMatches(db: Db, now: int, replies: map<nat, Suggestion>): Db {
    db.(matches := seq(|db.matches|, i requires 0 <= i < |db.matches| => Priced(db, now, replies, i, db.matches[i])))
  }

  /** Two matches of one load may end with different prices. */
  lemma PricesDiffer(db: Db, now: int, i: nat, j: nat, a: Suggestion, b: Suggestion)
    requires i < j < |db.matches| && db.matches[i].load == db.matches[j].load < |db.loads|
    requires Unpriced(db.matches[i]) && Unpriced(db.matches[j]) && EnoughSamples(db, db.loads[db.matches[i].load], now)
    ensures var after := PriceMatches(db, now, map[i := a, j := b]).matches;
            after[i].suggestedPrice == Some(a.price) && after[j].suggestedPrice == Some(b.price)
  {
  }

  class PricingAgent {
    const session: Session

    constructor (session: Session)
      ensures this.session == session
    {
      this.session := session;
    }

    /** `reply` is the model's answer, if it can be read. A price comes out iff the
        table has three comparable samples and the answer is usable; the currency
        is the upper-case answer cut to three letters. */
    method SuggestPrice(load: nat, now: int, reply: Option<Suggestion>) returns (s: Option<Suggestion>)
      requires load < |session.tx.loads|
      ensures s.Some? <==> reply.Some? && Count(session.tx.samples, IsComparable(session.tx.loads[load], now)) >= 3
      ensures s.Some? ==> s.value.price == reply.value.price
      ensures s.Some? ==> s.value.currency <= Upper(reply.value.currency)
                          && |s.value.currency| == if |reply.value.currency| < 3 then |reply.value.currency| else 3
    {
      var samples := Window(session.tx, session.tx.loads[load], now);
      WindowIsEnough(session.tx, session.tx.loads[load], now);
      if |samples| < MIN_SAMPLES || reply.None? {
        return None;
      }
      return Some(Suggestion(reply.value.price, Prefix3(Upper(reply.value.currency))));
    }

    /** Only open matches without a price change, and the count is how many got one. */
    method PriceAllUnpricedMatches(now: int, replies: map<nat, Suggestion>) returns (priced: nat)
      requires session.Idle()
      modifies session
      ensures session.Idle() && session.db == PriceMatches(old(session.db), now, replies)
      ensures priced == Count(old(session.db.matches), Unpriced) - Count(session.db.matches, Unpriced)
      ensures session.db == old(session.db).(matches := session.db.matches)
      ensures |session.db.matches| == |old(session.db.matches)|
      ensures forall i | 0 <= i < |session.db.matches| ::
                IsPricedFrom(old(session.db), now, replies, i, old(session.db).matches[i], session.db.matches[i])
    {
      ghost var db := session.db;
      priced := 0;
      for i := 0 to |session.tx.matches|
        invariant session.db == db && session.pending == []
        invariant session.tx == db.(matches := session.tx.matches) && |session.tx.matches| == |db.matches|
        invariant forall k | 0 <= k < |db.matches| ::
                    session.tx.matches[k] == if k < i then Priced(db, now, replies, k, db.matches[k]) else db.matches[k]
        invariant priced == Count(db.matches, Unpriced) - Count(session.tx.matches, Unpriced)
        invariant priced == 0 ==> session.tx.matches == db.matches
      {
        var m := session.tx.matches[i];
        if !Unpriced(m) || m.load >= |session.tx.loads| {
          continue;
        }
        var reply := if i in replies then Some(replies[i]) else None;
        var result := SuggestPrice(m.load, now, reply);
        if result.Some? {
          assert result.value.currency == Prefix3(Upper(reply.value.currency));
          var after := m.(suggestedPrice := Some(result.value.price),
                          suggestedCurrency := Some(result.value.currency));
          CountUpdate(session.tx.matches, i, after, Unpriced);
          session.tx := session.tx.(matches := session.tx.matches[i := after]);
          priced := priced + 1;
        }
      }
      assert session.tx.matches == PriceMatches(db, now, replies).matches;
      forall i | 0 <= i < |db.matches|
        ensures IsPricedFrom(db, now, replies, i, db.matches[i], session.tx.matches[i])
      {
        PricedIsPricedFrom(db, now, replies, i, db.matches[i]);
      }
      hide IsPricedFrom;
      if priced > 0 {
        assert FlushRows(session.tx, []) == Some(session.tx);
        var _ := session.Commit();
      }
    }
  }
}
