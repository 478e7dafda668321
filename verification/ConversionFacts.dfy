/** What the conversion journeys of a cell add up to, and the metrics of a cell made from it. */
module ConversionFacts {
  import opened Wrappers
  import opened Ordering
  import opened LearningContracts

  datatype Milestone = Activated | Paid | RetainedM1 | RetainedM2 | Churned | MrrChanged | OtherMilestone

  datatype Money = Money(currency: Currency, minorUnits: nat)

  /** `mrr` is the recurring revenue an MRR change states, if it is known. Instants count microseconds. */
  datatype Event = Event(ref: string, occurredAt: int, milestone: Milestone, mrr: Option<Money>)

  const DAY := 86_400_000_000

  predicate EventLeq(a: Event, b: Event) {
    a.occurredAt < b.occurredAt || (a.occurredAt == b.occurredAt && StringLeq(a.ref, b.ref))
  }

  lemma EventOrder()
    ensures IsPreorder(EventLeq)
  {
    forall x, y ensures EventLeq(x, y) || EventLeq(y, x) {
      StringLeqTotal(x.ref, y.ref);
    }
    forall x, y, z | EventLeq(x, y) && EventLeq(y, z) ensures EventLeq(x, z) {
      if StringLeq(x.ref, y.ref) && StringLeq(y.ref, z.ref) { StringLeqTransitive(x.ref, y.ref, z.ref); }
    }
  }

  // ---------- one journey ----------

  predicate Reached(events: seq<Event>, m: Milestone) {
    exists e :: e in events && e.milestone == m
  }

  /** The latest MRR change in the order of the events. */
  function LatestMrr(events: seq<Event>): Option<Event> {
    if events == [] then None
    else if events[|events| - 1].milestone == MrrChanged then Some(events[|events| - 1])
    else LatestMrr(events[..|events| - 1])
  }

  /** When a journey first paid; it is asked only of journeys that did. */
  function PaidBy(events: seq<Event>, instant: int): bool {
    exists e :: e in events && e.milestone == Paid && e.occurredAt <= instant
  }

  /** The revenue a paid journey counts with, if it is known; a churned journey counts with none. */
  function KnownMoney(events: seq<Event>): Option<Money> {
    match LatestMrr(Sort(events, EventLeq))
    case None => None
    case Some(e) =>
      match e.mrr
      case None => None
      case Some(m) => Some(Money(m.currency, if Reached(events, Churned) then 0 else m.minorUnits))
  }

  /** The latest change is known, and is zero if the journey churned. */
  predicate Settled(events: seq<Event>) {
    match LatestMrr(Sort(events, EventLeq))
    case None => false
    case Some(e) => e.mrr.Some? && (Reached(events, Churned) ==> e.mrr.value.minorUnits == 0)
  }

  // ---------- a cell ----------

  type Journeys = map<string, seq<Event>>

  function EventsOf(events: Journeys, journey: string): seq<Event> {
    if journey in events then events[journey] else []
  }

  datatype Totals = Totals(
    activation: nat, paid: nat, m1Eligible: nat, retainedM1: nat, m2Eligible: nat, retainedM2: nat, churn: nat,
    knownMrr: nat, retainedMrr: nat, currencies: set<Currency>, complete: bool)

  function One(b: bool): nat {
    if b then 1 else 0
  }

  /** What a paid journey adds to the counts. */
  function AddedCounts(t: Totals, es: seq<Event>, windowEnd: int): Totals {
    t.(
      paid := t.paid + 1,
      m1Eligible := t.m1Eligible + One(PaidBy(es, windowEnd - 30 * DAY)),
      retainedM1 := t.retainedM1 + One(PaidBy(es, windowEnd - 30 * DAY) && Reached(es, RetainedM1)),
      m2Eligible := t.m2Eligible + One(PaidBy(es, windowEnd - 60 * DAY)),
      retainedM2 := t.retainedM2 + One(PaidBy(es, windowEnd - 60 * DAY) && Reached(es, RetainedM2)),
      churn := t.churn + One(Reached(es, Churned)))
  }

  /** What a paid journey adds to the revenue. */
  function AddedMoney(t: Totals, es: seq<Event>): Totals {
    var settled := t.(complete := t.complete && Settled(es));
    match KnownMoney(es)
    case None => settled
    case Some(m) => settled.(
      knownMrr := t.knownMrr + m.minorUnits,
      retainedMrr := t.retainedMrr + (if Reached(es, RetainedM1) then m.minorUnits else 0),
      currencies := t.currencies + {m.currency})
  }

  /** What one journey adds. */
  function Added(t: Totals, es: seq<Event>, windowEnd: int): Totals {
    var active := t.(activation := t.activation + One(Reached(es, Activated)));
    if Reached(es, Paid) then AddedMoney(AddedCounts(active, es, windowEnd), es) else active
  }

  const NO_TOTALS := Totals(0, 0, 0, 0, 0, 0, 0, 0, 0, {}, true)

  function TotalsOf(journeys: seq<string>, events: Journeys, windowEnd: int): Totals {
    if journeys == [] then NO_TOTALS
    else Added(TotalsOf(journeys[..|journeys| - 1], events, windowEnd), EventsOf(events, journeys[|journeys| - 1]), windowEnd)
  }

  datatype Conversion = Conversion(
    activation: nat, paid: nat, knownMrr: nat, retainedMrr: nat, currency: Option<Currency>, mrrComplete: bool,
    m1Eligible: nat, retainedM1: nat, m2Eligible: nat, retainedM2: nat, churn: nat)

  function TheCurrency(currencies: set<Currency>): Option<Currency> {
    if currencies == {CHF} then Some(CHF) else if currencies == {EUR} then Some(EUR) else None
  }

  function Concluded(t: Totals): Conversion {
    Conversion(t.activation, t.paid, t.knownMrr, t.retainedMrr, TheCurrency(t.currencies),
      t.complete && |t.currencies| <= 1, t.m1Eligible, t.retainedM1, t.m2Eligible, t.retainedM2, t.churn)
  }

  function ConversionOf(journeys: seq<string>, events: Journeys, windowEnd: int): Conversion {
    Concluded(TotalsOf(journeys, events, windowEnd))
  }

  method ConversionFacts(journeys: seq<string>, events: Journeys, windowEnd: int) returns (c: Conversion)
    ensures c == ConversionOf(journeys, events, windowEnd)
  {
    var t := NO_TOTALS;
    for i := 0 to |journeys|
      invariant t == TotalsOf(journeys[..i], events, windowEnd)
    {
      assert journeys[..i + 1][..i] == journeys[..i];
      t := AddJourney(t, EventsOf(events, journeys[i]), windowEnd);
    }
    assert journeys[..|journeys|] == journeys;
    c := Concluded(t);
  }

  /** The body of the loop, with its early exits. */
  method AddJourney(before: Totals, unsorted: seq<Event>, windowEnd: int) returns (t: Totals)
    ensures t == Added(before, unsorted, windowEnd)
  {
    var events := Sort(unsorted, EventLeq);
    SortKeeps(unsorted, EventLeq);
    SameMilestones(unsorted, events, windowEnd);
    t := before.(activation := before.activation + One(Reached(events, Activated)));
    if !Reached(events, Paid) { return; }
    t := AddCounts(t, unsorted, events, windowEnd);
    t := AddMoney(t, unsorted, events);
  }

  method AddCounts(before: Totals, ghost unsorted: seq<Event>, events: seq<Event>, windowEnd: int) returns (t: Totals)
    requires forall m :: Reached(unsorted, m) == Reached(events, m)
    requires forall n :: PaidBy(unsorted, n) == PaidBy(events, n)
    ensures t == AddedCounts(before, unsorted, windowEnd)
  {
    t := before.(paid := before.paid + 1);
    if PaidBy(events, windowEnd - 30 * DAY) {
      t := t.(m1Eligible := t.m1Eligible + 1, retainedM1 := t.retainedM1 + One(Reached(events, RetainedM1)));
    }
    if PaidBy(events, windowEnd - 60 * DAY) {
      t := t.(m2Eligible := t.m2Eligible + 1, retainedM2 := t.retainedM2 + One(Reached(events, RetainedM2)));
    }
    t := t.(churn := t.churn + One(Reached(events, Churned)));
  }

  method AddMoney(before: Totals, ghost unsorted: seq<Event>, events: seq<Event>) returns (t: Totals)
    requires events == Sort(unsorted, EventLeq) && forall m :: Reached(unsorted, m) == Reached(events, m)
    ensures t == AddedMoney(before, unsorted)
  {
    t := before;
    var latest := LatestMrr(events);
    if latest == None || latest.value.mrr == None {
      t := t.(complete := false);
      return;
    }
    var money := latest.value.mrr.value;
    var amount := money.minorUnits;
    var churned := Reached(events, Churned);
    t := t.(currencies := t.currencies + {money.currency});
    if churned {
      if amount != 0 { t := t.(complete := false); }
      amount := 0;
    }
    t := t.(knownMrr := t.knownMrr + amount);
    if Reached(events, RetainedM1) && !churned { t := t.(retainedMrr := t.retainedMrr + amount); }
  }

  lemma SameMilestones(a: seq<Event>, b: seq<Event>, windowEnd: int)
    requires forall x :: x in b <==> x in a
    ensures forall m :: Reached(a, m) == Reached(b, m)
    ensures forall n :: PaidBy(a, n) == PaidBy(b, n)
  {
  }

  // ---------- what the totals mean ----------

  ghost predicate PaidIn(events: Journeys, j: string) {
    Reached(EventsOf(events, j), Paid)
  }

  ghost function Where(journeys: seq<string>, p: string -> bool): set<string> {
    set j | j in journeys && p(j)
  }

  lemma WhereOneMore(journeys: seq<string>, j: string, p: string -> bool)
    requires j !in journeys
    ensures |Where(journeys + [j], p)| == |Where(journeys, p)| + One(p(j))
  {
    assert Where(journeys + [j], p) == Where(journeys, p) + if p(j) then {j} else {};
  }

  ghost function ReachedIn(events: Journeys, m: Milestone): string -> bool {
    (j: string) => Reached(EventsOf(events, j), m)
  }

  ghost function PaidAnd(events: Journeys, m: Milestone): string -> bool {
    (j: string) => Reached(EventsOf(events, j), Paid) && Reached(EventsOf(events, j), m)
  }

  ghost function EligibleAnd(events: Journeys, instant: int, m: Option<Milestone>): string -> bool {
    (j: string) => PaidBy(EventsOf(events, j), instant) && (m.Some? ==> Reached(EventsOf(events, j), m.value))
  }

  lemma AddedToCounts(t: Totals, es: seq<Event>, windowEnd: int)
    ensures var after := Added(t, es, windowEnd); var m1, m2 := windowEnd - 30 * DAY, windowEnd - 60 * DAY;
      && after.activation == t.activation + One(Reached(es, Activated))
      && after.paid == t.paid + One(Reached(es, Paid))
      && after.churn == t.churn + One(Reached(es, Paid) && Reached(es, Churned))
      && after.m1Eligible == t.m1Eligible + One(PaidBy(es, m1))
      && after.retainedM1 == t.retainedM1 + One(PaidBy(es, m1) && Reached(es, RetainedM1))
      && after.m2Eligible == t.m2Eligible + One(PaidBy(es, m2))
      && after.retainedM2 == t.retainedM2 + One(PaidBy(es, m2) && Reached(es, RetainedM2))
  {
    assert forall n :: PaidBy(es, n) ==> Reached(es, Paid);
  }

  /** The totals are numbers of journeys. */
  ghost predicate Counts(t: Totals, journeys: seq<string>, events: Journeys) {
    && t.activation == |Where(journeys, ReachedIn(events, Activated))|
    && t.paid == |Where(journeys, ReachedIn(events, Paid))|
    && t.churn == |Where(journeys, PaidAnd(events, Churned))|
  }

  /** A journey is eligible when it had paid 30 or 60 days before the end of the window, and retained when it
      also reached the milestone. */
  ghost predicate CountsEligible(t: Totals, journeys: seq<string>, events: Journeys, m1: int, m2: int) {
    && t.m1Eligible == |Where(journeys, EligibleAnd(events, m1, None))|
    && t.retainedM1 == |Where(journeys, EligibleAnd(events, m1, Some(RetainedM1)))|
    && t.m2Eligible == |Where(journeys, EligibleAnd(events, m2, None))|
    && t.retainedM2 == |Where(journeys, EligibleAnd(events, m2, Some(RetainedM2)))|
  }

  lemma CountOneMore(t: Totals, journeys: seq<string>, events: Journeys, windowEnd: int, j: string, after: Totals)
    requires j !in journeys && Counts(t, journeys, events) && after == Added(t, EventsOf(events, j), windowEnd)
    ensures Counts(after, journeys + [j], events)
  {
    AddedToCounts(t, EventsOf(events, j), windowEnd);
    WhereOneMore(journeys, j, ReachedIn(events, Activated));
    WhereOneMore(journeys, j, ReachedIn(events, Paid));
    WhereOneMore(journeys, j, PaidAnd(events, Churned));
  }

  lemma CountOneMoreEligible(t: Totals, journeys: seq<string>, events: Journeys, windowEnd: int, j: string, after: Totals)
    requires j !in journeys && CountsEligible(t, journeys, events, windowEnd - 30 * DAY, windowEnd - 60 * DAY)
    requires after == Added(t, EventsOf(events, j), windowEnd)
    ensures CountsEligible(after, journeys + [j], events, windowEnd - 30 * DAY, windowEnd - 60 * DAY)
  {
    var m1, m2 := windowEnd - 30 * DAY, windowEnd - 60 * DAY;
    AddedToCounts(t, EventsOf(events, j), windowEnd);
    WhereOneMore(journeys, j, EligibleAnd(events, m1, None));
    WhereOneMore(journeys, j, EligibleAnd(events, m1, Some(RetainedM1)));
    WhereOneMore(journeys, j, EligibleAnd(events, m2, None));
    WhereOneMore(journeys, j, EligibleAnd(events, m2, Some(RetainedM2)));
  }

  lemma {:induction false} TotalsCountJourneys(journeys: seq<string>, events: Journeys, windowEnd: int)
    requires NoDuplicates(journeys)
    ensures Counts(TotalsOf(journeys, events, windowEnd), journeys, events)
    ensures CountsEligible(TotalsOf(journeys, events, windowEnd), journeys, events, windowEnd - 30 * DAY, windowEnd - 60 * DAY)
  {
    if journeys != [] {
      var init, j := journeys[..|journeys| - 1], journeys[|journeys| - 1];
      TotalsCountJourneys(init, events, windowEnd);
      assert journeys == init + [j] && j !in init;
      var t := TotalsOf(init, events, windowEnd);
      var after := Added(t, EventsOf(events, j), windowEnd);
      assert TotalsOf(journeys, events, windowEnd) == after;
      CountOneMore(t, init, events, windowEnd, j, after);
      CountOneMoreEligible(t, init, events, windowEnd, j, after);
    }
  }

  /** Revenue is complete exactly when the latest change of every paid journey is known, is zero where the
      journey churned, and all of them are in one currency. */
  lemma {:induction false} CompleteIffAllSettled(journeys: seq<string>, events: Journeys, windowEnd: int)
    ensures var t := TotalsOf(journeys, events, windowEnd);
      && (t.complete <==> forall j :: j in journeys && PaidIn(events, j) ==> Settled(EventsOf(events, j)))
      && (forall c :: c in t.currencies <==>
            exists j :: j in journeys && PaidIn(events, j) && PaysIn(EventsOf(events, j), c))
  {
    if journeys != [] {
      var init, j := journeys[..|journeys| - 1], journeys[|journeys| - 1];
      CompleteIffAllSettled(init, events, windowEnd);
      assert journeys == init + [j];
    }
  }

  predicate PaysIn(events: seq<Event>, c: Currency) {
    KnownMoney(events).Some? && KnownMoney(events).value.currency == c
  }

  ghost predicate CoherentTotals(t: Totals) {
    && t.retainedM1 <= t.m1Eligible <= t.paid && t.retainedM2 <= t.m2Eligible <= t.m1Eligible
    && t.churn <= t.paid && t.retainedMrr <= t.knownMrr
    && (t.complete && t.paid > 0 ==> t.currencies != {})
  }

  lemma AddedStaysCoherent(t: Totals, es: seq<Event>, windowEnd: int)
    requires CoherentTotals(t)
    ensures CoherentTotals(Added(t, es, windowEnd))
  {
    AddedToCounts(t, es, windowEnd);
    assert PaidBy(es, windowEnd - 60 * DAY) ==> PaidBy(es, windowEnd - 30 * DAY);
    assert PaidBy(es, windowEnd - 30 * DAY) ==> Reached(es, Paid);
    assert Settled(es) ==> KnownMoney(es).Some?;
  }

  lemma {:induction false} TotalsAreCoherent(journeys: seq<string>, events: Journeys, windowEnd: int)
    ensures CoherentTotals(TotalsOf(journeys, events, windowEnd))
  {
    if journeys != [] {
      TotalsAreCoherent(journeys[..|journeys| - 1], events, windowEnd);
      AddedStaysCoherent(TotalsOf(journeys[..|journeys| - 1], events, windowEnd), EventsOf(events, journeys[|journeys| - 1]), windowEnd);
    }
  }

  lemma OneCurrency(currencies: set<Currency>)
    requires currencies != {} && |currencies| <= 1
    ensures TheCurrency(currencies).Some? && currencies == {TheCurrency(currencies).value}
  {
    var c :| c in currencies;
    assert |currencies - {c}| == 0;
    assert currencies == {c};
    match c case CHF => case EUR =>
  }

  // ---------- the metrics of a cell ----------

  datatype CostFact = CostFact(minorUnits: nat, currency: Option<Currency>, complete: bool, missing: seq<string>)

  /** Who replied, bounced or complained, and which replies cannot be judged. */
  datatype Reactions = Reactions(
    bounces: set<string>, positive: set<string>, complaints: set<string>, unsubscribes: set<string>, ambiguous: set<string>)

  function MetricsOf(cell: Cell, members: set<string>, r: Reactions, clicks: nat, signups: nat, c: Conversion, cost: CostFact)
    : CellMetrics
  {
    CellMetrics(cell, |members|, |members * r.bounces|, |members * r.positive|, |members * r.complaints|,
      |members * r.unsubscribes|, clicks, signups, c.activation, c.paid, c.knownMrr, c.retainedMrr, c.currency, c.mrrComplete,
      c.m1Eligible, c.retainedM1, c.m2Eligible, c.retainedM2, c.churn, cost.minorUnits, cost.currency, cost.complete,
      members * r.ambiguous != {})
  }

  /** The validator of the metrics contract. */
  predicate Coherent(m: CellMetrics, missingCosts: seq<string>) {
    && m.bounceCount <= m.contactedCount && m.positiveReplyCount <= m.contactedCount
    && m.complaintCount <= m.contactedCount && m.unsubscribeCount <= m.contactedCount
    && m.retainedM1Count <= m.m1EligibleCount && m.retainedM2Count <= m.m2EligibleCount
    && m.churnCount <= m.paidCount
    && !(m.costComplete && missingCosts != [])
    && !(m.mrrComplete && m.paidCount > 0 && m.currency == None)
    && !(m.costComplete && m.costCurrency == None)
  }

  predicate CoherentCost(cost: CostFact) {
    cost.complete ==> cost.missing == [] && cost.currency.Some?
  }

  lemma PartOf(members: set<string>, others: set<string>)
    ensures |members * others| <= |members|
  {
    var part, rest := members * others, members - others;
    assert members == part + rest && part * rest == {};
    assert |part + rest| == |part| + |rest|;
  }

  /** A capture trips the validator only over the cost it was given: whatever was recorded of replies and
      journeys, the metrics are accepted if and only if the cost fact is coherent. */
  lemma CaptureIsCoherentIffCostIs(cell: Cell, members: set<string>, r: Reactions, clicks: nat, journeys: seq<string>,
                                   events: Journeys, windowEnd: int, cost: CostFact)
    ensures Coherent(
      MetricsOf(cell, members, r, clicks, |journeys|, ConversionOf(journeys, events, windowEnd), cost), cost.missing)
      <==> CoherentCost(cost)
  {
    PartOf(members, r.bounces);
    PartOf(members, r.positive);
    PartOf(members, r.complaints);
    PartOf(members, r.unsubscribes);
    TotalsAreCoherent(journeys, events, windowEnd);
    var t := TotalsOf(journeys, events, windowEnd);
    if t.complete && t.paid > 0 && |t.currencies| <= 1 { OneCurrency(t.currencies); }
  }

  // ---------- the order of the events ----------

  /** Events with distinct references give the same facts in whatever order they were read. */
  lemma JourneyIgnoresArrival(t: Totals, a: seq<Event>, b: seq<Event>, windowEnd: int)
    requires multiset(a) == multiset(b) && forall x, y :: x in a && y in a && x.ref == y.ref ==> x == y
    ensures Added(t, a, windowEnd) == Added(t, b, windowEnd)
  {
    EventOrder();
    forall x, y | x in a && y in a && EventLeq(x, y) && EventLeq(y, x) ensures x == y {
      StringLeqAntisymmetric(x.ref, y.ref);
    }
    SortIgnoresArrival(a, b, EventLeq);
    SameMultisetSameElements(a, b);
    SameMilestones(a, b, windowEnd);
    SameRevenue(a, b);
    forall x ensures AddedCounts(x, a, windowEnd) == AddedCounts(x, b, windowEnd) {
      SameCounts(x, a, b, windowEnd);
    }
    SameJourney(t, a, b, windowEnd);
  }

  ghost predicate SameMarks(a: seq<Event>, b: seq<Event>) {
    forall m :: Reached(a, m) == Reached(b, m)
  }

  lemma SameRevenue(a: seq<Event>, b: seq<Event>)
    requires Sort(a, EventLeq) == Sort(b, EventLeq) && SameMarks(a, b)
    ensures KnownMoney(a) == KnownMoney(b) && Settled(a) == Settled(b)
  {
    assert Reached(a, Churned) == Reached(b, Churned);
  }

  lemma SameCounts(t: Totals, a: seq<Event>, b: seq<Event>, windowEnd: int)
    requires SameMarks(a, b) && forall n :: PaidBy(a, n) == PaidBy(b, n)
    ensures AddedCounts(t, a, windowEnd) == AddedCounts(t, b, windowEnd)
  {
  }

  lemma SameJourney(t: Totals, a: seq<Event>, b: seq<Event>, windowEnd: int)
    requires SameMarks(a, b) && KnownMoney(a) == KnownMoney(b) && Settled(a) == Settled(b)
    requires forall x :: AddedCounts(x, a, windowEnd) == AddedCounts(x, b, windowEnd)
    ensures Added(t, a, windowEnd) == Added(t, b, windowEnd)
  {
    assert Reached(a, Activated) == Reached(b, Activated) && Reached(a, Paid) == Reached(b, Paid);
    assert Reached(a, RetainedM1) == Reached(b, RetainedM1);
  }

  /** The change that counts is the last one: no MRR change comes after it. */
  lemma LatestIsLast(events: seq<Event>)
    ensures var latest := LatestMrr(Sort(events, EventLeq));
      && (latest == None <==> !Reached(events, MrrChanged))
      && (latest.Some? ==> latest.value in events && latest.value.milestone == MrrChanged)
      && (latest.Some? ==> forall e :: e in events && e.milestone == MrrChanged ==> EventLeq(e, latest.value))
  {
    EventOrder();
    SortKeeps(events, EventLeq);
    SortSorts(events, EventLeq);
    LatestOfSorted(Sort(events, EventLeq));
  }

  lemma {:induction false} LatestOfSorted(events: seq<Event>)
    requires Sorted(events, EventLeq) && IsPreorder(EventLeq)
    ensures var latest := LatestMrr(events);
      && (latest == None <==> !Reached(events, MrrChanged))
      && (latest.Some? ==> latest.value in events && latest.value.milestone == MrrChanged)
      && (latest.Some? ==> forall e :: e in events && e.milestone == MrrChanged ==> EventLeq(e, latest.value))
  {
    if events != [] {
      LatestOfSorted(events[..|events| - 1]);
      assert events == events[..|events| - 1] + [events[|events| - 1]];
    }
  }
}
