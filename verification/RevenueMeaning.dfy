/** What the revenue totals of a cell are, said over its journeys and their events alone. */
module RevenueMeaning {
  import opened Wrappers
  import opened Ordering
  import opened LearningContracts
  import opened ConversionFacts

  /** `e` is the last MRR change of a journey: by time, and then by reference. */
  ghost predicate LastChange(events: seq<Event>, e: Event) {
    && e in events && e.milestone == MrrChanged
    && forall f :: f in events && f.milestone == MrrChanged ==>
         f.occurredAt < e.occurredAt || (f.occurredAt == e.occurredAt && StringLeq(f.ref, e.ref))
  }

  ghost predicate DistinctRefs(events: seq<Event>) {
    forall x, y :: x in events && y in events && x.ref == y.ref ==> x == y
  }

  /** The last change says how much the journey pays. */
  ghost predicate Pays(events: seq<Event>, m: Money) {
    exists e :: LastChange(events, e) && e.mrr == Some(m)
  }

  ghost predicate Has(events: seq<Event>, m: Milestone) {
    exists e :: e in events && e.milestone == m
  }

  /** What a journey pays, if it has paid, has not churned, and its last change is known. */
  ghost function Revenue(events: seq<Event>): nat {
    if Has(events, Paid) && !Has(events, Churned) && exists m :: Pays(events, m)
    then var m :| Pays(events, m); m.minorUnits else 0
  }

  ghost function RetainedRevenue(events: seq<Event>): nat {
    if Has(events, RetainedM1) then Revenue(events) else 0
  }

  ghost function Sum(journeys: seq<string>, f: string -> nat): nat {
    if journeys == [] then 0 else Sum(journeys[..|journeys| - 1], f) + f(journeys[|journeys| - 1])
  }

  ghost function RevenueIn(events: Journeys): string -> nat {
    (j: string) => Revenue(EventsOf(events, j))
  }

  ghost function RetainedRevenueIn(events: Journeys): string -> nat {
    (j: string) => RetainedRevenue(EventsOf(events, j))
  }

  lemma LastChangeIsUnique(events: seq<Event>, e: Event, f: Event)
    requires DistinctRefs(events) && LastChange(events, e) && LastChange(events, f)
    ensures e == f
  {
    StringLeqAntisymmetricIf(e.ref, f.ref);
  }

  lemma StringLeqAntisymmetricIf(a: string, b: string)
    ensures StringLeq(a, b) && StringLeq(b, a) ==> a == b
  {
    if StringLeq(a, b) && StringLeq(b, a) { StringLeqAntisymmetric(a, b); }
  }

  lemma LatestIsLastChange(events: seq<Event>)
    ensures var latest := LatestMrr(Sort(events, EventLeq));
      if latest.Some? then LastChange(events, latest.value) else forall e :: !LastChange(events, e)
  {
    LatestIsLast(events);
  }

  /** What a journey is known to pay is what its last change says, or nothing once it has churned. */
  lemma KnownMoneyMeans(events: seq<Event>, m: Money)
    requires DistinctRefs(events)
    ensures Pays(events, m) <==>
      LatestMrr(Sort(events, EventLeq)).Some? && LatestMrr(Sort(events, EventLeq)).value.mrr == Some(m)
  {
    LatestIsLastChange(events);
    var latest := LatestMrr(Sort(events, EventLeq));
    if e :| LastChange(events, e) && e.mrr == Some(m) { LastChangeIsUnique(events, e, latest.value); }
  }

  lemma JourneyRevenue(t: Totals, events: seq<Event>, windowEnd: int)
    requires DistinctRefs(events)
    ensures var after := Added(t, events, windowEnd);
      && after.knownMrr == t.knownMrr + Revenue(events)
      && after.retainedMrr == t.retainedMrr + RetainedRevenue(events)
  {
    assert forall m :: Has(events, m) <==> Reached(events, m);
    var latest := LatestMrr(Sort(events, EventLeq));
    forall m ensures Pays(events, m) <==> latest.Some? && latest.value.mrr == Some(m) {
      KnownMoneyMeans(events, m);
    }
  }

  /** Known revenue is the sum of what the paid journeys that did not churn pay by their last known change, and
      retained revenue is the same sum over those that reached RETAINED_M1. */
  lemma {:induction false} RevenueIsTheSum(journeys: seq<string>, events: Journeys, windowEnd: int)
    requires forall j :: j in journeys ==> DistinctRefs(EventsOf(events, j))
    ensures ConversionOf(journeys, events, windowEnd).knownMrr == Sum(journeys, RevenueIn(events))
    ensures ConversionOf(journeys, events, windowEnd).retainedMrr == Sum(journeys, RetainedRevenueIn(events))
  {
    if journeys != [] {
      var init, j := journeys[..|journeys| - 1], journeys[|journeys| - 1];
      RevenueIsTheSum(init, events, windowEnd);
      JourneyRevenue(TotalsOf(init, events, windowEnd), EventsOf(events, j), windowEnd);
    }
  }

  // ---------- completeness and currency ----------

  /** Nothing is missing of a journey: its last change is known, and is zero if it churned. */
  ghost predicate FullyKnown(events: seq<Event>) {
    exists m :: Pays(events, m) && (Has(events, Churned) ==> m.minorUnits == 0)
  }

  lemma SettledMeans(events: seq<Event>)
    requires DistinctRefs(events)
    ensures Settled(events) <==> FullyKnown(events)
    ensures forall c :: PaysIn(events, c) <==> exists m :: Pays(events, m) && m.currency == c
  {
    var latest := LatestMrr(Sort(events, EventLeq));
    forall m ensures Pays(events, m) <==> latest.Some? && latest.value.mrr == Some(m) {
      KnownMoneyMeans(events, m);
    }
    if Settled(events) { assert Pays(events, latest.value.mrr.value); }
    forall c ensures PaysIn(events, c) <==> exists m :: Pays(events, m) && m.currency == c {
      if PaysIn(events, c) { assert Pays(events, latest.value.mrr.value); }
    }
  }

  /** Some paid journey pays in `c`. */
  ghost predicate SomePaysIn(journeys: seq<string>, events: Journeys, c: Currency) {
    exists j, m :: j in journeys && Has(EventsOf(events, j), Paid) && Pays(EventsOf(events, j), m) && m.currency == c
  }

  /** The currency is stated exactly when all paid journeys with a known change pay in one, and revenue is complete
      exactly when nothing is missing of any paid journey and no two pay in different currencies. */
  lemma CompletenessMeans(journeys: seq<string>, events: Journeys, windowEnd: int)
    requires forall j :: j in journeys ==> DistinctRefs(EventsOf(events, j))
    ensures var c := ConversionOf(journeys, events, windowEnd);
      && (forall k :: c.currency == Some(k) <==> forall x :: SomePaysIn(journeys, events, x) <==> x == k)
      && (c.mrrComplete <==>
            (forall j :: j in journeys && Has(EventsOf(events, j), Paid) ==> FullyKnown(EventsOf(events, j)))
            && !(SomePaysIn(journeys, events, CHF) && SomePaysIn(journeys, events, EUR)))
  {
    var t := TotalsOf(journeys, events, windowEnd);
    CompleteIffAllSettled(journeys, events, windowEnd);
    forall j | j in journeys
      ensures Settled(EventsOf(events, j)) <==> FullyKnown(EventsOf(events, j))
      ensures forall c :: PaysIn(EventsOf(events, j), c) <==> exists m :: Pays(EventsOf(events, j), m) && m.currency == c
    {
      SettledMeans(EventsOf(events, j));
    }
    forall c ensures c in t.currencies <==> SomePaysIn(journeys, events, c) {
    }
    CurrenciesAre(t.currencies);
  }

  lemma CurrenciesAre(some: set<Currency>)
    ensures |some| <= 1 <==> !(CHF in some && EUR in some)
    ensures forall k :: TheCurrency(some) == Some(k) <==> forall x :: x in some <==> x == k
  {
    if CHF in some && EUR in some {
      assert {CHF, EUR} <= some;
      SubsetCount({CHF, EUR}, some);
    } else {
      var k := if CHF in some then CHF else EUR;
      forall x | x in some ensures x == k {
        match x case CHF => case EUR =>
      }
      SubsetCount(some, {k});
    }
    forall k | forall x :: x in some <==> x == k ensures some == {k} {
    }
  }

  // ---------- eligibility ----------

  const MICROSECONDS_A_DAY := 24 * 60 * 60 * 1_000_000

  /** Journeys that had paid this many days before the window ended, and have reached the milestone if one is named. */
  ghost function PaidFor(journeys: seq<string>, events: Journeys, windowEnd: int, days: nat, m: Option<Milestone>): set<string> {
    set j | j in journeys
      && (exists e :: e in EventsOf(events, j) && e.milestone == Paid && e.occurredAt + days * MICROSECONDS_A_DAY <= windowEnd)
      && (m.Some? ==> Has(EventsOf(events, j), m.value))
  }

  lemma PaidForIsEligible(journeys: seq<string>, events: Journeys, windowEnd: int, days: nat, instant: int, m: Option<Milestone>)
    requires instant == windowEnd - days * MICROSECONDS_A_DAY
    ensures PaidFor(journeys, events, windowEnd, days, m) == Where(journeys, EligibleAnd(events, instant, m))
  {
    forall j ensures j in PaidFor(journeys, events, windowEnd, days, m) <==> j in Where(journeys, EligibleAnd(events, instant, m)) {
      assert m.Some? ==> (Has(EventsOf(events, j), m.value) <==> Reached(EventsOf(events, j), m.value));
    }
  }

  ghost predicate CountsPaidFor(c: Conversion, journeys: seq<string>, events: Journeys, windowEnd: int) {
    && c.m1Eligible == |PaidFor(journeys, events, windowEnd, 30, None)|
    && c.retainedM1 == |PaidFor(journeys, events, windowEnd, 30, Some(RetainedM1))|
    && c.m2Eligible == |PaidFor(journeys, events, windowEnd, 60, None)|
    && c.retainedM2 == |PaidFor(journeys, events, windowEnd, 60, Some(RetainedM2))|
  }

  /** A journey is eligible thirty or sixty days after it first paid, and retained when it also reached the milestone. */
  lemma EligibilityMeans(journeys: seq<string>, events: Journeys, windowEnd: int)
    requires NoDuplicates(journeys)
    ensures CountsPaidFor(ConversionOf(journeys, events, windowEnd), journeys, events, windowEnd)
  {
    var t, m1, m2 := TotalsOf(journeys, events, windowEnd), windowEnd - 30 * DAY, windowEnd - 60 * DAY;
    TotalsCountJourneys(journeys, events, windowEnd);
    assert CountsEligible(t, journeys, events, m1, m2);
    EligibleMeans(t, journeys, events, windowEnd, m1, m2);
  }

  lemma EligibleMeans(t: Totals, journeys: seq<string>, events: Journeys, windowEnd: int, m1: int, m2: int)
    requires CountsEligible(t, journeys, events, m1, m2)
    requires m1 == windowEnd - 30 * MICROSECONDS_A_DAY && m2 == windowEnd - 60 * MICROSECONDS_A_DAY
    ensures CountsPaidFor(Concluded(t), journeys, events, windowEnd)
  {
    PaidForIsEligible(journeys, events, windowEnd, 30, m1, None);
    PaidForIsEligible(journeys, events, windowEnd, 30, m1, Some(RetainedM1));
    PaidForIsEligible(journeys, events, windowEnd, 60, m2, None);
    PaidForIsEligible(journeys, events, windowEnd, 60, m2, Some(RetainedM2));
  }

  ghost function Reaching(journeys: seq<string>, events: Journeys, m: Milestone, paid: bool): set<string> {
    set j | j in journeys && Has(EventsOf(events, j), m) && (paid ==> Has(EventsOf(events, j), Paid))
  }

  /** Activated and paid journeys are counted, and of the paid ones those that churned. */
  lemma MilestonesAreCounted(journeys: seq<string>, events: Journeys, windowEnd: int)
    requires NoDuplicates(journeys)
    ensures var c := ConversionOf(journeys, events, windowEnd);
      && c.activation == |Reaching(journeys, events, Activated, false)|
      && c.paid == |Reaching(journeys, events, Paid, false)|
      && c.churn == |Reaching(journeys, events, Churned, true)|
  {
    TotalsCountJourneys(journeys, events, windowEnd);
    assert Reaching(journeys, events, Activated, false) == Where(journeys, ReachedIn(events, Activated));
    assert Reaching(journeys, events, Paid, false) == Where(journeys, ReachedIn(events, Paid));
    assert Reaching(journeys, events, Churned, true) == Where(journeys, PaidAnd(events, Churned));
  }

  // ---------- the metrics of a cell ----------

  /** The reply counts of a cell are numbers of its own members, and its conversions are ambiguous exactly when a
      member's replies are. */
  lemma MetricsCountMembers(cell: Cell, members: set<string>, r: Reactions, clicks: nat, signups: nat, c: Conversion, cost: CostFact)
    ensures var m := MetricsOf(cell, members, r, clicks, signups, c, cost);
      && m.cell == cell && m.contactedCount == |members| && m.clickCount == clicks && m.signupCount == signups
      && m.bounceCount == |set x | x in members && x in r.bounces|
      && m.positiveReplyCount == |set x | x in members && x in r.positive|
      && m.complaintCount == |set x | x in members && x in r.complaints|
      && m.unsubscribeCount == |set x | x in members && x in r.unsubscribes|
      && (m.conversionIdentityAmbiguous <==> exists x :: x in members && x in r.ambiguous)
  {
    assert (set x | x in members && x in r.bounces) == members * r.bounces;
    assert (set x | x in members && x in r.positive) == members * r.positive;
    assert (set x | x in members && x in r.complaints) == members * r.complaints;
    assert (set x | x in members && x in r.unsubscribes) == members * r.unsubscribes;
    if x :| x in members && x in r.ambiguous { assert x in members * r.ambiguous; }
    if members * r.ambiguous != {} { var x :| x in members * r.ambiguous; }
  }

  lemma MetricsTakeConversion(cell: Cell, members: set<string>, r: Reactions, clicks: nat, signups: nat, c: Conversion, cost: CostFact)
    ensures var m := MetricsOf(cell, members, r, clicks, signups, c, cost);
      && m.activationCount == c.activation && m.paidCount == c.paid && m.churnCount == c.churn
      && m.knownMrrMinorUnits == c.knownMrr && m.retainedMrrMinorUnits == c.retainedMrr
      && m.currency == c.currency && m.mrrComplete == c.mrrComplete
      && m.m1EligibleCount == c.m1Eligible && m.retainedM1Count == c.retainedM1
      && m.m2EligibleCount == c.m2Eligible && m.retainedM2Count == c.retainedM2
      && m.knownVariableCostMinorUnits == cost.minorUnits && m.costCurrency == cost.currency && m.costComplete == cost.complete
  {
  }
}
