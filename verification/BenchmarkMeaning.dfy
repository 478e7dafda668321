/** How the benchmark is dealt out: from each zone, and in its completion, fairly over the strata, in their order, and
    from each stratum its best; and which signals share a stratum. */
module BenchmarkMeaning {
  import opened Wrappers
  import opened Ordering
  import opened NoticeCap
  import opened Dealing
  import opened Benchmark

  // ---------- strata ----------

  /** The country a signal counts for; a missing and an empty one are the same. */
  function CountryOf(s: WedgeSignal): string {
    if s.detail.country == None || s.detail.country == Some("") then "?" else s.detail.country.value
  }

  /** Both amounts are unpublished, or no band ends between them. */
  ghost predicate SameBand(a: Option<real>, b: Option<real>) {
    if a.Some? && b.Some? then
      && (a.value < 250000.0 <==> b.value < 250000.0) && (a.value < 1000000.0 <==> b.value < 1000000.0)
      && (a.value < 5000000.0 <==> b.value < 5000000.0)
    else a == b
  }

  lemma ValueBandIff(a: Option<real>, b: Option<real>)
    ensures ValueBand(a) == ValueBand(b) <==> SameBand(a, b)
  {
    assert "unpublished"[2] == 'p' && "under_250k"[2] == 'd' && "250k_1m"[2] == '0' && "1m_5m"[2] == '_';
    assert "over_5m"[2] == 'e';
  }

  /** Two signals share a stratum if and only if they come from one source, count for one country, belong to one trade
      domain, and have amounts in one band. */
  lemma SameStratumIff(x: WedgeSignal, y: WedgeSignal)
    ensures StratumOf(x) == StratumOf(y) <==>
      && x.notice.source == y.notice.source && CountryOf(x) == CountryOf(y)
      && x.detail.tradeDomain == y.detail.tradeDomain && SameBand(x.detail.amount, y.detail.amount)
  {
    ValueBandIff(x.detail.amount, y.detail.amount);
  }

  // ---------- dealing ----------

  ghost predicate Exhausted(picked: seq<WedgeSignal>, from: seq<WedgeSignal>, k: Stratum) {
    OfStratum(picked, k) == OfStratum(Ordered(from), k)
  }

  /** Exactly as many as wanted, or all; of each stratum its best; none two ahead of another that still has some; and
      the extra ones to the strata that come first. */
  ghost predicate DealtOut(picked: seq<WedgeSignal>, from: seq<WedgeSignal>, wanted: int) {
    && |picked| == Min(if wanted < 0 then 0 else wanted, |from|) && multiset(picked) <= multiset(from)
    && (forall k :: OfStratum(picked, k) <= OfStratum(Ordered(from), k))
    && (forall a, b :: |OfStratum(picked, a)| >= |OfStratum(picked, b)| + 2 ==> Exhausted(picked, from, b))
    && (forall a, b :: a != b && Precedes(a, b) && |OfStratum(picked, a)| < |OfStratum(picked, b)| ==> Exhausted(picked, from, a))
  }

  lemma SpreadIsDealtOut(from: seq<WedgeSignal>, wanted: int)
    ensures DealtOut(Spread(from, wanted), from, wanted)
  {
    var picked := Spread(from, wanted);
    SpreadCount(from, wanted);
    SpreadSelects(from, wanted);
    forall k ensures OfStratum(picked, k) <= OfStratum(Ordered(from), k) {
      SpreadTakesBest(from, wanted, k);
    }
    forall a, b | |OfStratum(picked, a)| >= |OfStratum(picked, b)| + 2 ensures Exhausted(picked, from, b) {
      SpreadIsFair(from, wanted, a, b);
    }
    forall a, b | a != b && Precedes(a, b) && |OfStratum(picked, a)| < |OfStratum(picked, b)| ensures Exhausted(picked, from, a) {
      SpreadServesInOrder(from, wanted, a, b);
    }
  }

  /** The picks of a feed larger than the target: a third of it, rounded down, is dealt out from the top zone and from
      the bottom zone each, and what is left of it from the middle zone. */
  lemma ZonesAreDealtOut(capped: seq<WedgeSignal>, target: nat)
    returns (top: seq<WedgeSignal>, middle: seq<WedgeSignal>, bottom: seq<WedgeSignal>)
    ensures ZonePicks(capped, target) == top + middle + bottom
    ensures var (zones, third) := (ThirdsOf(capped), target / 3);
      && DealtOut(top, zones.top, third) && DealtOut(bottom, zones.bottom, third)
      && DealtOut(middle, zones.middle, target - third - third)
  {
    var zones := ThirdsOf(capped);
    top, middle, bottom := Spread(zones.top, target / 3), Spread(zones.middle, MiddleQuota(target)), Spread(zones.bottom, target / 3);
    SpreadIsDealtOut(zones.top, target / 3);
    SpreadIsDealtOut(zones.middle, MiddleQuota(target));
    SpreadIsDealtOut(zones.bottom, target / 3);
  }

  /** The completion is dealt out from the signals whose ids were not picked. */
  lemma CompletionIsDealtOut(capped: seq<WedgeSignal>, picked: seq<WedgeSignal>, target: int)
    returns (more: seq<WedgeSignal>, rest: seq<WedgeSignal>)
    requires |picked| < target
    ensures Completed(capped, picked, target) == picked + more && DealtOut(more, rest, target - |picked|)
    ensures forall x :: multiset(rest)[x] == if exists y :: y in picked && y.id == x.id then 0 else multiset(capped)[x]
  {
    rest := NotChosen(capped, IdsOf(picked));
    more := Spread(rest, target - |picked|);
    SpreadIsDealtOut(rest, target - |picked|);
    forall x ensures multiset(rest)[x] == if exists y :: y in picked && y.id == x.id then 0 else multiset(capped)[x] {
      NotChosenSelects(capped, IdsOf(picked), x);
    }
  }
}
