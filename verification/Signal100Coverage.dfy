/** Which entry the Signal-100 bench takes next, said over the entries already selected: how many of the unmet minima
    it advances, how far its zone is behind, and its score. */
module Signal100Coverage {
  import opened Wrappers
  import opened Ordering
  import opened NoticeCap
  import opened Signal100
  import opened Signal100Select
  import opened Signal100Size

  // ---------- the five minima, over the selected entries ----------

  ghost function OfSource(source: string): PoolEntry -> bool {
    (x: PoolEntry) => x.notice.source == source
  }

  /** Both sources are to have thirty-five entries, and this one's source has fewer. */
  ghost predicate SourceShort(selected: seq<PoolEntry>, x: PoolEntry) {
    (x.notice.source == "ted" || x.notice.source == "simap") && Count(selected, OfSource(x.notice.source)) < 35
  }

  ghost function NoticesIn(selected: seq<PoolEntry>): set<Notice> {
    set y | y in selected :: y.notice
  }

  ghost function CountriesIn(selected: seq<PoolEntry>): set<string> {
    set y | y in selected && y.detail.country.Some? && y.detail.country.value != "" :: y.detail.country.value
  }

  ghost function TypesIn(selected: seq<PoolEntry>): set<string> {
    set y | y in selected :: y.detail.contractType
  }

  ghost function NeedsIn(selected: seq<PoolEntry>): set<string> {
    set y, n | y in selected && n in y.detail.needs :: n
  }

  /** There are to be seventy-five notices, and this one is new. */
  ghost predicate NewNotice(selected: seq<PoolEntry>, x: PoolEntry) {
    |NoticesIn(selected)| < 75 && x.notice !in NoticesIn(selected)
  }

  ghost predicate NewCountry(selected: seq<PoolEntry>, x: PoolEntry) {
    && x.detail.country.Some? && x.detail.country.value != ""
    && |CountriesIn(selected)| < 5 && x.detail.country.value !in CountriesIn(selected)
  }

  ghost predicate NewType(selected: seq<PoolEntry>, x: PoolEntry) {
    |TypesIn(selected)| < 5 && x.detail.contractType !in TypesIn(selected)
  }

  ghost predicate NewNeed(selected: seq<PoolEntry>, x: PoolEntry) {
    |NeedsIn(selected)| < 5 && exists n :: n in x.detail.needs && n !in NeedsIn(selected)
  }

  /** How many unmet minima the entry advances. */
  ghost function Advances(selected: seq<PoolEntry>, x: PoolEntry): nat {
    (if SourceShort(selected, x) then 1 else 0) + (if NewNotice(selected, x) then 1 else 0)
    + (if NewCountry(selected, x) then 1 else 0) + (if NewType(selected, x) then 1 else 0)
    + (if NewNeed(selected, x) then 1 else 0)
  }

  ghost predicate Tells(t: Tally, selected: seq<PoolEntry>, source: string) {
    && t.perSource[source] == Count(selected, OfSource(source))
    && t.notices == NoticesIn(selected) && t.countries == CountriesIn(selected)
    && t.contractTypes == TypesIn(selected) && t.needCategories == NeedsIn(selected)
  }

  lemma TellsOneMore(t: Tally, init: seq<PoolEntry>, last: PoolEntry, zone: Zone, source: string)
    requires Tells(t, init, source)
    ensures Tells(Taken(t, last, zone), init + [last], source)
  {
    OneMoreSelected(init, last);
    assert (init + [last])[..|init|] == init;
  }

  /** The tally holds what its fields say of the selected entries. */
  lemma {:induction false} TallyTells(selected: seq<PoolEntry>, zones: map<string, Zone>, source: string)
    requires Zoned(zones, selected)
    ensures Tells(TallyOf(selected, zones), selected, source)
  {
    if selected != [] {
      var init, last := selected[..|selected| - 1], selected[|selected| - 1];
      TallyTells(init, zones, source);
      TellsOneMore(TallyOf(init, zones), init, last, zones[last.id], source);
      assert selected == init + [last];
    }
  }

  lemma OneMoreSelected(init: seq<PoolEntry>, last: PoolEntry)
    ensures NoticesIn(init + [last]) == NoticesIn(init) + {last.notice}
    ensures CountriesIn(init + [last]) == CountriesIn(init)
      + if last.detail.country.Some? && last.detail.country.value != "" then {last.detail.country.value} else {}
    ensures TypesIn(init + [last]) == TypesIn(init) + {last.detail.contractType}
    ensures NeedsIn(init + [last]) == NeedsIn(init) + set n | n in last.detail.needs
  {
    var all := init + [last];
    assert forall y :: y in all <==> y in init || y == last;
    assert last in all;
    forall n ensures n in NeedsIn(all) <==> n in NeedsIn(init) || n in last.detail.needs {
      if n in NeedsIn(init) {
        var y :| y in init && n in y.detail.needs;
        assert y in all;
      }
    }
    forall c
      ensures c in CountriesIn(all) <==>
        (c in CountriesIn(init)
         || (last.detail.country.Some? && last.detail.country.value != "" && c == last.detail.country.value))
    {
      if c in CountriesIn(init) {
        var y :| y in init && y.detail.country.Some? && y.detail.country.value != "" && y.detail.country.value == c;
        assert y in all;
      }
    }
  }

  lemma GainIsAdvances(selected: seq<PoolEntry>, zones: map<string, Zone>, x: PoolEntry)
    requires Zoned(zones, selected)
    ensures CoverageGain(TallyOf(selected, zones), x) == Advances(selected, x)
  {
    TallyTells(selected, zones, x.notice.source);
    var t := TallyOf(selected, zones);
    assert !(Needs(x) <= t.needCategories) <==> exists n :: n in x.detail.needs && n !in NeedsIn(selected);
  }

  // ---------- who may join ----------

  /** The quota of its zone, the cap of two per notice, and the caps of its profile and contract type leave room. */
  ghost predicate MayJoin(selected: seq<PoolEntry>, zones: map<string, Zone>, caps: Caps, x: PoolEntry)
    requires x.id in zones
  {
    && Count(selected, InZone(zones, zones[x.id])) < Quota(zones[x.id])
    && Count(selected, OfNotice(x.notice)) < 2
    && Count(selected, OfIcp(x.detail.icp)) < caps.perIcp
    && Count(selected, OfContractType(x.detail.contractType)) < caps.perContractType
  }

  lemma AdmitsMeans(selected: seq<PoolEntry>, zones: map<string, Zone>, caps: Caps, x: PoolEntry)
    requires Zoned(zones, selected) && x.id in zones
    ensures Admits(TallyOf(selected, zones), x, zones[x.id], caps) <==> MayJoin(selected, zones, caps, x)
  {
    TallyCounts(selected, zones, x.detail.icp, x.detail.contractType);
    TallyCountsNotices(selected, zones, x.notice);
    TallyCountsZones(selected, zones, zones[x.id]);
  }

  ghost function Behind(selected: seq<PoolEntry>, zones: map<string, Zone>, x: PoolEntry): int
    requires x.id in zones
  {
    Quota(zones[x.id]) - Count(selected, InZone(zones, zones[x.id]))
  }

  /** `chosen` goes before `x`: it advances more minima; or as many, and its zone is further behind; or as far, and
      its score is higher; or as high, and its id is not greater. */
  ghost predicate NotAfter(selected: seq<PoolEntry>, zones: map<string, Zone>, chosen: PoolEntry, x: PoolEntry)
    requires chosen.id in zones && x.id in zones
  {
    || Advances(selected, chosen) > Advances(selected, x)
    || (Advances(selected, chosen) == Advances(selected, x)
        && (Behind(selected, zones, chosen) > Behind(selected, zones, x)
            || (Behind(selected, zones, chosen) == Behind(selected, zones, x) && (chosen.score > x.score || (chosen.score == x.score && StringLeq(chosen.id, x.id))))))
  }

  lemma RankMeans(selected: seq<PoolEntry>, zones: map<string, Zone>, chosen: PoolEntry, x: PoolEntry)
    requires Zoned(zones, selected) && chosen.id in zones && x.id in zones
    ensures var t := TallyOf(selected, zones);
      && (Before(RankOf(t, chosen, zones[chosen.id]), RankOf(t, x, zones[x.id])) ==> NotAfter(selected, zones, chosen, x))
      && (!Before(RankOf(t, x, zones[x.id]), RankOf(t, chosen, zones[chosen.id])) && RankLeq(chosen, x) ==>
            NotAfter(selected, zones, chosen, x))
  {
    GainIsAdvances(selected, zones, chosen);
    GainIsAdvances(selected, zones, x);
    TallyCountsZones(selected, zones, zones[chosen.id]);
    TallyCountsZones(selected, zones, zones[x.id]);
  }

  lemma {:induction false} RemoveStaysSorted(s: seq<PoolEntry>, x: PoolEntry)
    requires Sorted(s, RankLeq) && x in s
    ensures Sorted(Remove(s, x), RankLeq)
  {
    if s[0] != x {
      var rest := Remove(s[1..], x);
      RemoveStaysSorted(s[1..], x);
      forall y | y in rest ensures RankLeq(s[0], y) {
        assert y in s[1..];
      }
    }
  }

  // ---------- every choice of a round ----------

  lemma ChosenIsBest(selected: seq<PoolEntry>, remaining: seq<PoolEntry>, zones: map<string, Zone>, caps: Caps, x: PoolEntry)
    requires Zoned(zones, selected) && Zoned(zones, remaining) && Sorted(remaining, RankLeq) && x in remaining
    requires Choice(TallyOf(selected, zones), remaining, zones, caps).Some?
    ensures var chosen := Choice(TallyOf(selected, zones), remaining, zones, caps).value;
      && MayJoin(selected, zones, caps, chosen)
      && (MayJoin(selected, zones, caps, x) ==> NotAfter(selected, zones, chosen, x))
  {
    var t := TallyOf(selected, zones);
    var i := ChoiceIsFirstBest(t, remaining, zones, caps);
    var j :| 0 <= j < |remaining| && remaining[j] == x;
    AdmitsMeans(selected, zones, caps, remaining[i]);
    AdmitsMeans(selected, zones, caps, x);
    RankMeans(selected, zones, remaining[i], x);
    if MayJoin(selected, zones, caps, x) {
      assert Candidate(t, remaining, zones, caps, j);
      if i == j { StringLeqTotal(x.id, x.id); }
    }
  }

  lemma {:induction false} GreedyExtends(selected: seq<PoolEntry>, remaining: seq<PoolEntry>, zones: map<string, Zone>, caps: Caps, size: int)
    requires Zoned(zones, selected) && Zoned(zones, remaining)
    ensures selected <= Greedy(selected, remaining, zones, caps, size)
    decreases |remaining|
  {
    var chosen := Choice(TallyOf(selected, zones), remaining, zones, caps);
    if |selected| < size && chosen.Some? {
      var result := Greedy(selected, remaining, zones, caps, size);
      GreedyExtends(selected + [chosen.value], Remove(remaining, chosen.value), zones, caps, size);
      assert selected + [chosen.value] <= result;
      assert result[..|selected|] == (selected + [chosen.value])[..|selected|] == selected;
    }
  }

  /** The entry at `k` of a round was the best choice after the entries before it: it may join them, and no entry
      that was left and might have joined goes before it. */
  ghost predicate BestAt(result: seq<PoolEntry>, k: nat, pool: multiset<PoolEntry>, zones: map<string, Zone>, caps: Caps)
    requires k < |result|
  {
    && result[k].id in zones && MayJoin(result[..k], zones, caps, result[k])
    && forall x :: multiset(result[..k])[x] < pool[x] && x.id in zones && MayJoin(result[..k], zones, caps, x) ==>
         NotAfter(result[..k], zones, result[k], x)
  }

  lemma NextIsBest(selected: seq<PoolEntry>, remaining: seq<PoolEntry>, zones: map<string, Zone>, caps: Caps, e: PoolEntry,
                   result: seq<PoolEntry>)
    requires Zoned(zones, selected) && Zoned(zones, remaining) && Sorted(remaining, RankLeq)
    requires Choice(TallyOf(selected, zones), remaining, zones, caps) == Some(e) && selected + [e] <= result
    ensures BestAt(result, |selected|, multiset(selected) + multiset(remaining), zones, caps)
  {
    var k := |selected|;
    assert result[..k] == selected && result[k] == e;
    ChosenIsBest(selected, remaining, zones, caps, e);
    forall x | multiset(selected)[x] < (multiset(selected) + multiset(remaining))[x] && MayJoinHere(selected, zones, caps, x)
      ensures NotAfter(selected, zones, e, x)
    {
      assert x in multiset(remaining);
      ChosenIsBest(selected, remaining, zones, caps, x);
    }
  }

  ghost predicate MayJoinHere(selected: seq<PoolEntry>, zones: map<string, Zone>, caps: Caps, x: PoolEntry) {
    x.id in zones && MayJoin(selected, zones, caps, x)
  }

  lemma {:induction false} RoundChoosesBest(
    selected: seq<PoolEntry>, remaining: seq<PoolEntry>, zones: map<string, Zone>, caps: Caps, size: int, k: nat)
    requires Zoned(zones, selected) && Zoned(zones, remaining) && Sorted(remaining, RankLeq)
    requires |selected| <= k < |Greedy(selected, remaining, zones, caps, size)|
    ensures BestAt(Greedy(selected, remaining, zones, caps, size), k, multiset(selected) + multiset(remaining), zones, caps)
    decreases |remaining|
  {
    var result := Greedy(selected, remaining, zones, caps, size);
    var chosen := Choice(TallyOf(selected, zones), remaining, zones, caps);
    if |selected| < size && chosen.Some? {
      var e, rest := chosen.value, Remove(remaining, chosen.value);
      GreedyExtends(selected + [e], rest, zones, caps, size);
      RemoveStaysSorted(remaining, e);
      assert multiset(selected + [e]) == multiset(selected) + multiset{e};
      assert e in multiset(remaining);
      assert multiset(selected + [e]) + multiset(rest) == multiset(selected) + multiset(remaining);
      if k == |selected| {
        NextIsBest(selected, remaining, zones, caps, e, result);
      } else {
        RoundChoosesBest(selected + [e], rest, zones, caps, size, k);
      }
    }
  }

  /** The whole bench: each entry was the best choice when it was taken, under the caps that were applied. */
  lemma BenchChoosesBest(pool: seq<PoolEntry>, size: int, k: nat)
    requires k < |Bench(pool, size)|
    ensures BestAt(Bench(pool, size), k, multiset(pool), PoolZones(pool), AppliedCaps(pool, size))
  {
    PoolIsZoned(pool);
    OrderedKeeps(pool);
    assert multiset([]) + multiset(Ordered(pool)) == multiset(pool);
    RoundChoosesBest([], Ordered(pool), PoolZones(pool), AppliedCaps(pool, size), size, k);
  }

  /** In particular no entry that advances no minimum is taken while one that advances some might have joined. */
  lemma CoverageComesFirst(pool: seq<PoolEntry>, size: int, k: nat, x: PoolEntry)
    requires k < |Bench(pool, size)| && multiset(Bench(pool, size)[..k])[x] < multiset(pool)[x]
    requires MayJoinHere(Bench(pool, size)[..k], PoolZones(pool), AppliedCaps(pool, size), x)
    ensures Advances(Bench(pool, size)[..k], x) > 0 ==> Advances(Bench(pool, size)[..k], Bench(pool, size)[k]) > 0
  {
    BenchChoosesBest(pool, size, k);
  }

  // ---------- which cap is raised ----------

  function Times(relaxations: seq<Relaxation>, r: Relaxation): nat {
    if relaxations == [] then 0
    else Times(relaxations[..|relaxations| - 1], r) + if relaxations[|relaxations| - 1] == r then 1 else 0
  }

  /** The caps in force are twenty-five for each profile and thirty-five for each contract type, and one more for
      each relaxation. */
  lemma {:induction false} CapsCountRelaxations(relaxations: seq<Relaxation>)
    ensures Relaxed(FIRST_CAPS, relaxations)
      == Caps(25 + Times(relaxations, RaisedPerIcp), 35 + Times(relaxations, RaisedPerContractType))
  {
    if relaxations != [] { CapsCountRelaxations(relaxations[..|relaxations| - 1]); }
  }

  /** Some profile, or contract type, has as many selected entries as its cap allows. */
  ghost predicate IcpFull(selected: seq<PoolEntry>, cap: nat) {
    exists x :: x in selected && Count(selected, OfIcp(x.detail.icp)) >= cap
  }

  ghost predicate TypeFull(selected: seq<PoolEntry>, cap: nat) {
    exists x :: x in selected && Count(selected, OfContractType(x.detail.contractType)) >= cap
  }

  lemma {:induction false} MemberIsCounted(selected: seq<PoolEntry>, p: PoolEntry -> bool, x: PoolEntry)
    requires x in selected && p(x)
    ensures Count(selected, p) > 0
  {
    var n := |selected| - 1;
    if !p(selected[n]) {
      assert x in selected[..n];
      MemberIsCounted(selected[..n], p, x);
    }
  }

  lemma IcpBindingMeans(selected: seq<PoolEntry>, zones: map<string, Zone>, caps: Caps)
    requires Zoned(zones, selected)
    ensures IcpBinding(TallyOf(selected, zones), caps) <==> IcpFull(selected, caps.perIcp)
  {
    var t := TallyOf(selected, zones);
    if k :| k in t.perIcp && t.perIcp[k] >= caps.perIcp {
      TallyCounts(selected, zones, k, "");
      var x := CountedIsMember(selected, OfIcp(k));
    }
    if x :| x in selected && Count(selected, OfIcp(x.detail.icp)) >= caps.perIcp {
      TallyCounts(selected, zones, x.detail.icp, "");
      MemberIsCounted(selected, OfIcp(x.detail.icp), x);
    }
  }

  lemma TypeBindingMeans(selected: seq<PoolEntry>, zones: map<string, Zone>, caps: Caps)
    requires Zoned(zones, selected)
    ensures TypeBinding(TallyOf(selected, zones), caps) <==> TypeFull(selected, caps.perContractType)
  {
    var t := TallyOf(selected, zones);
    if k :| k in t.perContractType && t.perContractType[k] >= caps.perContractType {
      TallyCounts(selected, zones, "", k);
      var x := CountedIsMember(selected, OfContractType(k));
    }
    if x :| x in selected && Count(selected, OfContractType(x.detail.contractType)) >= caps.perContractType {
      TallyCounts(selected, zones, "", x.detail.contractType);
      MemberIsCounted(selected, OfContractType(x.detail.contractType), x);
    }
  }

  /** Which cap a short round raises: that of the profiles if one is full, else that of the contract types if one is;
      and none of them beyond the size. */
  lemma RelaxationMeans(ordered: seq<PoolEntry>, zones: map<string, Zone>, caps: Caps, size: int, r: Relaxation)
    requires Zoned(zones, ordered)
    ensures var round := Round(ordered, zones, caps, size);
      var raiseIcp, raiseType := IcpFull(round, caps.perIcp) && caps.perIcp < size,
        TypeFull(round, caps.perContractType) && caps.perContractType < size;
      CallsFor(ordered, zones, caps, size, r) <==>
        |round| < size && if raiseIcp then r == RaisedPerIcp else raiseType && r == RaisedPerContractType
  {
    RoundIsZoned(ordered, zones, caps, size);
    IcpBindingMeans(Round(ordered, zones, caps, size), zones, caps);
    TypeBindingMeans(Round(ordered, zones, caps, size), zones, caps);
  }

  /** The search ends with a full bench, or with one under whose caps neither can be raised. */
  lemma SearchEndsMeans(pool: seq<PoolEntry>, size: int)
    ensures var (bench, caps) := (Bench(pool, size), AppliedCaps(pool, size));
      |bench| >= size || (!(IcpFull(bench, caps.perIcp) && caps.perIcp < size)
                          && !(TypeFull(bench, caps.perContractType) && caps.perContractType < size))
  {
    var ordered, zones, caps := Ordered(pool), PoolZones(pool), AppliedCaps(pool, size);
    PoolIsZoned(pool);
    RoundIsZoned(ordered, zones, caps, size);
    RelaxationsStop(ordered, zones, FIRST_CAPS, size);
    IcpBindingMeans(Bench(pool, size), zones, caps);
    TypeBindingMeans(Bench(pool, size), zones, caps);
  }
}
