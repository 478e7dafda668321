/** The Signal-100 bench: a greedy selection under four caps, two of which are relaxed step by step while the
    bench is short. */
module Signal100Select {
  import opened Wrappers
  import opened Ordering
  import opened NoticeCap
  import opened Signal100

  // ---------- what a selection has consumed ----------

  const MAX_PER_NOTICE := 2
  const MAX_PER_ICP := 25
  const MAX_PER_CONTRACT_TYPE := 35
  const MIN_DISTINCT_NOTICES := 75
  const MIN_COUNTRIES := 5
  const MIN_CONTRACT_TYPES := 5
  const MIN_NEED_CATEGORIES := 5

  function Quota(z: Zone): nat {
    match z case Top => 33 case Middle => 34 case Bottom => 33
  }

  function MinPerSource(source: string): nat {
    if source == "ted" || source == "simap" then 35 else 0
  }

  datatype Caps = Caps(perIcp: nat, perContractType: nat)

  datatype Tally = Tally(
    perNotice: multiset<Notice>, perIcp: multiset<string>, perContractType: multiset<string>,
    perSource: multiset<string>, perTercile: multiset<Zone>,
    countries: set<string>, contractTypes: set<string>, needCategories: set<string>, notices: set<Notice>)

  const EMPTY_TALLY := Tally(multiset{}, multiset{}, multiset{}, multiset{}, multiset{}, {}, {}, {}, {})

  predicate Admits(t: Tally, e: PoolEntry, zone: Zone, caps: Caps) {
    && t.perTercile[zone] < Quota(zone)
    && t.perNotice[e.notice] < MAX_PER_NOTICE
    && t.perIcp[e.detail.icp] < caps.perIcp
    && t.perContractType[e.detail.contractType] < caps.perContractType
  }

  predicate NamesCountry(e: PoolEntry) {
    e.detail.country.Some? && e.detail.country.value != ""
  }

  function Needs(e: PoolEntry): set<string> {
    set n | n in e.detail.needs
  }

  function Taken(t: Tally, e: PoolEntry, zone: Zone): Tally {
    Tally(
      t.perNotice + multiset{e.notice}, t.perIcp + multiset{e.detail.icp},
      t.perContractType + multiset{e.detail.contractType}, t.perSource + multiset{e.notice.source},
      t.perTercile + multiset{zone},
      if NamesCountry(e) then t.countries + {e.detail.country.value} else t.countries,
      t.contractTypes + {e.detail.contractType}, t.needCategories + Needs(e), t.notices + {e.notice})
  }

  function One(b: bool): nat {
    if b then 1 else 0
  }

  /** How many minima not yet reached the entry would advance. */
  function CoverageGain(t: Tally, e: PoolEntry): nat {
    One(t.perSource[e.notice.source] < MinPerSource(e.notice.source))
    + One(|t.notices| < MIN_DISTINCT_NOTICES && e.notice !in t.notices)
    + One(NamesCountry(e) && |t.countries| < MIN_COUNTRIES && e.detail.country.value !in t.countries)
    + One(|t.contractTypes| < MIN_CONTRACT_TYPES && e.detail.contractType !in t.contractTypes)
    + One(|t.needCategories| < MIN_NEED_CATEGORIES && !(Needs(e) <= t.needCategories))
  }

  class State {
    var perNotice: multiset<Notice>
    var perIcp: multiset<string>
    var perContractType: multiset<string>
    var perSource: multiset<string>
    var perTercile: multiset<Zone>
    var countries: set<string>
    var contractTypes: set<string>
    var needCategories: set<string>
    var notices: set<Notice>

    function Contents(): Tally
      reads this
    {
      Tally(perNotice, perIcp, perContractType, perSource, perTercile, countries, contractTypes, needCategories, notices)
    }

    constructor ()
      ensures Contents() == EMPTY_TALLY
    {
      perNotice, perIcp, perContractType, perSource := multiset{}, multiset{}, multiset{}, multiset{};
      perTercile, countries, contractTypes, needCategories, notices := multiset{}, {}, {}, {}, {};
    }

    method Take(e: PoolEntry, zone: Zone)
      modifies this
      ensures Contents() == Taken(old(Contents()), e, zone)
    {
      TakeCapped(e, zone);
      TakeCovered(e);
    }

    /** The counters that the caps look at. */
    method TakeCapped(e: PoolEntry, zone: Zone)
      modifies this`perTercile, this`perNotice, this`perIcp, this`perContractType
      ensures perTercile == old(perTercile) + multiset{zone} && perNotice == old(perNotice) + multiset{e.notice}
      ensures perIcp == old(perIcp) + multiset{e.detail.icp}
      ensures perContractType == old(perContractType) + multiset{e.detail.contractType}
    {
      perTercile := perTercile + multiset{zone};
      perNotice := perNotice + multiset{e.notice};
      perIcp := perIcp + multiset{e.detail.icp};
      perContractType := perContractType + multiset{e.detail.contractType};
    }

    /** The counters that the coverage looks at. */
    method TakeCovered(e: PoolEntry)
      modifies this`perSource, this`notices, this`contractTypes, this`countries, this`needCategories
      ensures perSource == old(perSource) + multiset{e.notice.source} && notices == old(notices) + {e.notice}
      ensures contractTypes == old(contractTypes) + {e.detail.contractType}
      ensures countries == if NamesCountry(e) then old(countries) + {e.detail.country.value} else old(countries)
      ensures needCategories == old(needCategories) + Needs(e)
    {
      perSource := perSource + multiset{e.notice.source};
      notices := notices + {e.notice};
      contractTypes := contractTypes + {e.detail.contractType};
      if NamesCountry(e) { countries := countries + {e.detail.country.value}; }
      needCategories := needCategories + Needs(e);
    }
  }

  function TallyOf(selected: seq<PoolEntry>, zones: map<string, Zone>): Tally
    requires Zoned(zones, selected)
  {
    if selected == [] then EMPTY_TALLY else
      var n := |selected| - 1;
      Taken(TallyOf(selected[..n], zones), selected[n], zones[selected[n].id])
  }

  ghost function Count(s: seq<PoolEntry>, p: PoolEntry -> bool): nat {
    if s == [] then 0 else Count(s[..|s| - 1], p) + One(p(s[|s| - 1]))
  }

  lemma {:induction false} CountIsBounded(s: seq<PoolEntry>, p: PoolEntry -> bool)
    ensures Count(s, p) <= |s|
  {
    if s != [] { CountIsBounded(s[..|s| - 1], p); }
  }

  ghost function OfNotice(n: Notice): PoolEntry -> bool {
    (x: PoolEntry) => x.notice == n
  }

  ghost function OfIcp(icp: string): PoolEntry -> bool {
    (x: PoolEntry) => x.detail.icp == icp
  }

  ghost function OfContractType(contractType: string): PoolEntry -> bool {
    (x: PoolEntry) => x.detail.contractType == contractType
  }

  ghost function InZone(zones: map<string, Zone>, z: Zone): PoolEntry -> bool {
    (x: PoolEntry) => x.id in zones && zones[x.id] == z
  }

  /** The counters hold what their names say. */
  lemma {:induction false} TallyCounts(selected: seq<PoolEntry>, zones: map<string, Zone>, icp: string, contractType: string)
    requires Zoned(zones, selected)
    ensures TallyOf(selected, zones).perIcp[icp] == Count(selected, OfIcp(icp))
    ensures TallyOf(selected, zones).perContractType[contractType] == Count(selected, OfContractType(contractType))
  {
    if selected != [] { TallyCounts(selected[..|selected| - 1], zones, icp, contractType); }
  }

  lemma {:induction false} TallyCountsNotices(selected: seq<PoolEntry>, zones: map<string, Zone>, n: Notice)
    requires Zoned(zones, selected)
    ensures TallyOf(selected, zones).perNotice[n] == Count(selected, OfNotice(n))
  {
    if selected != [] { TallyCountsNotices(selected[..|selected| - 1], zones, n); }
  }

  lemma {:induction false} TallyCountsZones(selected: seq<PoolEntry>, zones: map<string, Zone>, z: Zone)
    requires Zoned(zones, selected)
    ensures TallyOf(selected, zones).perTercile[z] == Count(selected, InZone(zones, z))
    ensures |TallyOf(selected, zones).perTercile| == |selected|
  {
    if selected != [] {
      var init, last := selected[..|selected| - 1], selected[|selected| - 1];
      TallyCountsZones(init, zones, z);
      var before := TallyOf(init, zones).perTercile;
      assert TallyOf(selected, zones).perTercile == before + multiset{zones[last.id]};
      assert |before + multiset{zones[last.id]}| == |before| + 1;
    }
  }

  // ---------- one choice ----------

  datatype Rank = Rank(gain: nat, shortfall: int, score: int)

  function RankOf(t: Tally, e: PoolEntry, zone: Zone): Rank {
    Rank(CoverageGain(t, e), Quota(zone) - t.perTercile[zone], e.score)
  }

  /** Better coverage first, then the zone furthest behind, then the higher score. */
  predicate Before(a: Rank, b: Rank) {
    a.gain > b.gain
    || (a.gain == b.gain && (a.shortfall > b.shortfall || (a.shortfall == b.shortfall && a.score > b.score)))
  }

  /** The first admissible entry that no other admissible entry precedes. */
  function Choice(t: Tally, remaining: seq<PoolEntry>, zones: map<string, Zone>, caps: Caps): (chosen: Option<PoolEntry>)
    requires Zoned(zones, remaining)
    ensures chosen.Some? ==> chosen.value in remaining
  {
    if remaining == [] then None else
      var n := |remaining| - 1;
      var best, e := Choice(t, remaining[..n], zones, caps), remaining[n];
      if !Admits(t, e, zones[e.id], caps) then best
      else if best == None || Before(RankOf(t, e, zones[e.id]), RankOf(t, best.value, zones[best.value.id])) then Some(e)
      else best
  }

  ghost predicate Candidate(t: Tally, remaining: seq<PoolEntry>, zones: map<string, Zone>, caps: Caps, i: int)
    requires Zoned(zones, remaining)
  {
    0 <= i < |remaining| && Admits(t, remaining[i], zones[remaining[i].id], caps)
  }

  function RankAt(t: Tally, remaining: seq<PoolEntry>, zones: map<string, Zone>, i: nat): Rank
    requires Zoned(zones, remaining) && i < |remaining|
  {
    RankOf(t, remaining[i], zones[remaining[i].id])
  }

  /** Entry `i` may be chosen: no candidate goes before it, and none that comes earlier ranks with it. */
  ghost predicate FirstBest(t: Tally, remaining: seq<PoolEntry>, zones: map<string, Zone>, caps: Caps, i: int)
    requires Zoned(zones, remaining)
  {
    && Candidate(t, remaining, zones, caps, i)
    && forall j {:trigger Candidate(t, remaining, zones, caps, j)} :: Candidate(t, remaining, zones, caps, j) ==>
         && !Before(RankAt(t, remaining, zones, j), RankAt(t, remaining, zones, i))
         && (j < i ==> Before(RankAt(t, remaining, zones, i), RankAt(t, remaining, zones, j)))
  }

  /** Nothing admissible is passed over, and of equally ranked entries the first in score order is chosen. */
  lemma {:induction false} ChoiceIsFirstBest(t: Tally, remaining: seq<PoolEntry>, zones: map<string, Zone>, caps: Caps)
    returns (i: int)
    requires Zoned(zones, remaining)
    ensures match Choice(t, remaining, zones, caps)
      case None => forall j :: !Candidate(t, remaining, zones, caps, j)
      case Some(e) => FirstBest(t, remaining, zones, caps, i) && remaining[i] == e
  {
    i := 0;
    if remaining != [] {
      var n := |remaining| - 1;
      var rest := remaining[..n];
      var k := ChoiceIsFirstBest(t, rest, zones, caps);
      forall j ensures Candidate(t, remaining, zones, caps, j) <==> Candidate(t, rest, zones, caps, j) || (j == n && Admits(t, remaining[n], zones[remaining[n].id], caps)) {
      }
      i := if Choice(t, rest, zones, caps).Some?
             && !(Candidate(t, remaining, zones, caps, n) && Before(RankAt(t, remaining, zones, n), RankAt(t, rest, zones, k)))
           then k else n;
    }
  }

  // ---------- one greedy round ----------

  /** `remaining.remove(chosen)`: the first equal entry goes. */
  function Remove(s: seq<PoolEntry>, x: PoolEntry): (r: seq<PoolEntry>)
    requires x in s
    ensures |r| == |s| - 1 && multiset(r) == multiset(s) - multiset{x}
    ensures forall y :: y in r ==> y in s
  {
    if s[0] == x then
      assert s == [s[0]] + s[1..];
      s[1..]
    else
      assert s == [s[0]] + s[1..];
      [s[0]] + Remove(s[1..], x)
  }

  function Greedy(selected: seq<PoolEntry>, remaining: seq<PoolEntry>, zones: map<string, Zone>, caps: Caps, size: int)
    : seq<PoolEntry>
    requires Zoned(zones, selected) && Zoned(zones, remaining)
    decreases |remaining|
  {
    if |selected| >= size then selected else
      match Choice(TallyOf(selected, zones), remaining, zones, caps)
      case None => selected
      case Some(e) => Greedy(selected + [e], Remove(remaining, e), zones, caps, size)
  }

  method GreedySelect(remaining0: seq<PoolEntry>, zones: map<string, Zone>, caps: Caps, size: int)
    returns (selected: seq<PoolEntry>, state: State)
    requires Zoned(zones, remaining0)
    ensures selected == Greedy([], remaining0, zones, caps, size)
    ensures fresh(state) && Zoned(zones, selected) && state.Contents() == TallyOf(selected, zones)
  {
    state := new State();
    selected := [];
    var remaining := remaining0;
    while |selected| < size
      invariant fresh(state) && Zoned(zones, selected) && Zoned(zones, remaining)
      invariant state.Contents() == TallyOf(selected, zones)
      invariant Greedy(selected, remaining, zones, caps, size) == Greedy([], remaining0, zones, caps, size)
      decreases |remaining|
    {
      var chosen := Scan(state.Contents(), remaining, zones, caps);
      if chosen == None { break; }
      var e := chosen.value;
      TallyOfOneMore(selected, zones, e);
      state.Take(e, zones[e.id]);
      selected := selected + [e];
      remaining := Remove(remaining, e);
    }
  }

  /** The inner loop over the remaining entries. */
  method Scan(t: Tally, remaining: seq<PoolEntry>, zones: map<string, Zone>, caps: Caps) returns (chosen: Option<PoolEntry>)
    requires Zoned(zones, remaining)
    ensures chosen == Choice(t, remaining, zones, caps)
  {
    chosen := None;
    for i := 0 to |remaining|
      invariant chosen == Choice(t, remaining[..i], zones, caps)
    {
      var e := remaining[i];
      assert remaining[..i + 1][..i] == remaining[..i];
      if !Admits(t, e, zones[e.id], caps) { continue; }
      if chosen == None || Before(RankOf(t, e, zones[e.id]), RankOf(t, chosen.value, zones[chosen.value.id])) {
        chosen := Some(e);
      }
    }
    assert remaining[..|remaining|] == remaining;
  }

  ghost predicate WithinCaps(t: Tally, caps: Caps) {
    && (forall z :: t.perTercile[z] <= Quota(z))
    && (forall n :: t.perNotice[n] <= MAX_PER_NOTICE)
    && (forall k :: t.perIcp[k] <= caps.perIcp)
    && (forall k :: t.perContractType[k] <= caps.perContractType)
  }

  lemma AdmittedStaysWithinCaps(t: Tally, e: PoolEntry, zone: Zone, caps: Caps)
    requires WithinCaps(t, caps) && Admits(t, e, zone, caps)
    ensures WithinCaps(Taken(t, e, zone), caps)
  {
  }

  lemma ChosenIsAdmitted(t: Tally, remaining: seq<PoolEntry>, zones: map<string, Zone>, caps: Caps)
    requires Zoned(zones, remaining) && Choice(t, remaining, zones, caps).Some?
    ensures var e := Choice(t, remaining, zones, caps).value; Admits(t, e, zones[e.id], caps)
  {
    var i := ChoiceIsFirstBest(t, remaining, zones, caps);
  }

  lemma TallyOfOneMore(selected: seq<PoolEntry>, zones: map<string, Zone>, e: PoolEntry)
    requires Zoned(zones, selected + [e]) && Zoned(zones, selected) && e.id in zones
    ensures TallyOf(selected + [e], zones) == Taken(TallyOf(selected, zones), e, zones[e.id])
  {
    assert (selected + [e])[..|selected|] == selected;
  }

  lemma {:induction false} GreedyStaysWithinCaps(
    selected: seq<PoolEntry>, remaining: seq<PoolEntry>, zones: map<string, Zone>, caps: Caps, size: int)
    requires Zoned(zones, selected) && Zoned(zones, remaining) && WithinCaps(TallyOf(selected, zones), caps)
    ensures var result := Greedy(selected, remaining, zones, caps, size);
      Zoned(zones, result) && WithinCaps(TallyOf(result, zones), caps)
    decreases |remaining|
  {
    var t := TallyOf(selected, zones);
    var chosen := Choice(t, remaining, zones, caps);
    if |selected| < size && chosen.Some? {
      var e := chosen.value;
      ChosenIsAdmitted(t, remaining, zones, caps);
      AdmittedStaysWithinCaps(t, e, zones[e.id], caps);
      TallyOfOneMore(selected, zones, e);
      GreedyStaysWithinCaps(selected + [e], Remove(remaining, e), zones, caps, size);
    }
  }

  lemma {:induction false} GreedySelectsFromPool(
    selected: seq<PoolEntry>, remaining: seq<PoolEntry>, zones: map<string, Zone>, caps: Caps, size: int)
    requires Zoned(zones, selected) && Zoned(zones, remaining)
    ensures var result := Greedy(selected, remaining, zones, caps, size);
      && multiset(result) <= multiset(selected) + multiset(remaining)
      && (|selected| <= size ==> |result| <= size)
    decreases |remaining|
  {
    var chosen := Choice(TallyOf(selected, zones), remaining, zones, caps);
    if |selected| < size && chosen.Some? {
      GreedySelectsFromPool(selected + [chosen.value], Remove(remaining, chosen.value), zones, caps, size);
      assert multiset(selected + [chosen.value]) == multiset(selected) + multiset{chosen.value};
      assert chosen.value in multiset(remaining);
    }
  }

  /** A round that ends short has left no entry that could still be admitted. */
  lemma {:induction false} GreedyLeavesNothingAdmissible(
    selected: seq<PoolEntry>, remaining: seq<PoolEntry>, zones: map<string, Zone>, caps: Caps, size: int, x: PoolEntry)
    requires Zoned(zones, selected) && Zoned(zones, remaining) && x.id in zones
    ensures var result := Greedy(selected, remaining, zones, caps, size);
      |result| < size && multiset(result)[x] < multiset(selected)[x] + multiset(remaining)[x] && Zoned(zones, result)
      ==> !Admits(TallyOf(result, zones), x, zones[x.id], caps)
    decreases |remaining|
  {
    if |selected| >= size { return; }
    var t := TallyOf(selected, zones);
    var i := ChoiceIsFirstBest(t, remaining, zones, caps);
    match Choice(t, remaining, zones, caps) {
      case None =>
        if x in remaining {
          var j :| 0 <= j < |remaining| && remaining[j] == x;
          assert !Candidate(t, remaining, zones, caps, j);
        }
        assert multiset(remaining)[x] > 0 <==> x in remaining;
      case Some(e) =>
        assert multiset(selected + [e]) == multiset(selected) + multiset{e};
        assert e in multiset(remaining);
        GreedyLeavesNothingAdmissible(selected + [e], Remove(remaining, e), zones, caps, size, x);
    }
  }

  // ---------- relaxing two of the caps ----------

  datatype Relaxation = RaisedPerIcp | RaisedPerContractType

  const FIRST_CAPS := Caps(MAX_PER_ICP, MAX_PER_CONTRACT_TYPE)

  function Raised(caps: Caps, r: Relaxation): Caps {
    match r
    case RaisedPerIcp => caps.(perIcp := caps.perIcp + 1)
    case RaisedPerContractType => caps.(perContractType := caps.perContractType + 1)
  }

  predicate IcpBinding(t: Tally, caps: Caps) {
    exists k :: k in t.perIcp && t.perIcp[k] >= caps.perIcp
  }

  predicate TypeBinding(t: Tally, caps: Caps) {
    exists k :: k in t.perContractType && t.perContractType[k] >= caps.perContractType
  }

  /** The relaxation a short round calls for, if any. */
  function Relaxing(t: Tally, caps: Caps, size: int): Option<Relaxation> {
    if IcpBinding(t, caps) && caps.perIcp < size then Some(RaisedPerIcp)
    else if TypeBinding(t, caps) && caps.perContractType < size then Some(RaisedPerContractType)
    else None
  }

  /** A measure on the two caps: how far they are below the size. */
  function Slack(caps: Caps, size: int): nat {
    (if caps.perIcp < size then size - caps.perIcp else 0)
    + (if caps.perContractType < size then size - caps.perContractType else 0)
  }

  function Round(ordered: seq<PoolEntry>, zones: map<string, Zone>, caps: Caps, size: int): seq<PoolEntry>
    requires Zoned(zones, ordered)
  {
    Greedy([], ordered, zones, caps, size)
  }

  lemma RoundIsZoned(ordered: seq<PoolEntry>, zones: map<string, Zone>, caps: Caps, size: int)
    requires Zoned(zones, ordered)
    ensures Zoned(zones, Round(ordered, zones, caps, size))
    ensures WithinCaps(TallyOf(Round(ordered, zones, caps, size), zones), caps)
  {
    GreedyStaysWithinCaps([], ordered, zones, caps, size);
  }

  function RoundTally(ordered: seq<PoolEntry>, zones: map<string, Zone>, caps: Caps, size: int): Tally
    requires Zoned(zones, ordered)
  {
    RoundIsZoned(ordered, zones, caps, size);
    TallyOf(Round(ordered, zones, caps, size), zones)
  }

  function FinalCaps(ordered: seq<PoolEntry>, zones: map<string, Zone>, caps: Caps, size: int): Caps
    requires Zoned(zones, ordered)
    decreases Slack(caps, size)
  {
    if |Round(ordered, zones, caps, size)| >= size then caps else
      match Relaxing(RoundTally(ordered, zones, caps, size), caps, size)
      case None => caps
      case Some(r) => FinalCaps(ordered, zones, Raised(caps, r), size)
  }

  function PoolZones(pool: seq<PoolEntry>): map<string, Zone> {
    ZonesOf(Ordered(pool), |pool|)
  }

  lemma PoolIsZoned(pool: seq<PoolEntry>)
    ensures Zoned(PoolZones(pool), Ordered(pool)) && Zoned(PoolZones(pool), pool)
  {
    EveryEntryHasItsZone(Ordered(pool), |pool|);
    OrderedKeeps(pool);
  }

  function AppliedCaps(pool: seq<PoolEntry>, size: int): Caps {
    PoolIsZoned(pool);
    FinalCaps(Ordered(pool), PoolZones(pool), FIRST_CAPS, size)
  }

  function Bench(pool: seq<PoolEntry>, size: int): seq<PoolEntry> {
    PoolIsZoned(pool);
    Round(Ordered(pool), PoolZones(pool), AppliedCaps(pool, size), size)
  }

  method SelectSignal100(pool: seq<PoolEntry>, size: int)
    returns (selected: seq<PoolEntry>, caps: Caps, relaxations: seq<Relaxation>)
    ensures selected == Ordered(Bench(pool, size)) && caps == AppliedCaps(pool, size)
    ensures caps == Relaxed(FIRST_CAPS, relaxations)
    ensures Zoned(PoolZones(pool), Ordered(pool)) && Needed(Ordered(pool), PoolZones(pool), size, relaxations)
  {
    PoolIsZoned(pool);
    selected, caps, relaxations := SelectRelaxing(Ordered(pool), PoolZones(pool), size);
    selected := Ordered(selected);
  }

  method SelectRelaxing(ordered: seq<PoolEntry>, zones: map<string, Zone>, size: int)
    returns (selected: seq<PoolEntry>, caps: Caps, relaxations: seq<Relaxation>)
    requires Zoned(zones, ordered)
    ensures caps == FinalCaps(ordered, zones, FIRST_CAPS, size) && selected == Round(ordered, zones, caps, size)
    ensures caps == Relaxed(FIRST_CAPS, relaxations)
    ensures Needed(ordered, zones, size, relaxations)
  {
    caps, relaxations := FIRST_CAPS, [];
    assert OnTheWay(ordered, zones, size, caps, relaxations);
    var tally;
    selected, tally := RunRound(ordered, zones, caps, size);
    while |selected| < size
      invariant selected == Round(ordered, zones, caps, size) && tally == RoundTally(ordered, zones, caps, size)
      invariant OnTheWay(ordered, zones, size, caps, relaxations)
      decreases Slack(caps, size)
    {
      var relaxing := Relaxing(tally, caps, size);
      if relaxing == None { break; }
      RelaxOnce(ordered, zones, size, caps, relaxations, relaxing.value);
      caps, relaxations := Raised(caps, relaxing.value), relaxations + [relaxing.value];
      selected, tally := RunRound(ordered, zones, caps, size);
    }
  }

  method RunRound(ordered: seq<PoolEntry>, zones: map<string, Zone>, caps: Caps, size: int)
    returns (selected: seq<PoolEntry>, tally: Tally)
    requires Zoned(zones, ordered)
    ensures selected == Round(ordered, zones, caps, size) && tally == RoundTally(ordered, zones, caps, size)
  {
    var state;
    selected, state := GreedySelect(ordered, zones, caps, size);
    tally := state.Contents();
  }

  /** The caps after some relaxations, each by one. */
  function Relaxed(caps: Caps, relaxations: seq<Relaxation>): Caps {
    if relaxations == [] then caps
    else Raised(Relaxed(caps, relaxations[..|relaxations| - 1]), relaxations[|relaxations| - 1])
  }

  /** Every relaxation answered a round that was short, and raised a cap that bound in it. */
  predicate Needed(ordered: seq<PoolEntry>, zones: map<string, Zone>, size: int, relaxations: seq<Relaxation>)
    requires Zoned(zones, ordered)
  {
    relaxations == [] ||
      var before := relaxations[..|relaxations| - 1];
      var caps := Relaxed(FIRST_CAPS, before);
      && Needed(ordered, zones, size, before)
      && CallsFor(ordered, zones, caps, size, relaxations[|relaxations| - 1])
  }

  /** The round under these caps is short, and this is what its tally calls for. */
  predicate CallsFor(ordered: seq<PoolEntry>, zones: map<string, Zone>, caps: Caps, size: int, r: Relaxation)
    requires Zoned(zones, ordered)
  {
    |Round(ordered, zones, caps, size)| < size && Relaxing(RoundTally(ordered, zones, caps, size), caps, size) == Some(r)
  }

  lemma NeededOneMore(
    ordered: seq<PoolEntry>, zones: map<string, Zone>, size: int, relaxations: seq<Relaxation>, r: Relaxation)
    requires Zoned(zones, ordered)
    ensures var caps := Relaxed(FIRST_CAPS, relaxations);
      Needed(ordered, zones, size, relaxations) && CallsFor(ordered, zones, caps, size, r) ==>
        Needed(ordered, zones, size, relaxations + [r])
  {
    assert (relaxations + [r])[..|relaxations|] == relaxations;
  }

  lemma RelaxedOneMore(caps: Caps, relaxations: seq<Relaxation>, r: Relaxation)
    ensures Relaxed(caps, relaxations + [r]) == Raised(Relaxed(caps, relaxations), r)
  {
    assert (relaxations + [r])[..|relaxations|] == relaxations;
  }

  // ---------- what the bench is ----------

  lemma {:induction false} CapsOnlyRise(ordered: seq<PoolEntry>, zones: map<string, Zone>, caps: Caps, size: int)
    requires Zoned(zones, ordered)
    ensures caps.perIcp <= FinalCaps(ordered, zones, caps, size).perIcp
    ensures caps.perContractType <= FinalCaps(ordered, zones, caps, size).perContractType
    decreases Slack(caps, size)
  {
    if |Round(ordered, zones, caps, size)| < size {
      match Relaxing(RoundTally(ordered, zones, caps, size), caps, size)
      case None =>
      case Some(r) => CapsOnlyRise(ordered, zones, Raised(caps, r), size);
    }
  }

  /** The caps were reached by needed relaxations, and what remains to be done leads to the final caps. */
  ghost predicate OnTheWay(
    ordered: seq<PoolEntry>, zones: map<string, Zone>, size: int, caps: Caps, relaxations: seq<Relaxation>)
    requires Zoned(zones, ordered)
  {
    && caps == Relaxed(FIRST_CAPS, relaxations) && Needed(ordered, zones, size, relaxations)
    && FinalCaps(ordered, zones, caps, size) == FinalCaps(ordered, zones, FIRST_CAPS, size)
  }

  lemma RelaxingLeads(ordered: seq<PoolEntry>, zones: map<string, Zone>, caps: Caps, size: int, r: Relaxation)
    requires Zoned(zones, ordered)
    ensures CallsFor(ordered, zones, caps, size, r) ==>
      FinalCaps(ordered, zones, caps, size) == FinalCaps(ordered, zones, Raised(caps, r), size)
      && Slack(Raised(caps, r), size) < Slack(caps, size)
  {
  }

  lemma RelaxOnce(ordered: seq<PoolEntry>, zones: map<string, Zone>, size: int, caps: Caps, relaxations: seq<Relaxation>, r: Relaxation)
    requires Zoned(zones, ordered)
    ensures OnTheWay(ordered, zones, size, caps, relaxations) && CallsFor(ordered, zones, caps, size, r) ==>
      OnTheWay(ordered, zones, size, Raised(caps, r), relaxations + [r]) && Slack(Raised(caps, r), size) < Slack(caps, size)
  {
    RelaxingLeads(ordered, zones, caps, size, r);
    RelaxedOneMore(FIRST_CAPS, relaxations, r);
    NeededOneMore(ordered, zones, size, relaxations, r);
  }

  /** When the loop stops short, no relaxation is called for. */
  lemma {:induction false} RelaxationsStop(ordered: seq<PoolEntry>, zones: map<string, Zone>, caps: Caps, size: int)
    requires Zoned(zones, ordered)
    ensures var final := FinalCaps(ordered, zones, caps, size);
      |Round(ordered, zones, final, size)| < size ==> Relaxing(RoundTally(ordered, zones, final, size), final, size) == None
    decreases Slack(caps, size)
  {
    if |Round(ordered, zones, caps, size)| < size {
      match Relaxing(RoundTally(ordered, zones, caps, size), caps, size)
      case None =>
      case Some(r) => RelaxationsStop(ordered, zones, Raised(caps, r), size);
    }
  }

  /** A cap that yields cannot block while no relaxation is called for: its count is below the size. */
  lemma OnlyQuotaOrNoticeBlocks(t: Tally, caps: Caps, size: int, n: nat, x: PoolEntry, zone: Zone)
    requires n < size && t.perIcp[x.detail.icp] <= n && t.perContractType[x.detail.contractType] <= n
    requires caps.perIcp > 0 && caps.perContractType > 0
    ensures !Admits(t, x, zone, caps) && Relaxing(t, caps, size) == None ==>
      t.perTercile[zone] >= Quota(zone) || t.perNotice[x.notice] >= MAX_PER_NOTICE
  {
    var icp, contractType := x.detail.icp, x.detail.contractType;
    assert t.perIcp[icp] >= caps.perIcp ==> icp in t.perIcp && IcpBinding(t, caps);
    assert t.perContractType[contractType] >= caps.perContractType ==> contractType in t.perContractType && TypeBinding(t, caps);
  }

  lemma BlockedForGood(bench: seq<PoolEntry>, zones: map<string, Zone>, caps: Caps, size: int, x: PoolEntry)
    requires Zoned(zones, bench) && x.id in zones && |bench| < size && caps.perIcp > 0 && caps.perContractType > 0
    ensures !Admits(TallyOf(bench, zones), x, zones[x.id], caps) && Relaxing(TallyOf(bench, zones), caps, size) == None ==>
      Count(bench, InZone(zones, zones[x.id])) >= Quota(zones[x.id]) || Count(bench, OfNotice(x.notice)) >= MAX_PER_NOTICE
  {
    TallyCounts(bench, zones, x.detail.icp, x.detail.contractType);
    TallyCountsNotices(bench, zones, x.notice);
    TallyCountsZones(bench, zones, zones[x.id]);
    CountIsBounded(bench, OfIcp(x.detail.icp));
    CountIsBounded(bench, OfContractType(x.detail.contractType));
    OnlyQuotaOrNoticeBlocks(TallyOf(bench, zones), caps, size, |bench|, x, zones[x.id]);
  }

  /** If the bench stops short of its size, every entry left out is blocked for good: the quota of its zone is
      full, or its notice already has two. Neither of the two caps that yield is to blame. */
  lemma ShortBenchIsBlocked(pool: seq<PoolEntry>, size: int, x: PoolEntry)
    requires x in pool
    ensures x.id in PoolZones(pool)
    ensures var bench, zone := Bench(pool, size), PoolZones(pool)[x.id];
      |bench| < size && multiset(bench)[x] < multiset(pool)[x] ==>
        Count(bench, InZone(PoolZones(pool), zone)) >= Quota(zone) || Count(bench, OfNotice(x.notice)) >= MAX_PER_NOTICE
  {
    var ordered, zones, caps := Ordered(pool), PoolZones(pool), AppliedCaps(pool, size);
    PoolIsZoned(pool);
    OrderedKeeps(pool);
    var bench := Round(ordered, zones, caps, size);
    RoundIsZoned(ordered, zones, caps, size);
    RelaxationsStop(ordered, zones, FIRST_CAPS, size);
    CapsOnlyRise(ordered, zones, FIRST_CAPS, size);
    assert multiset([]) + multiset(ordered) == multiset(pool);
    GreedyLeavesNothingAdmissible([], ordered, zones, caps, size, x);
    if |bench| < size && multiset(bench)[x] < multiset(pool)[x] { BlockedForGood(bench, zones, caps, size, x); }
  }

  /** The bench obeys every cap in force and takes each entry at most as often as the pool has it. */
  lemma BenchObeysCaps(pool: seq<PoolEntry>, size: int, z: Zone, n: Notice, icp: string, contractType: string)
    ensures var bench, caps := Bench(pool, size), AppliedCaps(pool, size);
      && multiset(bench) <= multiset(pool) && (0 <= size ==> |bench| <= size)
      && Count(bench, InZone(PoolZones(pool), z)) <= Quota(z) && Count(bench, OfNotice(n)) <= MAX_PER_NOTICE
      && Count(bench, OfIcp(icp)) <= caps.perIcp && Count(bench, OfContractType(contractType)) <= caps.perContractType
  {
    var ordered, zones, caps := Ordered(pool), PoolZones(pool), AppliedCaps(pool, size);
    PoolIsZoned(pool);
    OrderedKeeps(pool);
    RoundIsZoned(ordered, zones, caps, size);
    var bench := Round(ordered, zones, caps, size);
    GreedySelectsFromPool([], ordered, zones, caps, size);
    TallyCounts(bench, zones, icp, contractType);
    TallyCountsNotices(bench, zones, n);
    TallyCountsZones(bench, zones, z);
  }

  lemma ZonesPartition(m: multiset<Zone>)
    ensures |m| == m[Top] + m[Middle] + m[Bottom]
  {
    var m1 := m[Top := 0];
    var m2 := m1[Middle := 0];
    var m3 := m2[Bottom := 0];
    forall z ensures m3[z] == 0 {
      match z case Top => case Middle => case Bottom =>
    }
    assert m3 == multiset{};
    assert |m1| == |m| - m[Top] && |m2| == |m1| - m1[Middle] && |m3| == |m2| - m2[Bottom];
  }

  /** A bench never exceeds one hundred, and a full one has exactly 33, 34 and 33 from the three zones. */
  lemma FullBenchIsBalanced(pool: seq<PoolEntry>, size: int, z: Zone)
    ensures |Bench(pool, size)| <= 100
    ensures |Bench(pool, size)| == 100 ==> Count(Bench(pool, size), InZone(PoolZones(pool), z)) == Quota(z)
  {
    var zones, caps := PoolZones(pool), AppliedCaps(pool, size);
    PoolIsZoned(pool);
    RoundIsZoned(Ordered(pool), zones, caps, size);
    TallyCountsZones(Bench(pool, size), zones, z);
    QuotasAddUp(TallyOf(Bench(pool, size), zones), caps, z);
  }

  lemma QuotasAddUp(t: Tally, caps: Caps, z: Zone)
    requires WithinCaps(t, caps)
    ensures |t.perTercile| <= 100 && (|t.perTercile| == 100 ==> t.perTercile[z] == Quota(z))
  {
    ZonesPartition(t.perTercile);
    assert t.perTercile[Top] <= 33 && t.perTercile[Middle] <= 34 && t.perTercile[Bottom] <= 33;
  }

  /** The bench does not depend on the order in which the pool was acquired. */
  lemma BenchIgnoresAcquisition(a: seq<PoolEntry>, b: seq<PoolEntry>, size: int)
    requires DistinctIds(a) && multiset(a) == multiset(b)
    ensures Bench(a, size) == Bench(b, size) && AppliedCaps(a, size) == AppliedCaps(b, size)
    ensures NoDuplicates(Ordered(Bench(a, size)))
  {
    OrderedIgnoresAcquisition(a, b);
    SameMultisetSameElements(a, b);
    DistinctIdsSeparate(a);
    NoDuplicatesCounts(a);
    var bench := Bench(a, size);
    BenchObeysCaps(a, size, Top, Notice("", ""), "", "");
    OrderedKeeps(bench);
    CountsNoDuplicates(Ordered(bench));
  }

  // ---------- from the matches to the bench ----------

  /** The pool is built from the matches and the bench from the pool: one match per lot, at most two lots per
      notice, the greedy selection. */
  method BuildBench(matches: seq<PoolEntry>, size: int) returns (bench: seq<PoolEntry>, best: seq<PoolEntry>)
    ensures BestPerAwardLot(matches, best) && Sorted(best, RankLeq)
    ensures bench == Ordered(Bench(Capped(best, MAX_PER_NOTICE), size))
  {
    best := BestMatchPerAwardLot(matches);
    var unique := CapPerNotice(best, MAX_PER_NOTICE);
    var caps, relaxations;
    bench, caps, relaxations := SelectSignal100(unique, size);
  }

  /** However the matches were acquired, the bench is the same. */
  lemma WholeBenchIgnoresAcquisition(
    a: seq<PoolEntry>, b: seq<PoolEntry>, bestA: seq<PoolEntry>, bestB: seq<PoolEntry>, size: int)
    requires multiset(a) == multiset(b) && DistinctIds(a) && DistinctMatches(a)
    requires BestPerAwardLot(a, bestA) && Sorted(bestA, RankLeq)
    requires BestPerAwardLot(b, bestB) && Sorted(bestB, RankLeq)
    ensures Ordered(Bench(Capped(bestA, MAX_PER_NOTICE), size)) == Ordered(Bench(Capped(bestB, MAX_PER_NOTICE), size))
  {
    BestMatchesIgnoreAcquisition(a, b, bestA, bestB);
  }
}
