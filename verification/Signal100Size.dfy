/** How large the Signal-100 bench gets: half of the best possible for any pool, and exactly the best possible for
    a pool that was capped per notice, as the one it is built from. */
module Signal100Size {
  import opened Ordering
  import opened NoticeCap
  import opened Signal100
  import opened Signal100Select

  // ---------- counting ----------

  lemma {:induction false} CountUnion(s: seq<PoolEntry>, p: PoolEntry -> bool, q: PoolEntry -> bool, r: PoolEntry -> bool)
    requires forall x :: x in s ==> p(x) || q(x) || r(x)
    ensures |s| <= Count(s, p) + Count(s, q) + Count(s, r)
  {
    if s != [] { CountUnion(s[..|s| - 1], p, q, r); }
  }

  lemma {:induction false} CountDisjoint(s: seq<PoolEntry>, p: PoolEntry -> bool, q: PoolEntry -> bool)
    requires forall x :: !(p(x) && q(x))
    ensures Count(s, p) + Count(s, q) <= |s|
  {
    if s != [] { CountDisjoint(s[..|s| - 1], p, q); }
  }

  function Chosen(s: seq<PoolEntry>, p: PoolEntry -> bool): seq<PoolEntry> {
    if s == [] then [] else
      var n := |s| - 1;
      Chosen(s[..n], p) + if p(s[n]) then [s[n]] else []
  }

  lemma {:induction false} ChosenCounts(s: seq<PoolEntry>, p: PoolEntry -> bool)
    ensures |Chosen(s, p)| == Count(s, p)
    ensures forall x :: multiset(Chosen(s, p))[x] == if p(x) then multiset(s)[x] else 0
  {
    if s != [] {
      ChosenCounts(s[..|s| - 1], p);
      assert s == s[..|s| - 1] + [s[|s| - 1]];
    }
  }

  ghost predicate NoMoreOf(a: seq<PoolEntry>, b: seq<PoolEntry>, p: PoolEntry -> bool) {
    forall x :: p(x) ==> multiset(a)[x] <= multiset(b)[x]
  }

  lemma CountIsMonotone(a: seq<PoolEntry>, b: seq<PoolEntry>, p: PoolEntry -> bool)
    requires NoMoreOf(a, b, p)
    ensures Count(a, p) <= Count(b, p)
  {
    ChosenCounts(a, p);
    ChosenCounts(b, p);
    var m, n := multiset(Chosen(a, p)), multiset(Chosen(b, p));
    forall x ensures m[x] <= n[x] {
    }
    assert n == m + (n - m);
  }

  /** What counts less is left out somewhere. */
  lemma SomeLeftOut(a: seq<PoolEntry>, b: seq<PoolEntry>, p: PoolEntry -> bool) returns (x: PoolEntry)
    requires Count(a, p) < Count(b, p)
    ensures p(x) && x in b && multiset(a)[x] < multiset(b)[x]
  {
    if NoMoreOf(b, a, p) { CountIsMonotone(b, a, p); }
    x :| p(x) && multiset(b)[x] > multiset(a)[x];
  }

  lemma LeftOutCountsLess(a: seq<PoolEntry>, b: seq<PoolEntry>, p: PoolEntry -> bool, x: PoolEntry)
    requires multiset(a) <= multiset(b) && p(x) && multiset(a)[x] < multiset(b)[x]
    ensures Count(a, p) < Count(b, p)
  {
    assert multiset(a + [x]) == multiset(a) + multiset{x};
    assert (a + [x])[..|a|] == a;
    CountIsMonotone(a + [x], b, p);
  }

  // ---------- counting by notice ----------

  ghost function OfNotices(notices: set<Notice>): PoolEntry -> bool {
    (x: PoolEntry) => x.notice in notices
  }

  lemma {:induction false} CountOneNoticeMore(s: seq<PoolEntry>, notices: set<Notice>, n: Notice)
    requires n !in notices
    ensures Count(s, OfNotices(notices + {n})) == Count(s, OfNotices(notices)) + Count(s, OfNotice(n))
  {
    if s != [] { CountOneNoticeMore(s[..|s| - 1], notices, n); }
  }

  lemma {:induction false} CountNoNotice(s: seq<PoolEntry>)
    ensures Count(s, OfNotices({})) == 0
  {
    if s != [] { CountNoNotice(s[..|s| - 1]); }
  }

  lemma {:induction false} NoticesDominate(a: seq<PoolEntry>, b: seq<PoolEntry>, notices: set<Notice>)
    requires forall n :: n in notices ==> Count(a, OfNotice(n)) <= Count(b, OfNotice(n))
    ensures Count(a, OfNotices(notices)) <= Count(b, OfNotices(notices))
  {
    if notices == {} {
      CountNoNotice(a);
    } else {
      var n :| n in notices;
      var rest := notices - {n};
      NoticesDominate(a, b, rest);
      assert notices == rest + {n};
      CountOneNoticeMore(a, rest, n);
      CountOneNoticeMore(b, rest, n);
    }
  }

  // ---------- counting by zone ----------

  lemma ZonesAddUp(s: seq<PoolEntry>, zones: map<string, Zone>)
    requires Zoned(zones, s)
    ensures |s| == Count(s, InZone(zones, Top)) + Count(s, InZone(zones, Middle)) + Count(s, InZone(zones, Bottom))
  {
    TallyCountsZones(s, zones, Top);
    TallyCountsZones(s, zones, Middle);
    TallyCountsZones(s, zones, Bottom);
    ZonesPartition(TallyOf(s, zones).perTercile);
  }

  ghost function InZones(zones: map<string, Zone>, some: set<Zone>): PoolEntry -> bool {
    (x: PoolEntry) => x.id in zones && zones[x.id] in some
  }

  lemma {:induction false} CountZones(s: seq<PoolEntry>, zones: map<string, Zone>, some: set<Zone>)
    ensures Count(s, InZones(zones, some)) ==
      (if Top in some then Count(s, InZone(zones, Top)) else 0)
      + (if Middle in some then Count(s, InZone(zones, Middle)) else 0)
      + (if Bottom in some then Count(s, InZone(zones, Bottom)) else 0)
  {
    if s != [] {
      CountZones(s[..|s| - 1], zones, some);
      match if s[|s| - 1].id in zones then zones[s[|s| - 1].id] else Top
      case Top =>
      case Middle =>
      case Bottom =>
    }
  }

  // ---------- any pool ----------

  /** A selection from the pool that obeys the zone quotas and the notice cap. */
  ghost predicate Obeying(pool: seq<PoolEntry>, choice: seq<PoolEntry>) {
    && multiset(choice) <= multiset(pool)
    && (forall z :: Count(choice, InZone(PoolZones(pool), z)) <= Quota(z))
    && (forall n :: Count(choice, OfNotice(n)) <= MAX_PER_NOTICE)
  }

  /** Zones whose quota a bench fills, and notices of which it has two. */
  ghost function FullZones(bench: seq<PoolEntry>, zones: map<string, Zone>): set<Zone> {
    set z: Zone | Count(bench, InZone(zones, z)) >= Quota(z)
  }

  ghost function FullNotices(bench: seq<PoolEntry>): set<Notice> {
    set x | x in bench && Count(bench, OfNotice(x.notice)) >= MAX_PER_NOTICE :: x.notice
  }

  lemma {:induction false} CountedIsMember(s: seq<PoolEntry>, p: PoolEntry -> bool) returns (x: PoolEntry)
    requires Count(s, p) > 0
    ensures x in s && p(x)
  {
    var n := |s| - 1;
    if p(s[n]) { x := s[n]; } else { x := CountedIsMember(s[..n], p); }
  }

  ghost predicate Blocking(bench: seq<PoolEntry>, zones: map<string, Zone>, x: PoolEntry) {
    InZones(zones, FullZones(bench, zones))(x) || OfNotices(FullNotices(bench))(x)
  }

  ghost function NotBlocked(bench: seq<PoolEntry>, zones: map<string, Zone>): PoolEntry -> bool {
    (x: PoolEntry) => !Blocking(bench, zones, x)
  }

  lemma LeftOutIsBlocked(pool: seq<PoolEntry>, size: int, x: PoolEntry)
    requires |Bench(pool, size)| < size && multiset(Bench(pool, size))[x] < multiset(pool)[x]
    ensures Blocking(Bench(pool, size), PoolZones(pool), x)
  {
    var bench := Bench(pool, size);
    assert x in pool;
    ShortBenchIsBlocked(pool, size, x);
    if Count(bench, OfNotice(x.notice)) >= MAX_PER_NOTICE {
      var y := CountedIsMember(bench, OfNotice(x.notice));
    }
  }

  lemma FullZonesDominate(pool: seq<PoolEntry>, bench: seq<PoolEntry>, choice: seq<PoolEntry>)
    requires Obeying(pool, choice)
    ensures var full := InZones(PoolZones(pool), FullZones(bench, PoolZones(pool))); Count(choice, full) <= Count(bench, full)
  {
    var zones := PoolZones(pool);
    CountZones(choice, zones, FullZones(bench, zones));
    CountZones(bench, zones, FullZones(bench, zones));
  }

  lemma FullNoticesDominate(pool: seq<PoolEntry>, bench: seq<PoolEntry>, choice: seq<PoolEntry>)
    requires Obeying(pool, choice)
    ensures Count(choice, OfNotices(FullNotices(bench))) <= Count(bench, OfNotices(FullNotices(bench)))
  {
    NoticesDominate(choice, bench, FullNotices(bench));
  }

  /** Whatever the pool: no selection of the size that obeys the zone quotas and the notice cap is more than twice
      as large as the bench, although the bench is chosen greedily and under two more caps. */
  lemma BenchIsAtLeastHalf(pool: seq<PoolEntry>, size: int, choice: seq<PoolEntry>)
    requires Obeying(pool, choice) && |choice| <= size
    ensures |choice| <= 2 * |Bench(pool, size)|
  {
    var bench, zones := Bench(pool, size), PoolZones(pool);
    if |bench| < size {
      var byZone, byNotice := InZones(zones, FullZones(bench, zones)), OfNotices(FullNotices(bench));
      var free := NotBlocked(bench, zones);
      forall x | free(x) ensures multiset(choice)[x] <= multiset(bench)[x] {
        if multiset(bench)[x] < multiset(pool)[x] { LeftOutIsBlocked(pool, size, x); }
      }
      CountIsMonotone(choice, bench, free);
      FullZonesDominate(pool, bench, choice);
      FullNoticesDominate(pool, bench, choice);
      CountUnion(choice, byZone, byNotice, free);
      CountDisjoint(bench, byZone, free);
      CountIsBounded(bench, byNotice);
    }
  }

  // ---------- a pool capped per notice ----------

  ghost predicate CappedPool(pool: seq<PoolEntry>) {
    forall n :: Count(pool, OfNotice(n)) <= MAX_PER_NOTICE
  }

  lemma {:induction false} OfCounts(s: seq<PoolEntry>, n: Notice)
    ensures Count(s, OfNotice(n)) == |Of(s, n)|
  {
    if s != [] {
      var init, last := s[..|s| - 1], s[|s| - 1];
      OfCounts(init, n);
      OfSnoc(init, last, n);
      assert s == init + [last];
    }
  }

  lemma {:induction false} OfSnoc(s: seq<PoolEntry>, x: PoolEntry, n: Notice)
    ensures Of(s + [x], n) == Of(s, n) + if x.notice == n then [x] else []
  {
    if s == [] {
      assert [] + [x] == [x] && [x][1..] == [];
    } else {
      OfSnoc(s[1..], x, n);
      assert (s + [x])[1..] == s[1..] + [x];
    }
  }

  lemma CappedIsCappedPool(entries: seq<PoolEntry>)
    ensures CappedPool(Capped(entries, MAX_PER_NOTICE))
  {
    forall n ensures Count(Capped(entries, MAX_PER_NOTICE), OfNotice(n)) <= MAX_PER_NOTICE {
      OfCounts(Capped(entries, MAX_PER_NOTICE), n);
      CapKeepsTheBestOfEachNotice(entries, MAX_PER_NOTICE, n);
    }
  }

  /** With a capped pool only a quota can keep an entry out of a short bench: each zone is filled or exhausted. */
  lemma ShortBenchExhaustsZones(pool: seq<PoolEntry>, size: int, z: Zone)
    requires CappedPool(pool) && |Bench(pool, size)| < size
    ensures Count(Bench(pool, size), InZone(PoolZones(pool), z)) == Min(Quota(z), Count(pool, InZone(PoolZones(pool), z)))
  {
    var bench, inZone := Bench(pool, size), InZone(PoolZones(pool), z);
    BenchObeysCaps(pool, size, z, Notice("", ""), "", "");
    CountIsMonotone(bench, pool, inZone);
    if Count(bench, inZone) < Count(pool, inZone) {
      var x := SomeLeftOut(bench, pool, inZone);
      ShortBenchIsBlocked(pool, size, x);
      LeftOutCountsLess(bench, pool, OfNotice(x.notice), x);
    }
  }

  /** The room of the three zones. */
  ghost function Room(pool: seq<PoolEntry>): int {
    Min(Quota(Top), Count(pool, InZone(PoolZones(pool), Top)))
    + Min(Quota(Middle), Count(pool, InZone(PoolZones(pool), Middle)))
    + Min(Quota(Bottom), Count(pool, InZone(PoolZones(pool), Bottom)))
  }

  lemma ObeyingFits(pool: seq<PoolEntry>, choice: seq<PoolEntry>)
    requires Zoned(PoolZones(pool), choice) && multiset(choice) <= multiset(pool)
    requires forall z :: Count(choice, InZone(PoolZones(pool), z)) <= Quota(z)
    ensures |choice| <= Room(pool)
  {
    var zones := PoolZones(pool);
    ZonesAddUp(choice, zones);
    CountIsMonotone(choice, pool, InZone(zones, Top));
    CountIsMonotone(choice, pool, InZone(zones, Middle));
    CountIsMonotone(choice, pool, InZone(zones, Bottom));
  }

  lemma BenchFits(pool: seq<PoolEntry>, size: int)
    ensures Zoned(PoolZones(pool), Bench(pool, size)) && |Bench(pool, size)| <= Room(pool)
  {
    var bench, zones := Bench(pool, size), PoolZones(pool);
    PoolIsZoned(pool);
    RoundIsZoned(Ordered(pool), zones, AppliedCaps(pool, size), size);
    BenchObeysCaps(pool, size, Top, Notice("", ""), "", "");
    forall z ensures Count(bench, InZone(zones, z)) <= Quota(z) {
      BenchObeysCaps(pool, size, z, Notice("", ""), "", "");
    }
    ObeyingFits(pool, bench);
  }

  lemma ShortBenchFillsRoom(pool: seq<PoolEntry>, size: int)
    requires CappedPool(pool) && |Bench(pool, size)| < size
    ensures |Bench(pool, size)| == Room(pool)
  {
    BenchFits(pool, size);
    ZonesAddUp(Bench(pool, size), PoolZones(pool));
    ShortBenchExhaustsZones(pool, size, Top);
    ShortBenchExhaustsZones(pool, size, Middle);
    ShortBenchExhaustsZones(pool, size, Bottom);
  }

  /** With a capped pool the greedy bench fills the room of its zones. */
  lemma CappedBenchFillsRoom(pool: seq<PoolEntry>, size: nat)
    requires CappedPool(pool)
    ensures |Bench(pool, size)| == Min(size, Room(pool))
  {
    BenchFits(pool, size);
    BenchObeysCaps(pool, size, Top, Notice("", ""), "", "");
    if |Bench(pool, size)| < size { ShortBenchFillsRoom(pool, size); }
  }

  /** So no selection that obeys the zone quotas is larger, whatever else it obeys or not. */
  lemma CappedBenchIsLargest(pool: seq<PoolEntry>, size: nat, choice: seq<PoolEntry>)
    requires CappedPool(pool) && |choice| <= size && multiset(choice) <= multiset(pool)
    requires forall z :: Count(choice, InZone(PoolZones(pool), z)) <= Quota(z)
    ensures |choice| <= |Bench(pool, size)|
  {
    PoolIsZoned(pool);
    forall x | x in choice ensures x.id in PoolZones(pool) {
      assert x in multiset(choice) && x in multiset(pool);
    }
    ObeyingFits(pool, choice);
    CappedBenchFillsRoom(pool, size);
  }

  // ---------- how many entries it takes ----------

  /** How many of the first `k` ranks of `n` are in a zone. */
  function ZoneUpTo(z: Zone, k: nat, n: nat): int
    requires k <= n
  {
    match z
    case Top => Min(k, n / 3)
    case Middle => Min(k, 2 * n / 3) - Min(k, n / 3)
    case Bottom => k - Min(k, 2 * n / 3)
  }

  lemma {:induction false} RanksCountZones(ordered: seq<PoolEntry>, zones: map<string, Zone>, n: nat, z: Zone)
    requires |ordered| <= n
    requires forall i :: 0 <= i < |ordered| ==> ordered[i].id in zones && zones[ordered[i].id] == ZoneAt(i, n)
    ensures Count(ordered, InZone(zones, z)) == ZoneUpTo(z, |ordered|, n)
  {
    if ordered != [] { RanksCountZones(ordered[..|ordered| - 1], zones, n, z); }
  }

  lemma PoolZoneCount(pool: seq<PoolEntry>, z: Zone)
    requires DistinctIds(pool)
    ensures Count(pool, InZone(PoolZones(pool), z)) == ZoneUpTo(z, |pool|, |pool|)
  {
    var ordered := Ordered(pool);
    OrderedKeeps(pool);
    PoolIsZoned(pool);
    EveryEntryHasItsZone(ordered, |pool|);
    RanksCountZones(ordered, PoolZones(pool), |pool|, z);
    CountIsMonotone(ordered, pool, InZone(PoolZones(pool), z));
    CountIsMonotone(pool, ordered, InZone(PoolZones(pool), z));
  }

  lemma RoomOfPool(pool: seq<PoolEntry>)
    requires DistinctIds(pool)
    ensures Room(pool) == if |pool| > 100 then 100 else if |pool| == 100 then 99 else |pool|
  {
    PoolZoneCount(pool, Top);
    PoolZoneCount(pool, Middle);
    PoolZoneCount(pool, Bottom);
  }

  /** The bench of one hundred built from distinct ids is full if and only if the cap per notice leaves at least one
      hundred and one entries. A smaller pool is selected whole, but one of exactly a hundred gives ninety-nine: its
      middle zone has one entry less than its quota, and its bottom zone one more. */
  lemma BuiltBenchSize(best: seq<PoolEntry>)
    requires DistinctIds(best)
    ensures var pool := Capped(best, MAX_PER_NOTICE);
      |Bench(pool, 100)| == if |pool| > 100 then 100 else if |pool| == 100 then 99 else |pool|
  {
    var pool := Capped(best, MAX_PER_NOTICE);
    OrderedKeeps(best);
    KeepStaysDistinct(Ordered(best), MAX_PER_NOTICE, multiset{});
    CappedIsCappedPool(best);
    CappedBenchFillsRoom(pool, 100);
    RoomOfPool(pool);
  }

  const MIN_NATURAL_SHOW_SIGNALS := 120

  /** So the volume below which no bench is built is more than enough: every bench that is built has exactly one
      hundred signals, 33, 34 and 33 from the zones, whatever the relaxed caps came to. */
  lemma NaturalVolumeSuffices(best: seq<PoolEntry>, z: Zone)
    requires DistinctIds(best) && |Capped(best, MAX_PER_NOTICE)| >= MIN_NATURAL_SHOW_SIGNALS
    ensures var pool := Capped(best, MAX_PER_NOTICE);
      |Bench(pool, 100)| == 100 && Count(Bench(pool, 100), InZone(PoolZones(pool), z)) == Quota(z)
  {
    BuiltBenchSize(best);
    FullBenchIsBalanced(Capped(best, MAX_PER_NOTICE), 100, z);
  }
}
