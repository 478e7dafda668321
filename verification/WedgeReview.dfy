/** The sample of one feed that is reviewed: everything while there are few, and otherwise exactly forty from
    three score zones, chosen by id alone. */
module WedgeReview {
  import opened Ordering
  import opened NoticeCap

  datatype Decision = Show | Borderline | Exclude | InsufficientData

  datatype SampleStatus = Ok | LowSample | InsufficientSample

  datatype FeedDetail = FeedDetail(icp: string, decision: Decision)

  type FeedEntry = Ranked<FeedDetail>

  const FULL_REVIEW_CEILING := 40
  const MIN_FOR_RATE := 20
  const MIN_FOR_LOW_SAMPLE := 10
  const CAP := 2

  function ById(s: seq<FeedEntry>): seq<FeedEntry> {
    Sort(s, IdLeq)
  }

  function Shown(entries: seq<FeedEntry>): seq<FeedEntry> {
    if entries == [] then []
    else (if entries[0].detail.decision == Show then [entries[0]] else []) + Shown(entries[1..])
  }

  function Shows(entries: seq<FeedEntry>): seq<FeedEntry> {
    Capped(Shown(entries), CAP)
  }

  function Picked(shows: seq<FeedEntry>): seq<FeedEntry> {
    var zones := ThirdsOf(shows);
    Take(ById(zones.top), 14) + Take(ById(zones.middle), 13) + Take(ById(zones.bottom), 13)
  }

  function Without(s: seq<FeedEntry>, picked: seq<FeedEntry>): seq<FeedEntry> {
    if s == [] then [] else (if s[0] in picked then [] else [s[0]]) + Without(s[1..], picked)
  }

  function Completed(shows: seq<FeedEntry>, picked: seq<FeedEntry>): seq<FeedEntry> {
    CompletedFrom(ById(shows), picked)
  }

  function CompletedFrom(sorted: seq<FeedEntry>, picked: seq<FeedEntry>): seq<FeedEntry> {
    if |picked| < FULL_REVIEW_CEILING
    then picked + Take(Without(sorted, picked), FULL_REVIEW_CEILING - |picked|) else picked
  }

  function Sample(entries: seq<FeedEntry>): (seq<FeedEntry>, SampleStatus) {
    var shows := Shows(entries);
    if |shows| < MIN_FOR_LOW_SAMPLE then ([], InsufficientSample)
    else if |shows| <= FULL_REVIEW_CEILING then
      (ById(shows), if |shows| >= MIN_FOR_RATE then Ok else LowSample)
    else (ById(Completed(shows, Picked(shows))), Ok)
  }

  method SampleForReview(entries: seq<FeedEntry>) returns (sample: seq<FeedEntry>, status: SampleStatus)
    ensures (sample, status) == Sample(entries)
  {
    var shows := CapPerNotice(Shown(entries), CAP);
    var count := |shows|;
    if count < MIN_FOR_LOW_SAMPLE { return [], InsufficientSample; }
    if count <= FULL_REVIEW_CEILING {
      return ById(shows), if count >= MIN_FOR_RATE then Ok else LowSample;
    }
    var picked := PickZones(shows);
    picked := Complete(ById(shows), picked);
    sample, status := ById(picked), Ok;
  }

  method PickZones(shows: seq<FeedEntry>) returns (picked: seq<FeedEntry>)
    ensures picked == Picked(shows)
  {
    var zones := ThirdsOf(shows);
    picked := Take(ById(zones.top), 14);
    picked := picked + Take(ById(zones.middle), 13);
    picked := picked + Take(ById(zones.bottom), 13);
  }

  method Complete(sorted: seq<FeedEntry>, picked0: seq<FeedEntry>) returns (picked: seq<FeedEntry>)
    ensures picked == CompletedFrom(sorted, picked0)
  {
    picked := picked0;
    if |picked| < FULL_REVIEW_CEILING {
      var remaining := Without(sorted, picked);
      picked := picked + Take(remaining, FULL_REVIEW_CEILING - |picked|);
    }
  }

  // ---------- exactly forty ----------

  lemma {:induction false} ShownCounts(entries: seq<FeedEntry>)
    ensures forall x :: multiset(Shown(entries))[x] == if x.detail.decision == Show then multiset(entries)[x] else 0
  {
    if entries != [] {
      assert entries == [entries[0]] + entries[1..];
      ShownCounts(entries[1..]);
    }
  }

  lemma {:induction false} ShownMembers(entries: seq<FeedEntry>)
    ensures forall x :: x in Shown(entries) ==> x in entries
    ensures DistinctIds(entries) ==> DistinctIds(Shown(entries))
  {
    if entries != [] {
      ShownMembers(entries[1..]);
      assert forall x :: x in entries[1..] ==> x in entries;
      if DistinctIds(entries) {
        forall x | x in Shown(entries[1..]) ensures x.id != entries[0].id {
          assert x in entries[1..];
        }
      }
    }
  }

  lemma ShowsAreDistinct(entries: seq<FeedEntry>)
    requires DistinctIds(entries)
    ensures DistinctIds(Shows(entries)) && multiset(Shows(entries)) <= multiset(entries)
  {
    ShownMembers(entries);
    ShownCounts(entries);
    OrderedKeeps(Shown(entries));
    KeepStaysDistinct(Ordered(Shown(entries)), CAP, multiset{});
    KeepSelects(Ordered(Shown(entries)), CAP, multiset{});
  }

  lemma TakeSelects(s: seq<FeedEntry>, n: nat)
    ensures multiset(Take(ById(s), n)) <= multiset(s) && |Take(ById(s), n)| == if n < |s| then n else |s|
  {
    SortKeeps(s, IdLeq);
    var sorted := ById(s);
    if n < |sorted| {
      assert sorted == sorted[..n] + sorted[n..];
      assert multiset(sorted) == multiset(sorted[..n]) + multiset(sorted[n..]);
    }
  }

  /** `picked` are the entries of the zone with the smallest ids. */
  ghost predicate SmallestIds(zone: seq<FeedEntry>, picked: seq<FeedEntry>, n: nat) {
    && |picked| == Min(n, |zone|) && multiset(picked) <= multiset(zone)
    && forall x, y :: x in picked && y in zone && multiset(picked)[y] < multiset(zone)[y] ==> StringLeq(x.id, y.id)
  }

  lemma FrontComesFirst(sorted: seq<FeedEntry>, n: nat, x: FeedEntry, y: FeedEntry)
    requires InIdOrder(sorted) && n <= |sorted| && x in sorted[..n] && y in sorted[n..]
    ensures StringLeq(x.id, y.id)
  {
    var i :| 0 <= i < n && sorted[i] == x;
    var j :| n <= j < |sorted| && sorted[j] == y;
  }

  lemma RestIsLeft(sorted: seq<FeedEntry>, n: nat, y: FeedEntry)
    requires n <= |sorted| && multiset(sorted[..n])[y] < multiset(sorted)[y]
    ensures y in sorted[n..]
  {
    assert sorted == sorted[..n] + sorted[n..];
    assert multiset(sorted) == multiset(sorted[..n]) + multiset(sorted[n..]);
  }

  lemma TakesSmallestIds(zone: seq<FeedEntry>, n: nat)
    ensures SmallestIds(zone, Take(ById(zone), n), n)
  {
    var sorted, picked := ById(zone), Take(ById(zone), n);
    SortedInIdOrder(zone);
    TakeSelects(zone, n);
    forall x, y | x in picked && y in zone && multiset(picked)[y] < multiset(zone)[y] ensures StringLeq(x.id, y.id) {
      if n < |sorted| {
        RestIsLeft(sorted, n, y);
        FrontComesFirst(sorted, n, x, y);
      }
    }
  }

  /** Which shows are picked: of each zone the ones with the smallest ids, fourteen of the top and thirteen of each
      other. */
  lemma PicksSmallestIds(shows: seq<FeedEntry>) returns (top: seq<FeedEntry>, middle: seq<FeedEntry>, bottom: seq<FeedEntry>)
    ensures Picked(shows) == top + middle + bottom
    ensures var zones := ThirdsOf(shows);
      SmallestIds(zones.top, top, 14) && SmallestIds(zones.middle, middle, 13) && SmallestIds(zones.bottom, bottom, 13)
  {
    var zones := ThirdsOf(shows);
    top, middle, bottom := Take(ById(zones.top), 14), Take(ById(zones.middle), 13), Take(ById(zones.bottom), 13);
    TakesSmallestIds(zones.top, 14);
    TakesSmallestIds(zones.middle, 13);
    TakesSmallestIds(zones.bottom, 13);
  }

  lemma {:induction false} WithoutMembers(s: seq<FeedEntry>, picked: seq<FeedEntry>)
    ensures forall x :: x in Without(s, picked) <==> x in s && x !in picked
  {
    if s != [] { WithoutMembers(s[1..], picked); }
  }

  lemma {:induction false} WithoutKeepsOrder(s: seq<FeedEntry>, picked: seq<FeedEntry>)
    requires InIdOrder(s)
    ensures InIdOrder(Without(s, picked))
  {
    if s != [] {
      var rest := Without(s[1..], picked);
      WithoutKeepsOrder(s[1..], picked);
      WithoutMembers(s[1..], picked);
      forall i | 0 <= i < |rest| ensures StringLeq(s[0].id, rest[i].id) {
        assert rest[i] in rest && rest[i] in s[1..];
      }
    }
  }

  lemma SortedMembers(shows: seq<FeedEntry>)
    ensures forall z :: z in ById(shows) <==> z in shows
  {
    SortKeeps(shows, IdLeq);
    SameMultisetSameElements(ById(shows), shows);
    forall z ensures z in ById(shows) <==> z in shows {
      assert z in ById(shows) <==> z in multiset(ById(shows));
      assert z in shows <==> z in multiset(shows);
    }
  }

  /** The one show that completes the picks of a feed of forty-one has the smallest id of those not picked. */
  lemma CompletionHasSmallestId(shows: seq<FeedEntry>, x: FeedEntry, y: FeedEntry)
    requires x in Completed(shows, Picked(shows)) && x !in Picked(shows)
    requires y in shows && y !in Completed(shows, Picked(shows))
    ensures StringLeq(x.id, y.id)
  {
    SortedInIdOrder(shows);
    SortedMembers(shows);
    CompletedFirst(ById(shows), Picked(shows), x, y);
  }

  lemma CompletedFirst(sorted: seq<FeedEntry>, picked: seq<FeedEntry>, x: FeedEntry, y: FeedEntry)
    requires InIdOrder(sorted) && x in CompletedFrom(sorted, picked) && x !in picked
    requires y in sorted && y !in CompletedFrom(sorted, picked)
    ensures StringLeq(x.id, y.id)
  {
    var rest, n := Without(sorted, picked), FULL_REVIEW_CEILING - |picked|;
    WithoutMembers(sorted, picked);
    WithoutKeepsOrder(sorted, picked);
    assert x in Take(rest, n) && y in rest && y !in Take(rest, n);
    assert Take(rest, n) == rest[..n];
    RestHolds(rest, n, y);
    FrontComesFirst(rest, n, x, y);
  }

  lemma RestHolds(s: seq<FeedEntry>, n: nat, y: FeedEntry)
    requires n <= |s| && y in s && y !in s[..n]
    ensures y in s[n..]
  {
    assert s == s[..n] + s[n..];
  }

  /** The sample is listed by id. */
  lemma SampleIsInIdOrder(entries: seq<FeedEntry>)
    ensures InIdOrder(Sample(entries).0)
  {
    var shows := Shows(entries);
    if |shows| <= FULL_REVIEW_CEILING {
      ListedById(shows);
    } else {
      ListedById(Completed(shows, Picked(shows)));
    }
  }

  lemma ListedById(s: seq<FeedEntry>)
    ensures InIdOrder(ById(s))
  {
    SortedInIdOrder(s);
  }

  lemma PickedSelects(shows: seq<FeedEntry>)
    ensures multiset(Picked(shows)) <= multiset(shows)
    ensures var zones := ThirdsOf(shows);
      |Picked(shows)| == Min(14, |zones.top|) + Min(13, |zones.middle|) + Min(13, |zones.bottom|)
  {
    var zones := ThirdsOf(shows);
    ThirdsPartition(shows);
    TakeSelects(zones.top, 14);
    TakeSelects(zones.middle, 13);
    TakeSelects(zones.bottom, 13);
    ThreeParts(Take(ById(zones.top), 14), Take(ById(zones.middle), 13), Take(ById(zones.bottom), 13),
      zones.top, zones.middle, zones.bottom);
  }

  lemma ThreeParts(a: seq<FeedEntry>, b: seq<FeedEntry>, c: seq<FeedEntry>,
                   x: seq<FeedEntry>, y: seq<FeedEntry>, z: seq<FeedEntry>)
    requires multiset(a) <= multiset(x) && multiset(b) <= multiset(y) && multiset(c) <= multiset(z)
    ensures multiset(a + b + c) <= multiset(x) + multiset(y) + multiset(z)
  {
    assert multiset(a + b + c) == multiset(a) + multiset(b) + multiset(c);
  }

  lemma {:induction false} WithoutSelects(s: seq<FeedEntry>, picked: seq<FeedEntry>, x: FeedEntry)
    ensures multiset(Without(s, picked))[x] == if x in picked then 0 else multiset(s)[x]
  {
    if s != [] {
      assert s == [s[0]] + s[1..];
      WithoutSelects(s[1..], picked, x);
    }
  }

  lemma WithoutIsTheRest(s: seq<FeedEntry>, picked: seq<FeedEntry>)
    requires NoDuplicates(s) && multiset(picked) <= multiset(s)
    ensures multiset(Without(s, picked)) + multiset(picked) == multiset(s)
    ensures |Without(s, picked)| + |picked| == |s|
  {
    NoDuplicatesCounts(s);
    var rest := Without(s, picked);
    forall x ensures multiset(rest)[x] + multiset(picked)[x] == multiset(s)[x] {
      WithoutSelects(s, picked, x);
      assert multiset(picked)[x] <= multiset(s)[x];
      assert x in picked <==> multiset(picked)[x] > 0;
    }
    assert multiset(rest) + multiset(picked) == multiset(s);
    assert |multiset(rest)| + |multiset(picked)| == |multiset(s)|;
  }

  lemma CompletedSelects(shows: seq<FeedEntry>, picked: seq<FeedEntry>)
    requires DistinctIds(shows) && |picked| <= FULL_REVIEW_CEILING <= |shows| && multiset(picked) <= multiset(shows)
    ensures multiset(Completed(shows, picked)) <= multiset(shows) && |Completed(shows, picked)| == FULL_REVIEW_CEILING
  {
    DistinctIdsSeparate(shows);
    SortKeeps(shows, IdLeq);
    SameMultisetNoDuplicates(shows, ById(shows));
    CompletionSelects(ById(shows), picked);
  }

  lemma CompletionSelects(sorted: seq<FeedEntry>, picked: seq<FeedEntry>)
    requires NoDuplicates(sorted) && |picked| <= FULL_REVIEW_CEILING <= |sorted| && multiset(picked) <= multiset(sorted)
    ensures multiset(CompletedFrom(sorted, picked)) <= multiset(sorted) && |CompletedFrom(sorted, picked)| == FULL_REVIEW_CEILING
  {
    WithoutIsTheRest(sorted, picked);
    var rest, n := Without(sorted, picked), FULL_REVIEW_CEILING - |picked|;
    assert CompletedFrom(sorted, picked) == if n > 0 then picked + Take(rest, n) else picked;
    if n > 0 { AddedFromRest(sorted, picked, rest, n); }
  }

  lemma AddedFromRest(all: seq<FeedEntry>, picked: seq<FeedEntry>, rest: seq<FeedEntry>, n: nat)
    requires multiset(rest) + multiset(picked) == multiset(all) && n <= |rest|
    ensures multiset(picked + Take(rest, n)) <= multiset(all) && |Take(rest, n)| == n
  {
    assert Take(rest, n) == rest[..n];
    assert rest == rest[..n] + rest[n..];
    assert multiset(rest) == multiset(rest[..n]) + multiset(rest[n..]);
    assert multiset(picked + rest[..n]) == multiset(picked) + multiset(rest[..n]);
  }

  lemma SelectedFromShows(shows: seq<FeedEntry>, sample: seq<FeedEntry>)
    requires DistinctIds(shows) && multiset(sample) <= multiset(shows)
    ensures NoDuplicates(sample)
  {
    DistinctIdsSeparate(shows);
    NoDuplicatesCounts(shows);
    forall x | x in sample ensures multiset(sample)[x] <= 1 {
      assert multiset(sample)[x] <= multiset(shows)[x];
    }
    CountsNoDuplicates(sample);
  }

  /** A feed with distinct ids is reviewed in full up to forty capped shows, in exactly forty distinct ones
      beyond, and not at all below ten. */
  lemma SampleHasTheStatedSize(entries: seq<FeedEntry>)
    requires DistinctIds(entries)
    ensures var shows, sample := Shows(entries), Sample(entries).0;
      && |sample| == (if |shows| < 10 then 0 else if |shows| <= 40 then |shows| else 40)
      && multiset(sample) <= multiset(shows) && NoDuplicates(sample)
      && (Sample(entries).1 == Ok <==> |shows| >= 20)
      && (Sample(entries).1 == InsufficientSample <==> |shows| < 10)
  {
    var shows, sample := Shows(entries), Sample(entries).0;
    ShowsAreDistinct(entries);
    if |shows| > FULL_REVIEW_CEILING {
      PickedSelects(shows);
      CompletedSelects(shows, Picked(shows));
      SortKeeps(Completed(shows, Picked(shows)), IdLeq);
    } else {
      SortKeeps(shows, IdLeq);
    }
    SelectedFromShows(shows, sample);
  }

  /** No notice has more than two entries in the sample. */
  lemma SampleTakesTwoPerNotice(entries: seq<FeedEntry>, n: Notice)
    requires DistinctIds(entries)
    ensures |Of(Sample(entries).0, n)| <= 2
  {
    SampleHasTheStatedSize(entries);
    TakenKeepsCap(Shown(entries), CAP, Sample(entries).0, n);
  }

  /** Beyond forty shows the middle and bottom zones always meet their quotas, and the top zone does except when
      there are forty-one. */
  lemma OnlyFortyOneFallsShort(shows: seq<FeedEntry>)
    requires |shows| > FULL_REVIEW_CEILING
    ensures |ThirdsOf(shows).middle| >= 13 && |ThirdsOf(shows).bottom| >= 13
    ensures |ThirdsOf(shows).top| >= 14 <==> |shows| != 41
  {
    ThirdsPartition(shows);
  }

  /** So the picks are completed exactly when the top zone falls short of its fourteen. */
  lemma CompletedIffTopFallsShort(shows: seq<FeedEntry>)
    requires DistinctIds(shows) && |shows| > FULL_REVIEW_CEILING
    ensures Completed(shows, Picked(shows)) == Picked(shows) <==> |ThirdsOf(shows).top| >= 14
  {
    PickedSelects(shows);
    OnlyFortyOneFallsShort(shows);
    CompletedSelects(shows, Picked(shows));
  }

  /** The capped shows, and with them the sample, do not depend on the order of acquisition. */
  lemma ShowsIgnoreAcquisition(a: seq<FeedEntry>, b: seq<FeedEntry>)
    requires DistinctIds(a) && multiset(a) == multiset(b)
    ensures Shows(a) == Shows(b)
  {
    ShownCounts(a);
    ShownCounts(b);
    ShownMembers(a);
    CapIgnoresAcquisition(Shown(a), Shown(b), CAP);
  }
}
