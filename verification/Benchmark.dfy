/** The bench of one client feed: the capped feed in three score zones, dealt out stratum by stratum until the
    quota of each zone is met, and completed from what is left. */
module Benchmark {
  import opened Ordering
  import opened NoticeCap
  import opened Dealing

  const MAX_AWARD_LOTS_PER_NOTICE := 2

  // ---------- spreading over the strata ----------

  /** The strata in the order in which they first appear. */
  function StrataOf(s: seq<WedgeSignal>): seq<Stratum> {
    if s == [] then [] else
      var before, k := StrataOf(s[..|s| - 1]), StratumOf(s[|s| - 1]);
      if k in before then before else before + [k]
  }

  function Keys(s: seq<WedgeSignal>): seq<Stratum> {
    Sort(StrataOf(s), StratumLeq)
  }

  function QueuesOf(s: seq<WedgeSignal>, keys: seq<Stratum>): seq<Queue> {
    seq(|keys|, i requires 0 <= i < |keys| => OfStratum(s, keys[i]))
  }

  function NotNegative(n: int): nat {
    if n < 0 then 0 else n
  }

  function Spread(signals: seq<WedgeSignal>, wanted: int): seq<WedgeSignal> {
    var ordered := Ordered(signals);
    Deal(QueuesOf(ordered, Keys(ordered)), NotNegative(wanted)).0
  }

  lemma {:induction false} StrataAreListedOnce(s: seq<WedgeSignal>)
    ensures NoDuplicates(StrataOf(s))
    ensures forall k :: k in StrataOf(s) <==> OfStratum(s, k) != []
  {
    if s != [] { StrataAreListedOnce(s[..|s| - 1]); }
  }

  lemma KeysAreListedOnce(s: seq<WedgeSignal>)
    ensures NoDuplicates(Keys(s))
    ensures forall k :: k in Keys(s) <==> OfStratum(s, k) != []
  {
    StrataAreListedOnce(s);
    SortKeeps(StrataOf(s), StratumLeq);
    SameMultisetNoDuplicates(StrataOf(s), Keys(s));
  }

  lemma {:induction false} OfStratumMembers(s: seq<WedgeSignal>, k: Stratum)
    ensures forall x :: x in OfStratum(s, k) ==> x in s && StratumOf(x) == k
  {
    if s != [] { OfStratumMembers(s[..|s| - 1], k); }
  }

  lemma {:induction false} OfStratumCounts(s: seq<WedgeSignal>, x: WedgeSignal)
    ensures multiset(OfStratum(s, StratumOf(x)))[x] == multiset(s)[x]
  {
    if s != [] {
      assert s == s[..|s| - 1] + [s[|s| - 1]];
      OfStratumCounts(s[..|s| - 1], x);
    }
  }

  lemma QueuesAreFiled(s: seq<WedgeSignal>, keys: seq<Stratum>)
    ensures Filed(QueuesOf(s, keys), keys)
  {
    forall i, x | 0 <= i < |keys| && x in QueuesOf(s, keys)[i] ensures StratumOf(x) == keys[i] {
      OfStratumMembers(s, keys[i]);
    }
  }

  lemma {:induction false} SizeWithOneMore(queues: seq<Queue>, i: nat, x: WedgeSignal)
    requires i < |queues|
    ensures Size(queues[i := queues[i] + [x]]) == Size(queues) + 1
  {
    var after := queues[i := queues[i] + [x]];
    if i == 0 {
      assert after[1..] == queues[1..];
    } else {
      SizeWithOneMore(queues[1..], i - 1, x);
      assert after[1..] == queues[1..][i - 1 := queues[i] + [x]];
    }
  }

  lemma {:induction false} QueuesHoldAll(s: seq<WedgeSignal>, keys: seq<Stratum>)
    requires NoDuplicates(keys) && forall x :: x in s ==> StratumOf(x) in keys
    ensures Size(QueuesOf(s, keys)) == |s|
  {
    if s == [] {
      AllEmptyHasNoSize(QueuesOf(s, keys));
    } else {
      var init, x := s[..|s| - 1], s[|s| - 1];
      QueuesHoldAll(init, keys);
      assert x in s;
      var i :| 0 <= i < |keys| && keys[i] == StratumOf(x);
      SizeWithOneMore(QueuesOf(init, keys), i, x);
      var after := QueuesOf(init, keys)[i := QueuesOf(init, keys)[i] + [x]];
      forall j | 0 <= j < |keys| ensures QueuesOf(s, keys)[j] == after[j] {
        assert keys[j] == StratumOf(x) <==> j == i;
        assert OfStratum(s, keys[j]) == OfStratum(init, keys[j]) + if j == i then [x] else [];
      }
      assert QueuesOf(s, keys) == after;
    }
  }

  lemma {:induction false} StratumAppears(s: seq<WedgeSignal>, x: WedgeSignal)
    requires x in s
    ensures x in OfStratum(s, StratumOf(x))
  {
    OfStratumCounts(s, x);
    assert x in multiset(s);
    assert x in multiset(OfStratum(s, StratumOf(x)));
  }

  lemma OrderedQueues(signals: seq<WedgeSignal>)
    ensures var ordered := Ordered(signals); var keys := Keys(ordered);
      && NoDuplicates(keys) && Filed(QueuesOf(ordered, keys), keys)
      && Size(QueuesOf(ordered, keys)) == |signals|
  {
    var ordered := Ordered(signals);
    OrderedKeeps(signals);
    KeysAreListedOnce(ordered);
    QueuesAreFiled(ordered, Keys(ordered));
    forall x | x in ordered ensures StratumOf(x) in Keys(ordered) {
      StratumAppears(ordered, x);
    }
    QueuesHoldAll(ordered, Keys(ordered));
  }

  /** Exactly as many as wanted, or all there are. */
  lemma SpreadCount(signals: seq<WedgeSignal>, wanted: int)
    ensures |Spread(signals, wanted)| == Min(NotNegative(wanted), |signals|)
  {
    OrderedQueues(signals);
    var ordered := Ordered(signals);
    DealTakes(QueuesOf(ordered, Keys(ordered)), NotNegative(wanted));
  }

  /** What is taken of a stratum is its best, in order. */
  lemma SpreadTakesBest(signals: seq<WedgeSignal>, wanted: int, k: Stratum)
    ensures OfStratum(Spread(signals, wanted), k) <= OfStratum(Ordered(signals), k)
  {
    OrderedQueues(signals);
    var ordered := Ordered(signals);
    var keys := Keys(ordered);
    var queues := QueuesOf(ordered, keys);
    DealTakesFronts(queues, keys, NotNegative(wanted));
    var (picked, left) := Deal(queues, NotNegative(wanted));
    if k in keys {
      var i :| 0 <= i < |keys| && keys[i] == k;
      assert TakenFromFront(queues[i], keys[i], picked, left[i]);
    } else {
      assert NonePicked(k, picked);
    }
  }

  /** Every stratum has been dealt `n` or `n + 1`, or everything it has. */
  lemma SpreadIsEven(signals: seq<WedgeSignal>, wanted: int) returns (n: nat)
    ensures forall k ::
      var (dealt, all) := (|OfStratum(Spread(signals, wanted), k)|, |OfStratum(Ordered(signals), k)|);
      Min(n, all) <= dealt <= Min(n + 1, all)
  {
    OrderedQueues(signals);
    var ordered := Ordered(signals);
    var keys := Keys(ordered);
    var queues := QueuesOf(ordered, keys);
    KeysAreListedOnce(ordered);
    DealTakesFronts(queues, keys, NotNegative(wanted));
    var (picked, left) := Deal(queues, NotNegative(wanted));
    n := DealIsFair(queues, queues, 0, NotNegative(wanted));
    forall k
      ensures var all := |OfStratum(ordered, k)|; Min(n, all) <= |OfStratum(picked, k)| <= Min(n + 1, all)
    {
      if k in keys {
        var i :| 0 <= i < |keys| && keys[i] == k;
        assert TakenFromFront(queues[i], keys[i], picked, left[i]);
        assert Min(n, |queues[i]|) <= Given(queues, left, i) <= Min(n + 1, |queues[i]|);
      } else {
        assert NonePicked(k, picked);
      }
    }
  }

  /** Fairness: if one stratum gets two more than another, the other is exhausted. */
  lemma SpreadIsFair(signals: seq<WedgeSignal>, wanted: int, a: Stratum, b: Stratum)
    requires |OfStratum(Spread(signals, wanted), a)| >= |OfStratum(Spread(signals, wanted), b)| + 2
    ensures OfStratum(Spread(signals, wanted), b) == OfStratum(Ordered(signals), b)
  {
    var n := SpreadIsEven(signals, wanted);
    SpreadTakesBest(signals, wanted, b);
    var (dealtA, allA) := (|OfStratum(Spread(signals, wanted), a)|, |OfStratum(Ordered(signals), a)|);
    assert Min(n, allA) <= dealtA <= Min(n + 1, allA);
  }

  lemma KeysInOrder(s: seq<WedgeSignal>, a: Stratum, b: Stratum) returns (i: nat, j: nat)
    requires a in Keys(s) && b in Keys(s) && Precedes(a, b) && a != b
    ensures i < j < |Keys(s)| && Keys(s)[i] == a && Keys(s)[j] == b
  {
    var keys := Keys(s);
    i :| 0 <= i < |keys| && keys[i] == a;
    j :| 0 <= j < |keys| && keys[j] == b;
    StratumPreorder();
    SortSorts(StrataOf(s), StratumLeq);
    StratumOrder(a, b, b);
    StratumOrder(b, a, a);
  }

  /** The extra picks of a turn that is cut short go to the strata that come first: one that got less than a later
      one is exhausted. */
  lemma SpreadServesInOrder(signals: seq<WedgeSignal>, wanted: int, a: Stratum, b: Stratum)
    requires a != b && Precedes(a, b)
    requires |OfStratum(Spread(signals, wanted), a)| < |OfStratum(Spread(signals, wanted), b)|
    ensures OfStratum(Spread(signals, wanted), a) == OfStratum(Ordered(signals), a)
  {
    OrderedQueues(signals);
    var ordered := Ordered(signals);
    var keys := Keys(ordered);
    var queues := QueuesOf(ordered, keys);
    KeysAreListedOnce(ordered);
    DealTakesFronts(queues, keys, NotNegative(wanted));
    var (picked, left) := Deal(queues, NotNegative(wanted));
    SpreadTakesBest(signals, wanted, a);
    SpreadTakesBest(signals, wanted, b);
    if a in keys {
      var i, j := KeysInOrder(ordered, a, b);
      DealServesInOrder(queues, queues, 0, NotNegative(wanted));
      assert TakenFromFront(queues[i], keys[i], picked, left[i]) && TakenFromFront(queues[j], keys[j], picked, left[j]);
      assert Given(queues, left, i) >= Min(|queues[i]|, Given(queues, left, j));
    }
  }

  lemma SpreadSelects(signals: seq<WedgeSignal>, wanted: int)
    ensures multiset(Spread(signals, wanted)) <= multiset(signals)
  {
    var picked := Spread(signals, wanted);
    OrderedKeeps(signals);
    forall x ensures multiset(picked)[x] <= multiset(signals)[x] {
      var k := StratumOf(x);
      SpreadTakesBest(signals, wanted, k);
      OfStratumCounts(picked, x);
      OfStratumCounts(Ordered(signals), x);
      PrefixCounts(OfStratum(picked, k), OfStratum(Ordered(signals), k), x);
    }
  }

  lemma PrefixCounts(a: seq<WedgeSignal>, b: seq<WedgeSignal>, x: WedgeSignal)
    requires a <= b
    ensures multiset(a)[x] <= multiset(b)[x]
  {
    assert b == a + b[|a|..];
    assert multiset(b) == multiset(a) + multiset(b[|a|..]);
  }

  lemma SpreadIgnoresAcquisition(a: seq<WedgeSignal>, b: seq<WedgeSignal>, wanted: int)
    requires DistinctIds(a) && multiset(a) == multiset(b)
    ensures Spread(a, wanted) == Spread(b, wanted)
  {
    OrderedIgnoresAcquisition(a, b);
  }

  // ---------- the spreading loops ----------

  function Buckets(buckets: map<Stratum, Queue>, keys: seq<Stratum>): seq<Queue>
    requires forall k :: k in keys ==> k in buckets
  {
    seq(|keys|, i requires 0 <= i < |keys| => buckets[keys[i]])
  }

  /** The inner loop: one turn over the strata in key order. */
  method TakeTurn(before: map<Stratum, Queue>, keys: seq<Stratum>, wanted: nat)
    returns (picked: seq<WedgeSignal>, buckets: map<Stratum, Queue>)
    requires NoDuplicates(keys) && forall k :: k in keys ==> k in before
    ensures buckets.Keys == before.Keys
    ensures (picked, Buckets(buckets, keys)) == Turn(Buckets(before, keys), wanted)
  {
    picked, buckets := [], before;
    assert keys[0..] == keys && Buckets(buckets, keys[..0]) == [];
    assert [] + Turn(Buckets(before, keys), wanted).0 == Turn(Buckets(before, keys), wanted).0;
    assert [] + Turn(Buckets(before, keys), wanted).1 == Turn(Buckets(before, keys), wanted).1;
    for j := 0 to |keys|
      invariant buckets.Keys == before.Keys && |picked| <= wanted
      invariant forall i :: j <= i < |keys| ==> buckets[keys[i]] == before[keys[i]]
      invariant Turned(before, keys, wanted, picked, buckets, j)
    {
      if |picked| >= wanted {
        TurnIsOver(before, keys, wanted, picked, buckets, j);
        return;
      }
      var key := keys[j];
      TurnGoesOn(before, keys, wanted, picked, buckets, j);
      if buckets[key] != [] {
        picked, buckets := picked + [buckets[key][0]], buckets[key := buckets[key][1..]];
      }
    }
    TurnIsOver(before, keys, wanted, picked, buckets, |keys|);
  }

  /** After the first `j` strata, the turn is what has been done and what remains. */
  ghost predicate Turned(before: map<Stratum, Queue>, keys: seq<Stratum>, wanted: nat,
                         picked: seq<WedgeSignal>, buckets: map<Stratum, Queue>, j: nat)
    requires (forall k :: k in keys ==> k in before) && buckets.Keys == before.Keys && |picked| <= wanted && j <= |keys|
  {
    var rest := Turn(Buckets(before, keys[j..]), wanted - |picked|);
    Turn(Buckets(before, keys), wanted) == (picked + rest.0, Buckets(buckets, keys[..j]) + rest.1)
  }

  lemma TurnIsOver(before: map<Stratum, Queue>, keys: seq<Stratum>, wanted: nat,
                   picked: seq<WedgeSignal>, buckets: map<Stratum, Queue>, j: nat)
    requires (forall k :: k in keys ==> k in before) && buckets.Keys == before.Keys && |picked| <= wanted && j <= |keys|
    requires Turned(before, keys, wanted, picked, buckets, j) && (j == |keys| || |picked| == wanted)
    requires forall i :: j <= i < |keys| ==> buckets[keys[i]] == before[keys[i]]
    ensures (picked, Buckets(buckets, keys)) == Turn(Buckets(before, keys), wanted)
  {
    assert Buckets(buckets, keys) == Buckets(buckets, keys[..j]) + Buckets(before, keys[j..]);
    assert picked + [] == picked;
  }

  lemma TurnGoesOn(before: map<Stratum, Queue>, keys: seq<Stratum>, wanted: nat,
                   picked: seq<WedgeSignal>, buckets: map<Stratum, Queue>, j: nat)
    requires NoDuplicates(keys) && forall k :: k in keys ==> k in before
    requires buckets.Keys == before.Keys && |picked| < wanted && j < |keys|
    requires Turned(before, keys, wanted, picked, buckets, j)
    requires forall i :: j <= i < |keys| ==> buckets[keys[i]] == before[keys[i]]
    ensures buckets[keys[j]] == [] ==> Turned(before, keys, wanted, picked, buckets, j + 1)
    ensures buckets[keys[j]] != [] ==>
      Turned(before, keys, wanted, picked + [buckets[keys[j]][0]], buckets[keys[j] := buckets[keys[j]][1..]], j + 1)
  {
    var q := buckets[keys[j]];
    var queues := Buckets(before, keys[j..]);
    assert queues[0] == q && queues[1..] == Buckets(before, keys[j + 1..]);
    if q == [] {
      assert Buckets(buckets, keys[..j + 1]) == Buckets(buckets, keys[..j]) + [q];
      var rest := Turn(queues[1..], wanted - |picked|);
      assert Buckets(buckets, keys[..j]) + ([q] + rest.1) == Buckets(buckets, keys[..j + 1]) + rest.1;
    } else {
      var after := buckets[keys[j] := q[1..]];
      assert Buckets(after, keys[..j + 1]) == Buckets(buckets, keys[..j]) + [q[1..]];
      var rest := Turn(queues[1..], wanted - |picked| - 1);
      assert picked + ([q[0]] + rest.0) == picked + [q[0]] + rest.0;
      assert Buckets(buckets, keys[..j]) + ([q[1..]] + rest.1) == Buckets(after, keys[..j + 1]) + rest.1;
    }
  }

  ghost predicate FiledUpTo(buckets: map<Stratum, Queue>, order: seq<Stratum>, s: seq<WedgeSignal>) {
    && order == StrataOf(s) && (forall k :: k in buckets <==> k in order)
    && forall k :: k in buckets ==> buckets[k] == OfStratum(s, k)
  }

  lemma FileOneMore(buckets: map<Stratum, Queue>, order: seq<Stratum>, s: seq<WedgeSignal>, x: WedgeSignal)
    requires FiledUpTo(buckets, order, s)
    ensures var k := StratumOf(x);
      if k in buckets then FiledUpTo(buckets[k := buckets[k] + [x]], order, s + [x])
      else FiledUpTo(buckets[k := [x]], order + [k], s + [x])
  {
    assert (s + [x])[..|s|] == s;
    StrataAreListedOnce(s);
  }

  method SpreadSignals(signals: seq<WedgeSignal>, wanted: int) returns (picked: seq<WedgeSignal>)
    ensures picked == Spread(signals, wanted)
  {
    var ordered := Ordered(signals);
    var buckets, order := FillBuckets(ordered);
    var keys := Sort(order, StratumLeq);
    KeysAreListedOnce(ordered);
    SortKeeps(order, StratumLeq);
    assert Buckets(buckets, keys) == QueuesOf(ordered, keys);
    picked := DealOut(buckets, keys, NotNegative(wanted));
  }

  method FillBuckets(ordered: seq<WedgeSignal>) returns (buckets: map<Stratum, Queue>, order: seq<Stratum>)
    ensures FiledUpTo(buckets, order, ordered)
  {
    buckets, order := map[], [];
    for i := 0 to |ordered|
      invariant FiledUpTo(buckets, order, ordered[..i])
    {
      var signal := ordered[i];
      var k := StratumOf(signal);
      assert ordered[..i + 1] == ordered[..i] + [signal];
      FileOneMore(buckets, order, ordered[..i], signal);
      if k !in buckets { order := order + [k]; }
      buckets := buckets[k := (if k in buckets then buckets[k] else []) + [signal]];
    }
    assert ordered[..|ordered|] == ordered;
  }

  /** The outer loop. */
  method DealOut(before: map<Stratum, Queue>, keys: seq<Stratum>, wanted: nat) returns (picked: seq<WedgeSignal>)
    requires NoDuplicates(keys) && forall k :: k in keys ==> k in before
    ensures picked == Deal(Buckets(before, keys), wanted).0
  {
    picked := [];
    var buckets := before;
    while |picked| < wanted && !AllEmpty(Buckets(buckets, keys))
      invariant buckets.Keys == before.Keys && |picked| <= wanted
      invariant Dealt(Buckets(before, keys), wanted, picked, Buckets(buckets, keys))
      decreases wanted - |picked|
    {
      var more, left := TakeTurn(buckets, keys, wanted - |picked|);
      DealtOneTurn(Buckets(before, keys), wanted, picked, Buckets(buckets, keys), more, Buckets(left, keys));
      picked, buckets := picked + more, left;
    }
    assert picked + [] == picked;
  }

  /** Dealing is what has been picked and what dealing the queues left now would pick. */
  ghost predicate Dealt(queues: seq<Queue>, wanted: nat, picked: seq<WedgeSignal>, left: seq<Queue>)
    requires |picked| <= wanted
  {
    Deal(queues, wanted).0 == picked + Deal(left, wanted - |picked|).0
  }

  lemma DealtOneTurn(queues: seq<Queue>, wanted: nat, picked: seq<WedgeSignal>, before: seq<Queue>,
                     more: seq<WedgeSignal>, after: seq<Queue>)
    requires |picked| < wanted && !AllEmpty(before) && Dealt(queues, wanted, picked, before)
    requires Turn(before, wanted - |picked|) == (more, after)
    ensures more != [] && |picked| + |more| <= wanted && Dealt(queues, wanted, picked + more, after)
  {
    DealOneTurn(before, wanted - |picked|, (more, after));
    var rest := Deal(after, wanted - |picked| - |more|).0;
    assert picked + (more + rest) == picked + more + rest;
  }

  // ---------- the bench ----------

  function MiddleQuota(target: int): int {
    target - 2 * (target / 3)
  }

  function ZonePicks(capped: seq<WedgeSignal>, target: int): seq<WedgeSignal> {
    var zones := ThirdsOf(capped);
    Spread(zones.top, target / 3) + Spread(zones.middle, MiddleQuota(target)) + Spread(zones.bottom, target / 3)
  }

  function IdsOf(s: seq<WedgeSignal>): set<string> {
    set x | x in s :: x.id
  }

  function NotChosen(s: seq<WedgeSignal>, chosen: set<string>): seq<WedgeSignal> {
    if s == [] then []
    else (if s[0].id in chosen then [] else [s[0]]) + NotChosen(s[1..], chosen)
  }

  function Completed(capped: seq<WedgeSignal>, picked: seq<WedgeSignal>, target: int): seq<WedgeSignal> {
    if |picked| < target then picked + Spread(NotChosen(capped, IdsOf(picked)), target - |picked|) else picked
  }

  function Bench(signals: seq<WedgeSignal>, target: int): seq<WedgeSignal> {
    var capped := Capped(signals, MAX_AWARD_LOTS_PER_NOTICE);
    if |capped| <= target then Sort(capped, IdLeq)
    else Sort(Completed(capped, ZonePicks(capped, target), target), IdLeq)
  }

  method SelectBenchmark(signals: seq<WedgeSignal>, target: int) returns (bench: seq<WedgeSignal>)
    ensures bench == Bench(signals, target)
  {
    var capped := CapPerNotice(signals, MAX_AWARD_LOTS_PER_NOTICE);
    if |capped| <= target { return Sort(capped, IdLeq); }
    var picked := PickZones(capped, target);
    picked := Complete(capped, picked, target);
    bench := Sort(picked, IdLeq);
  }

  method Complete(capped: seq<WedgeSignal>, picked0: seq<WedgeSignal>, target: int) returns (picked: seq<WedgeSignal>)
    ensures picked == Completed(capped, picked0, target)
  {
    picked := picked0;
    if |picked| < target {
      var rest := SpreadSignals(NotChosen(capped, IdsOf(picked)), target - |picked|);
      picked := picked + rest;
    }
  }

  method PickZones(capped: seq<WedgeSignal>, target: int) returns (picked: seq<WedgeSignal>)
    ensures picked == ZonePicks(capped, target)
  {
    var zones := ThirdsOf(capped);
    picked := SpreadSignals(zones.top, target / 3);
    var middle := SpreadSignals(zones.middle, MiddleQuota(target));
    picked := picked + middle;
    var bottom := SpreadSignals(zones.bottom, target / 3);
    picked := picked + bottom;
  }

  lemma ZonePicksSelect(capped: seq<WedgeSignal>, target: int)
    ensures multiset(ZonePicks(capped, target)) <= multiset(capped)
    ensures var zones := ThirdsOf(capped);
      |ZonePicks(capped, target)| == Min(NotNegative(target / 3), |zones.top|)
        + Min(NotNegative(MiddleQuota(target)), |zones.middle|) + Min(NotNegative(target / 3), |zones.bottom|)
  {
    var zones := ThirdsOf(capped);
    ThirdsPartition(capped);
    SpreadCount(zones.top, target / 3);
    SpreadCount(zones.middle, MiddleQuota(target));
    SpreadCount(zones.bottom, target / 3);
    SpreadSelects(zones.top, target / 3);
    SpreadSelects(zones.middle, MiddleQuota(target));
    SpreadSelects(zones.bottom, target / 3);
  }

  lemma {:induction false} NotChosenSelects(s: seq<WedgeSignal>, chosen: set<string>, x: WedgeSignal)
    ensures multiset(NotChosen(s, chosen))[x] == if x.id in chosen then 0 else multiset(s)[x]
  {
    if s != [] {
      assert s == [s[0]] + s[1..];
      NotChosenSelects(s[1..], chosen, x);
    }
  }

  /** With distinct ids, what is not chosen by id is exactly what is not picked. */
  lemma NotChosenIsTheRest(capped: seq<WedgeSignal>, picked: seq<WedgeSignal>)
    requires DistinctIds(capped) && multiset(picked) <= multiset(capped)
    ensures multiset(NotChosen(capped, IdsOf(picked))) + multiset(picked) == multiset(capped)
    ensures |NotChosen(capped, IdsOf(picked))| + |picked| == |capped|
  {
    DistinctIdsSeparate(capped);
    NoDuplicatesCounts(capped);
    var rest := NotChosen(capped, IdsOf(picked));
    forall x ensures multiset(rest)[x] + multiset(picked)[x] == multiset(capped)[x] {
      NotChosenSelects(capped, IdsOf(picked), x);
      PickedById(capped, picked, x);
    }
    assert multiset(rest) + multiset(picked) == multiset(capped);
    assert |multiset(rest)| + |multiset(picked)| == |multiset(capped)|;
  }

  lemma PickedById(capped: seq<WedgeSignal>, picked: seq<WedgeSignal>, x: WedgeSignal)
    requires DistinctIds(capped) && multiset(picked) <= multiset(capped)
    requires forall y :: multiset(capped)[y] == if y in capped then 1 else 0
    ensures if x.id in IdsOf(picked) then multiset(picked)[x] == multiset(capped)[x] else multiset(picked)[x] == 0
  {
    DistinctIdsSeparate(capped);
    if x.id in IdsOf(picked) {
      var y :| y in picked && y.id == x.id;
      assert y in multiset(picked) && multiset(picked)[y] <= multiset(capped)[y];
      assert y in capped;
      if x in capped { assert x == y; }
      assert multiset(picked)[x] <= multiset(capped)[x];
    } else {
      assert multiset(picked)[x] > 0 ==> x in picked;
    }
  }

  lemma AddedFromTheRest(capped: seq<WedgeSignal>, picked: seq<WedgeSignal>, rest: seq<WedgeSignal>, more: seq<WedgeSignal>)
    requires multiset(rest) + multiset(picked) == multiset(capped) && multiset(more) <= multiset(rest)
    ensures multiset(picked + more) <= multiset(capped)
  {
    assert multiset(picked + more) == multiset(picked) + multiset(more);
  }

  /** The completion takes what is missing from what was not picked. */
  lemma CompletionSelects(capped: seq<WedgeSignal>, picked: seq<WedgeSignal>, target: int)
    requires DistinctIds(capped) && |capped| > target > |picked| && multiset(picked) <= multiset(capped)
    ensures multiset(Completed(capped, picked, target)) <= multiset(capped)
    ensures |Completed(capped, picked, target)| == target
  {
    var rest := NotChosen(capped, IdsOf(picked));
    var more := Spread(rest, target - |picked|);
    NotChosenIsTheRest(capped, picked);
    SpreadCount(rest, target - |picked|);
    SpreadSelects(rest, target - |picked|);
    AddedFromTheRest(capped, picked, rest, more);
  }

  lemma CompletedSelects(capped: seq<WedgeSignal>, target: int)
    requires DistinctIds(capped) && |capped| > target
    ensures multiset(Completed(capped, ZonePicks(capped, target), target)) <= multiset(capped)
    ensures target >= 0 ==> |Completed(capped, ZonePicks(capped, target), target)| == target
  {
    var picked := ZonePicks(capped, target);
    ZonePicksSelect(capped, target);
    if |picked| < target { CompletionSelects(capped, picked, target); }
  }

  lemma SortedById(s: seq<WedgeSignal>)
    ensures multiset(Sort(s, IdLeq)) == multiset(s) && |Sort(s, IdLeq)| == |s|
  {
    SortKeeps(s, IdLeq);
  }

  lemma CappedKeepsIds(signals: seq<WedgeSignal>, cap: int)
    requires DistinctIds(signals)
    ensures DistinctIds(Capped(signals, cap)) && multiset(Capped(signals, cap)) <= multiset(signals)
  {
    OrderedKeeps(signals);
    KeepStaysDistinct(Ordered(signals), cap, multiset{});
    KeepSelects(Ordered(signals), cap, multiset{});
  }

  /** How many signals a target picks from a capped feed. Nothing rules out a negative target, and its quotas of
      -1, 1 and -1 let a target of -1 pick one; every other negative target picks none. */
  function SizeFor(target: int, capped: nat): nat {
    if target >= 0 then Min(target, capped) else if target == -1 && capped >= 2 then 1 else 0
  }

  /** The bench has exactly that size, in distinct signals of the capped feed. */
  lemma BenchHasExactlyTheTarget(signals: seq<WedgeSignal>, target: int)
    requires DistinctIds(signals)
    ensures var capped := Capped(signals, MAX_AWARD_LOTS_PER_NOTICE);
      && |Bench(signals, target)| == SizeFor(target, |capped|)
      && multiset(Bench(signals, target)) <= multiset(capped) <= multiset(signals)
      && NoDuplicates(Bench(signals, target))
  {
    var capped := Capped(signals, MAX_AWARD_LOTS_PER_NOTICE);
    CappedKeepsIds(signals, MAX_AWARD_LOTS_PER_NOTICE);
    BenchSelects(signals, target);
    if target < 0 { NegativeTargetPicks(signals, target); }
    DistinctIdsSeparate(capped);
    NoDuplicatesCounts(capped);
    forall x | x in Bench(signals, target) ensures multiset(Bench(signals, target))[x] <= 1 {
      assert multiset(Bench(signals, target))[x] <= multiset(capped)[x];
    }
    CountsNoDuplicates(Bench(signals, target));
  }

  lemma BenchSelects(signals: seq<WedgeSignal>, target: int)
    requires DistinctIds(signals)
    ensures var capped := Capped(signals, MAX_AWARD_LOTS_PER_NOTICE);
      && multiset(Bench(signals, target)) <= multiset(capped)
      && (target >= 0 ==> |Bench(signals, target)| == Min(target, |capped|))
  {
    var capped := Capped(signals, MAX_AWARD_LOTS_PER_NOTICE);
    CappedKeepsIds(signals, MAX_AWARD_LOTS_PER_NOTICE);
    if |capped| <= target {
      SortedById(capped);
    } else {
      CompletedSelects(capped, target);
      SortedById(Completed(capped, ZonePicks(capped, target), target));
    }
  }

  /** No notice has more than two signals on the bench. */
  lemma BenchTakesTwoPerNotice(signals: seq<WedgeSignal>, target: int, n: Notice)
    requires DistinctIds(signals)
    ensures |Of(Bench(signals, target), n)| <= 2
  {
    BenchHasExactlyTheTarget(signals, target);
    TakenKeepsCap(signals, MAX_AWARD_LOTS_PER_NOTICE, Bench(signals, target), n);
  }

  /** The bench is listed by id. */
  lemma BenchIsInIdOrder(signals: seq<WedgeSignal>, target: int)
    ensures InIdOrder(Bench(signals, target))
  {
    var capped := Capped(signals, MAX_AWARD_LOTS_PER_NOTICE);
    SortedInIdOrder(capped);
    SortedInIdOrder(Completed(capped, ZonePicks(capped, target), target));
  }

  lemma NegativeTargetPicks(signals: seq<WedgeSignal>, target: int)
    requires target < 0
    ensures |Bench(signals, target)| == if target == -1 && |Capped(signals, MAX_AWARD_LOTS_PER_NOTICE)| >= 2 then 1 else 0
  {
    var capped := Capped(signals, MAX_AWARD_LOTS_PER_NOTICE);
    ZonePicksSelect(capped, target);
    ThirdsPartition(capped);
    SortedById(ZonePicks(capped, target));
  }

  lemma QuotaArithmetic(n: nat, target: nat, q: nat, top: nat, middle: nat, bottom: nat)
    requires n > target && q == target / 3
    requires top == n / 3 && middle == 2 * n / 3 - n / 3 && bottom == n - 2 * n / 3
    ensures q <= top && q <= bottom
    ensures target - 2 * q <= middle <==> !(target % 3 == 2 && n <= target + 2)
  {
    var a, r := n / 3, n % 3;
    assert n == 3 * a + r && target == 3 * q + target % 3;
    assert 2 * n / 3 == 2 * a + 2 * r / 3;
  }

  /** When no zone falls short of its quota: always, except just above a target that leaves remainder two. */
  lemma ZonesMeetQuotas(capped: seq<WedgeSignal>, target: nat)
    requires |capped| > target
    ensures |ZonePicks(capped, target)| == target <==> !(target % 3 == 2 && |capped| <= target + 2)
    ensures !(target % 3 == 2 && |capped| <= target + 2) ==>
      target / 3 <= |ThirdsOf(capped).top| && MiddleQuota(target) <= |ThirdsOf(capped).middle|
      && target / 3 <= |ThirdsOf(capped).bottom|
  {
    var zones := ThirdsOf(capped);
    ZonePicksSelect(capped, target);
    ThirdsPartition(capped);
    QuotaArithmetic(|capped|, target, target / 3, |zones.top|, |zones.middle|, |zones.bottom|);
  }

  /** With the usual target of one hundred the zones give exactly 33, 34 and 33, and nothing is completed. */
  lemma HundredIsBalanced(signals: seq<WedgeSignal>)
    requires |Capped(signals, MAX_AWARD_LOTS_PER_NOTICE)| > 100
    ensures var capped := Capped(signals, MAX_AWARD_LOTS_PER_NOTICE); var zones := ThirdsOf(capped);
      && Bench(signals, 100) == Sort(Spread(zones.top, 33) + Spread(zones.middle, 34) + Spread(zones.bottom, 33), IdLeq)
      && |Spread(zones.top, 33)| == 33 && |Spread(zones.middle, 34)| == 34 && |Spread(zones.bottom, 33)| == 33
  {
    var capped := Capped(signals, MAX_AWARD_LOTS_PER_NOTICE);
    var zones := ThirdsOf(capped);
    ZonesMeetQuotas(capped, 100);
    SpreadCount(zones.top, 33);
    SpreadCount(zones.middle, 34);
    SpreadCount(zones.bottom, 33);
  }

  /** The bench does not depend on the order in which the feed was acquired. */
  lemma BenchIgnoresAcquisition(a: seq<WedgeSignal>, b: seq<WedgeSignal>, target: int)
    requires DistinctIds(a) && multiset(a) == multiset(b)
    ensures Bench(a, target) == Bench(b, target)
  {
    CapIgnoresAcquisition(a, b, MAX_AWARD_LOTS_PER_NOTICE);
  }
}
