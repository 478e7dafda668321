/** Ranking by (score descending, signal id) and the cap on award lots per notice, which three selections of
    the repository share. The cap is proved to keep exactly the best entries of each notice, and to be the
    best choice among all that obey it. */
module NoticeCap {
  import opened Ordering

  datatype Notice = Notice(source: string, notice: string)

  /** What every ranked signal has; `detail` is what the single selections add. */
  datatype Ranked<D> = Ranked(id: string, notice: Notice, score: int, detail: D)

  predicate RankLeq<D>(a: Ranked<D>, b: Ranked<D>) {
    a.score > b.score || (a.score == b.score && StringLeq(a.id, b.id))
  }

  lemma RankOrder<D(!new)>()
    ensures IsPreorder<Ranked<D>>(RankLeq)
  {
    forall x: Ranked<D>, y: Ranked<D> ensures RankLeq(x, y) || RankLeq(y, x) {
      StringLeqTotal(x.id, y.id);
    }
    forall x: Ranked<D>, y: Ranked<D>, z: Ranked<D> | RankLeq(x, y) && RankLeq(y, z) ensures RankLeq(x, z) {
      if x.score == z.score { StringLeqTransitive(x.id, y.id, z.id); }
    }
  }

  predicate IdLeq<D>(a: Ranked<D>, b: Ranked<D>) {
    StringLeq(a.id, b.id)
  }

  ghost predicate DistinctIds<D>(s: seq<Ranked<D>>) {
    forall i, j :: 0 <= i < j < |s| ==> s[i].id != s[j].id
  }

  lemma DistinctIdsSeparate<D(!new)>(s: seq<Ranked<D>>)
    requires DistinctIds(s)
    ensures Separates(s, RankLeq) && NoDuplicates(s)
    ensures forall x, y :: x in s && y in s && x.id == y.id ==> x == y
  {
    forall x, y | x in s && y in s && RankLeq(x, y) && RankLeq(y, x) ensures x == y {
      StringLeqAntisymmetric(x.id, y.id);
    }
  }

  lemma DistinctIdsPermute<D(!new)>(a: seq<Ranked<D>>, b: seq<Ranked<D>>)
    requires DistinctIds(a) && multiset(a) == multiset(b)
    ensures DistinctIds(b)
  {
    DistinctIdsSeparate(a);
    SameMultisetNoDuplicates(a, b);
    SameMultisetSameElements(a, b);
  }

  function Ordered<D>(s: seq<Ranked<D>>): seq<Ranked<D>> {
    Sort(s, RankLeq)
  }

  /** Signals with distinct ids are ordered in one way, however they were acquired. */
  lemma OrderedIgnoresAcquisition<D(!new)>(a: seq<Ranked<D>>, b: seq<Ranked<D>>)
    requires DistinctIds(a) && multiset(a) == multiset(b)
    ensures Ordered(a) == Ordered(b)
  {
    RankOrder<D>();
    DistinctIdsSeparate(a);
    SortIgnoresArrival(a, b, RankLeq);
  }

  lemma OrderedKeeps<D(!new)>(s: seq<Ranked<D>>)
    ensures multiset(Ordered(s)) == multiset(s) && |Ordered(s)| == |s| && Sorted(Ordered(s), RankLeq)
    ensures forall x :: x in Ordered(s) <==> x in s
    ensures DistinctIds(s) ==> DistinctIds(Ordered(s))
  {
    RankOrder<D>();
    SortSorts(s, RankLeq);
    if DistinctIds(s) {
      SortKeeps(s, RankLeq);
      DistinctIdsPermute(s, Ordered(s));
    }
    SortKeeps(s, RankLeq);
    forall x ensures x in Ordered(s) <==> x in s {
      assert x in Ordered(s) <==> x in multiset(Ordered(s));
      assert x in s <==> x in multiset(s);
    }
  }

  /** Greater scores come first, and of equal scores the smaller id. */
  lemma OrderedByScoreThenId<D(!new)>(s: seq<Ranked<D>>, i: nat, j: nat)
    requires i < j < |Ordered(s)|
    ensures var (a, b) := (Ordered(s)[i], Ordered(s)[j]);
      a.score > b.score || (a.score == b.score && StringLeq(a.id, b.id))
  {
    OrderedKeeps(s);
  }

  lemma IdOrder<D(!new)>()
    ensures IsPreorder<Ranked<D>>(IdLeq)
  {
    forall x: Ranked<D>, y: Ranked<D> ensures IdLeq(x, y) || IdLeq(y, x) {
      StringLeqTotal(x.id, y.id);
    }
    forall x: Ranked<D>, y: Ranked<D>, z: Ranked<D> | IdLeq(x, y) && IdLeq(y, z) ensures IdLeq(x, z) {
      StringLeqTransitive(x.id, y.id, z.id);
    }
  }

  ghost predicate InIdOrder<D>(s: seq<Ranked<D>>) {
    forall i, j :: 0 <= i < j < |s| ==> StringLeq(s[i].id, s[j].id)
  }

  lemma SortedInIdOrder<D(!new)>(s: seq<Ranked<D>>)
    ensures InIdOrder(Sort(s, IdLeq)) && multiset(Sort(s, IdLeq)) == multiset(s)
  {
    IdOrder<D>();
    SortSorts(s, IdLeq);
    SortKeeps(s, IdLeq);
  }

  // ---------- the cap ----------

  /** In ranked order, an entry is kept while its notice has been taken fewer than `cap` times. */
  function Keep<D>(s: seq<Ranked<D>>, cap: int, taken: multiset<Notice>): seq<Ranked<D>> {
    if s == [] then []
    else if taken[s[0].notice] >= cap then Keep(s[1..], cap, taken)
    else [s[0]] + Keep(s[1..], cap, taken + multiset{s[0].notice})
  }

  function Capped<D>(entries: seq<Ranked<D>>, cap: int): seq<Ranked<D>> {
    Keep(Ordered(entries), cap, multiset{})
  }

  method CapPerNotice<D>(entries: seq<Ranked<D>>, cap: int) returns (kept: seq<Ranked<D>>)
    ensures kept == Capped(entries, cap)
  {
    kept := [];
    var seen: multiset<Notice> := multiset{};
    var ordered := Ordered(entries);
    for i := 0 to |ordered|
      invariant Capped(entries, cap) == kept + Keep(ordered[i..], cap, seen)
    {
      var entry := ordered[i];
      assert ordered[i..][1..] == ordered[i + 1..];
      if seen[entry.notice] >= cap { continue; }
      seen := seen + multiset{entry.notice};
      assert kept + ([entry] + Keep(ordered[i + 1..], cap, seen)) == kept + [entry] + Keep(ordered[i + 1..], cap, seen);
      kept := kept + [entry];
    }
  }

  /** The entries of one notice, in the order they have. */
  function Of<D>(s: seq<Ranked<D>>, n: Notice): seq<Ranked<D>> {
    if s == [] then [] else (if s[0].notice == n then [s[0]] else []) + Of(s[1..], n)
  }

  function Take<T>(s: seq<T>, n: int): seq<T> {
    if n <= 0 then [] else if n < |s| then s[..n] else s
  }

  lemma OfCons<D>(h: Ranked<D>, rest: seq<Ranked<D>>, n: Notice)
    ensures Of([h] + rest, n) == (if h.notice == n then [h] else []) + Of(rest, n)
  {
    assert ([h] + rest)[1..] == rest;
  }

  lemma TakeCons<T>(h: T, rest: seq<T>, n: int)
    requires n > 0
    ensures Take([h] + rest, n) == [h] + Take(rest, n - 1)
  {
  }

  lemma {:induction false} KeepTakesFirst<D>(s: seq<Ranked<D>>, cap: int, taken: multiset<Notice>, n: Notice)
    ensures Of(Keep(s, cap, taken), n) == Take(Of(s, n), cap - taken[n])
  {
    if s != [] {
      var h, rest := s[0], s[1..];
      if taken[h.notice] >= cap {
        KeepTakesFirst(rest, cap, taken, n);
      } else {
        var kept := Keep(rest, cap, taken + multiset{h.notice});
        KeepTakesFirst(rest, cap, taken + multiset{h.notice}, n);
        OfCons(h, kept, n);
        if h.notice == n { TakeCons(h, Of(rest, n), cap - taken[n]); }
      }
    }
  }

  /** What is kept of each notice is exactly its best `cap` entries, or all if it has fewer. */
  lemma CapKeepsTheBestOfEachNotice<D>(entries: seq<Ranked<D>>, cap: int, n: Notice)
    ensures Of(Capped(entries, cap), n) == Take(Of(Ordered(entries), n), cap)
  {
    KeepTakesFirst(Ordered(entries), cap, multiset{}, n);
  }

  lemma {:induction false} OfSelects<D>(s: seq<Ranked<D>>, n: Notice)
    ensures forall x :: multiset(Of(s, n))[x] == if x.notice == n then multiset(s)[x] else 0
  {
    if s != [] {
      assert s == [s[0]] + s[1..];
      OfSelects(s[1..], n);
    }
  }

  lemma NoMoreInAll<T>(a: multiset<T>, b: multiset<T>)
    requires a <= b
    ensures |a| <= |b|
  {
    assert b == a + (b - a);
  }

  lemma NoMoreOfNotice<D(!new)>(a: seq<Ranked<D>>, b: seq<Ranked<D>>, n: Notice)
    requires multiset(a) <= multiset(b)
    ensures |Of(a, n)| <= |Of(b, n)|
  {
    OfSelects(a, n);
    OfSelects(b, n);
    forall x ensures multiset(Of(a, n))[x] <= multiset(Of(b, n))[x] {
      assert multiset(a)[x] <= multiset(b)[x];
    }
    NoMoreInAll(multiset(Of(a, n)), multiset(Of(b, n)));
  }

  /** Whatever is taken of a capped feed has no more than `cap` entries of one notice. */
  lemma TakenKeepsCap<D(!new)>(entries: seq<Ranked<D>>, cap: nat, taken: seq<Ranked<D>>, n: Notice)
    requires multiset(taken) <= multiset(Capped(entries, cap))
    ensures |Of(taken, n)| <= cap
  {
    CapKeepsTheBestOfEachNotice(entries, cap, n);
    NoMoreOfNotice(taken, Capped(entries, cap), n);
  }

  lemma {:induction false} KeepSelects<D>(s: seq<Ranked<D>>, cap: int, taken: multiset<Notice>)
    ensures multiset(Keep(s, cap, taken)) <= multiset(s)
  {
    if s != [] {
      var h, rest := s[0], s[1..];
      assert s == [h] + rest;
      if taken[h.notice] >= cap {
        KeepSelects(rest, cap, taken);
      } else {
        KeepSelects(rest, cap, taken + multiset{h.notice});
        assert multiset([h] + Keep(rest, cap, taken + multiset{h.notice}))
          == multiset{h} + multiset(Keep(rest, cap, taken + multiset{h.notice}));
      }
    }
  }

  lemma {:induction false} KeepMembers<D>(s: seq<Ranked<D>>, cap: int, taken: multiset<Notice>)
    ensures forall x :: x in Keep(s, cap, taken) ==> x in s
    ensures |Keep(s, cap, taken)| <= |s|
  {
    if s != [] {
      KeepMembers(s[1..], cap, if taken[s[0].notice] >= cap then taken else taken + multiset{s[0].notice});
    }
  }

  lemma {:induction false} KeepStaysSorted<D(!new)>(s: seq<Ranked<D>>, cap: int, taken: multiset<Notice>)
    requires Sorted(s, RankLeq)
    ensures Sorted(Keep(s, cap, taken), RankLeq)
  {
    if s != [] {
      var more := if taken[s[0].notice] >= cap then taken else taken + multiset{s[0].notice};
      KeepStaysSorted(s[1..], cap, more);
      KeepMembers(s[1..], cap, more);
      forall x | x in Keep(s[1..], cap, more) ensures RankLeq(s[0], x) {
        assert x in s[1..];
      }
    }
  }

  lemma {:induction false} KeepStaysDistinct<D>(s: seq<Ranked<D>>, cap: int, taken: multiset<Notice>)
    requires DistinctIds(s)
    ensures DistinctIds(Keep(s, cap, taken))
  {
    if s != [] {
      var more := if taken[s[0].notice] >= cap then taken else taken + multiset{s[0].notice};
      KeepStaysDistinct(s[1..], cap, more);
      KeepMembers(s[1..], cap, more);
      forall x | x in Keep(s[1..], cap, more) ensures s[0].id != x.id {
        assert x in s[1..];
      }
    }
  }

  lemma {:induction false} KeepAll<D>(s: seq<Ranked<D>>, cap: int, taken: multiset<Notice>)
    requires forall n :: |Of(s, n)| > 0 ==> taken[n] + |Of(s, n)| <= cap
    ensures Keep(s, cap, taken) == s
  {
    if s != [] {
      assert |Of(s, s[0].notice)| > 0;
      forall n | |Of(s[1..], n)| > 0 ensures (taken + multiset{s[0].notice})[n] + |Of(s[1..], n)| <= cap {
        assert |Of(s, n)| > 0;
      }
      KeepAll(s[1..], cap, taken + multiset{s[0].notice});
    }
  }

  /** Capping twice is capping once. */
  lemma CapIsIdempotent<D(!new)>(entries: seq<Ranked<D>>, cap: int)
    ensures Capped(Capped(entries, cap), cap) == Capped(entries, cap)
  {
    var kept := Capped(entries, cap);
    OrderedKeeps(entries);
    KeepStaysSorted(Ordered(entries), cap, multiset{});
    SortOfSorted(kept, RankLeq);
    forall n | |Of(kept, n)| > 0 ensures |Of(kept, n)| <= cap {
      CapKeepsTheBestOfEachNotice(entries, cap, n);
    }
    KeepAll(kept, cap, multiset{});
  }

  /** The order of acquisition does not decide what is kept. */
  lemma CapIgnoresAcquisition<D(!new)>(a: seq<Ranked<D>>, b: seq<Ranked<D>>, cap: int)
    requires DistinctIds(a) && multiset(a) == multiset(b)
    ensures Capped(a, cap) == Capped(b, cap)
  {
    OrderedIgnoresAcquisition(a, b);
  }

  // ---------- the kept entries have the greatest total score ----------

  ghost function Total<D>(m: multiset<Ranked<D>>): int
    decreases |m|
  {
    if m == multiset{} then 0 else
      var x :| x in m;
      x.score + Total(m - multiset{x})
  }

  lemma {:induction false} TotalPick<D(!new)>(m: multiset<Ranked<D>>, x: Ranked<D>)
    requires x in m
    ensures Total(m) == x.score + Total(m - multiset{x})
    decreases |m|
  {
    var p :| p in m && Total(m) == p.score + Total(m - multiset{p});
    if p != x {
      TotalPick(m - multiset{p}, x);
      TotalPick(m - multiset{x}, p);
      assert m - multiset{p} - multiset{x} == m - multiset{x} - multiset{p};
    }
  }

  ghost function Notices<D>(m: multiset<Ranked<D>>): multiset<Notice>
    decreases |m|
  {
    if m == multiset{} then multiset{} else
      var x :| x in m;
      multiset{x.notice} + Notices(m - multiset{x})
  }

  lemma {:induction false} NoticesPick<D(!new)>(m: multiset<Ranked<D>>, x: Ranked<D>)
    requires x in m
    ensures Notices(m) == multiset{x.notice} + Notices(m - multiset{x})
    decreases |m|
  {
    var p :| p in m && Notices(m) == multiset{p.notice} + Notices(m - multiset{p});
    if p != x {
      NoticesPick(m - multiset{p}, x);
      NoticesPick(m - multiset{x}, p);
      var both := m - multiset{p} - multiset{x};
      assert both == m - multiset{x} - multiset{p};
      SwapAdded(p.notice, x.notice, Notices(both));
    }
  }

  lemma SwapAdded(a: Notice, b: Notice, m: multiset<Notice>)
    ensures multiset{a} + (multiset{b} + m) == multiset{b} + (multiset{a} + m)
  {
  }

  lemma {:induction false} NoticeOfMember<D(!new)>(m: multiset<Ranked<D>>, n: Notice) returns (x: Ranked<D>)
    requires Notices(m)[n] > 0
    ensures x in m && x.notice == n
    decreases |m|
  {
    var p :| p in m && Notices(m) == multiset{p.notice} + Notices(m - multiset{p});
    if p.notice == n { x := p; } else { x := NoticeOfMember(m - multiset{p}, n); }
  }

  /** With `taken` already taken, `choice` exceeds no notice's cap. */
  ghost predicate Obeys<D(!new)>(choice: multiset<Ranked<D>>, cap: int, taken: multiset<Notice>) {
    forall n :: n in Notices(choice) ==> taken[n] + Notices(choice)[n] <= cap
  }

  /** Giving up one entry of a notice makes room for one. */
  lemma RoomForOne<D(!new)>(choice: multiset<Ranked<D>>, cap: int, taken: multiset<Notice>, x: Ranked<D>)
    requires Obeys(choice, cap, taken) && x in choice
    ensures Obeys(choice - multiset{x}, cap, taken + multiset{x.notice})
    ensures taken[x.notice] < cap
  {
    NoticesPick(choice, x);
  }

  /** A choice gives up nothing by leaving its place for the best entry: that entry itself, or one of the same
      notice, or none if the notice is not chosen at all. */
  lemma MakeRoom<D(!new)>(s: seq<Ranked<D>>, cap: int, taken: multiset<Notice>, choice: multiset<Ranked<D>>)
    returns (others: multiset<Ranked<D>>)
    requires s != [] && Sorted(s, RankLeq) && (forall x :: x in s ==> x.score >= 0)
    requires choice <= multiset(s) && Obeys(choice, cap, taken)
    ensures others <= multiset(s[1..]) && Obeys(others, cap, taken + multiset{s[0].notice})
    ensures Total(choice) <= s[0].score + Total(others)
  {
    var h, rest := s[0], s[1..];
    assert s == [h] + rest;
    assert multiset(s) == multiset{h} + multiset(rest);
    if h in choice {
      others := choice - multiset{h};
      RoomForOne(choice, cap, taken, h);
      TotalPick(choice, h);
    } else {
      assert choice <= multiset(rest);
      others := MakeRoomWithout(h, rest, cap, taken, choice);
    }
  }

  lemma MakeRoomWithout<D(!new)>(
    h: Ranked<D>, rest: seq<Ranked<D>>, cap: int, taken: multiset<Notice>, choice: multiset<Ranked<D>>)
    returns (others: multiset<Ranked<D>>)
    requires h.score >= 0 && forall x :: x in rest ==> RankLeq(h, x)
    requires choice <= multiset(rest) && Obeys(choice, cap, taken)
    ensures others <= multiset(rest) && Obeys(others, cap, taken + multiset{h.notice})
    ensures Total(choice) <= h.score + Total(others)
  {
    if h.notice in Notices(choice) {
      var x := NoticeOfMember(choice, h.notice);
      others := choice - multiset{x};
      RoomForOne(choice, cap, taken, x);
      TotalPick(choice, x);
      assert x in multiset(rest) && x in rest;
    } else {
      others := choice;
    }
  }

  lemma TotalOfHead<D(!new)>(h: Ranked<D>, rest: seq<Ranked<D>>)
    ensures Total(multiset([h] + rest)) == h.score + Total(multiset(rest))
  {
    assert multiset([h] + rest) - multiset{h} == multiset(rest);
    TotalPick(multiset([h] + rest), h);
  }

  lemma NoRoomForHead<D(!new)>(s: seq<Ranked<D>>, cap: int, taken: multiset<Notice>, choice: multiset<Ranked<D>>)
    requires s != [] && taken[s[0].notice] >= cap && choice <= multiset(s) && Obeys(choice, cap, taken)
    ensures choice <= multiset(s[1..])
  {
    assert s == [s[0]] + s[1..];
    assert multiset(s) == multiset{s[0]} + multiset(s[1..]);
    if s[0] in choice { RoomForOne(choice, cap, taken, s[0]); }
  }

  lemma {:induction false} KeepIsBest<D(!new)>(
    s: seq<Ranked<D>>, cap: int, taken: multiset<Notice>, choice: multiset<Ranked<D>>)
    requires Sorted(s, RankLeq) && (forall x :: x in s ==> x.score >= 0)
    requires choice <= multiset(s) && Obeys(choice, cap, taken)
    ensures Total(choice) <= Total(multiset(Keep(s, cap, taken)))
  {
    if s != [] {
      if taken[s[0].notice] >= cap {
        NoRoomForHead(s, cap, taken, choice);
        KeepIsBest(s[1..], cap, taken, choice);
      } else {
        var others := MakeRoom(s, cap, taken, choice);
        KeepIsBest(s[1..], cap, taken + multiset{s[0].notice}, others);
        TotalOfHead(s[0], Keep(s[1..], cap, taken + multiset{s[0].notice}));
      }
    }
  }

  /** No choice of entries that obeys the cap has a greater total score. */
  lemma CapIsBest<D(!new)>(entries: seq<Ranked<D>>, cap: int, choice: multiset<Ranked<D>>)
    requires forall x :: x in entries ==> x.score >= 0
    requires choice <= multiset(entries) && Obeys(choice, cap, multiset{})
    ensures Total(choice) <= Total(multiset(Capped(entries, cap)))
    ensures multiset(Capped(entries, cap)) <= multiset(entries) && Obeys(multiset(Capped(entries, cap)), cap, multiset{})
  {
    OrderedKeeps(entries);
    KeepIsBest(Ordered(entries), cap, multiset{}, choice);
    KeepSelects(Ordered(entries), cap, multiset{});
    KeepObeys(Ordered(entries), cap, multiset{});
  }

  lemma {:induction false} KeepObeys<D(!new)>(s: seq<Ranked<D>>, cap: int, taken: multiset<Notice>)
    ensures Obeys(multiset(Keep(s, cap, taken)), cap, taken)
  {
    if s != [] {
      if taken[s[0].notice] >= cap {
        KeepObeys(s[1..], cap, taken);
      } else {
        var kept := Keep(s[1..], cap, taken + multiset{s[0].notice});
        KeepObeys(s[1..], cap, taken + multiset{s[0].notice});
        assert multiset([s[0]] + kept) - multiset{s[0]} == multiset(kept);
        NoticesPick(multiset([s[0]] + kept), s[0]);
      }
    }
  }

  // ---------- a ranking in thirds ----------

  datatype Thirds<D> = Thirds(top: seq<Ranked<D>>, middle: seq<Ranked<D>>, bottom: seq<Ranked<D>>)

  function ThirdsOf<D>(s: seq<Ranked<D>>): Thirds<D> {
    var ordered := Ordered(s);
    var first, second := |ordered| / 3, 2 * |ordered| / 3;
    Thirds(ordered[..first], ordered[first..second], ordered[second..])
  }

  lemma ThirdsPartition<D(!new)>(s: seq<Ranked<D>>)
    ensures var zones := ThirdsOf(s);
      && multiset(zones.top) + multiset(zones.middle) + multiset(zones.bottom) == multiset(s)
      && |zones.top| == |s| / 3 && |zones.middle| == 2 * |s| / 3 - |s| / 3
      && |zones.bottom| == |s| - 2 * |s| / 3
  {
    OrderedKeeps(s);
    var ordered, zones := Ordered(s), ThirdsOf(s);
    assert ordered == zones.top + zones.middle + zones.bottom;
  }
}
