/** The showcase: the best signals by readiness, recency and specificity, with no opportunity or notice twice,
    no awardee more than twice, and specialties capped as long as other candidates remain. */
module Showcase {
  import opened Ordering

  datatype Notice = Notice(system: string, id: string)

  datatype Signal = Signal(
    outboundReady: bool, ageDays: int, specificity: int, opportunity: string, notice: Notice,
    awardee: string, specialty: string)

  predicate RankLeq(a: Signal, b: Signal) {
    if a.outboundReady != b.outboundReady then a.outboundReady
    else if a.ageDays != b.ageDays then a.ageDays < b.ageDays
    else if a.specificity != b.specificity then a.specificity > b.specificity
    else StringLeq(a.opportunity, b.opportunity)
  }

  lemma RankOrder()
    ensures IsPreorder(RankLeq)
  {
    forall x, y ensures RankLeq(x, y) || RankLeq(y, x) {
      StringLeqTotal(x.opportunity, y.opportunity);
    }
    forall x, y, z | RankLeq(x, y) && RankLeq(y, z) ensures RankLeq(x, z) {
      if StringLeq(x.opportunity, y.opportunity) && StringLeq(y.opportunity, z.opportunity) {
        StringLeqTransitive(x.opportunity, y.opportunity, z.opportunity);
      }
    }
  }

  const MAX_PER_AWARDEE := 2

  function CeilingOfQuarter(n: nat): nat {
    (n + 3) / 4
  }

  function SpecialtyCap(limit: nat): nat {
    if CeilingOfQuarter(limit) > 3 then CeilingOfQuarter(limit) else 3
  }

  ghost function CountAwardee(s: seq<Signal>, awardee: string): nat {
    if s == [] then 0 else CountAwardee(s[..|s| - 1], awardee) + if s[|s| - 1].awardee == awardee then 1 else 0
  }

  ghost function CountSpecialty(s: seq<Signal>, specialty: string): nat {
    if s == [] then 0 else CountSpecialty(s[..|s| - 1], specialty) + if s[|s| - 1].specialty == specialty then 1 else 0
  }

  /** The candidate repeats an opportunity or a notice, or its awardee has been shown twice. */
  ghost predicate Conflicts(selected: seq<Signal>, c: Signal) {
    || (exists s :: s in selected && s.opportunity == c.opportunity)
    || (exists s :: s in selected && s.notice == c.notice)
    || CountAwardee(selected, c.awardee) >= MAX_PER_AWARDEE
  }

  ghost predicate Skipped(selected: seq<Signal>, c: Signal, enforce: bool, cap: nat) {
    Conflicts(selected, c) || (enforce && CountSpecialty(selected, c.specialty) >= cap)
  }

  /** One pass over the ranked candidates. */
  ghost function Pass(selected: seq<Signal>, ranked: seq<Signal>, limit: nat, enforce: bool, cap: nat): seq<Signal>
    decreases |ranked|
  {
    if ranked == [] || |selected| >= limit then selected
    else if Skipped(selected, ranked[0], enforce, cap) then Pass(selected, ranked[1..], limit, enforce, cap)
    else Pass(selected + [ranked[0]], ranked[1..], limit, enforce, cap)
  }

  function Ranked(candidates: seq<Signal>): seq<Signal> {
    Sort(candidates, RankLeq)
  }

  ghost function FirstPass(candidates: seq<Signal>, limit: nat): seq<Signal> {
    Pass([], Ranked(candidates), limit, true, SpecialtyCap(limit))
  }

  ghost function Selected(candidates: seq<Signal>, limit: int): seq<Signal> {
    if limit < 1 then [] else Pass(FirstPass(candidates, limit), Ranked(candidates), limit, false, SpecialtyCap(limit))
  }

  // ---------- the program's loop ----------

  /** The seen sets and counters hold what they say. */
  ghost predicate Tracks(selected: seq<Signal>, opportunities: set<string>, notices: set<Notice>,
                         winners: multiset<string>, specialties: multiset<string>) {
    && (forall o :: o in opportunities <==> exists s :: s in selected && s.opportunity == o)
    && (forall n :: n in notices <==> exists s :: s in selected && s.notice == n)
    && (forall w :: winners[w] == CountAwardee(selected, w))
    && (forall k :: specialties[k] == CountSpecialty(selected, k))
  }

  lemma TracksOneMore(selected: seq<Signal>, opportunities: set<string>, notices: set<Notice>,
                      winners: multiset<string>, specialties: multiset<string>, c: Signal)
    requires Tracks(selected, opportunities, notices, winners, specialties)
    ensures Tracks(selected + [c], opportunities + {c.opportunity}, notices + {c.notice},
                   winners + multiset{c.awardee}, specialties + multiset{c.specialty})
  {
    var after := selected + [c];
    assert after[..|selected|] == selected && c in after;
    forall o ensures o in opportunities + {c.opportunity} <==> exists s :: s in after && s.opportunity == o {
      if o in opportunities {
        var s :| s in selected && s.opportunity == o;
        assert s in after;
      }
    }
    forall n ensures n in notices + {c.notice} <==> exists s :: s in after && s.notice == n {
      if n in notices {
        var s :| s in selected && s.notice == n;
        assert s in after;
      }
    }
  }

  method SelectShowcase(candidates: seq<Signal>, limit: int) returns (selected: seq<Signal>)
    ensures selected == Selected(candidates, limit)
  {
    if limit < 1 { return []; }
    var cap := SpecialtyCap(limit);
    selected := [];
    var opportunities: set<string>, notices: set<Notice> := {}, {};
    var winners: multiset<string>, specialties: multiset<string> := multiset{}, multiset{};
    var ranked := Ranked(candidates);
    selected, opportunities, notices, winners, specialties :=
      RunPass(selected, opportunities, notices, winners, specialties, ranked, limit, true, cap);
    if |selected| == limit {
      assert Pass(selected, ranked, limit, false, cap) == selected;
      return;
    }
    selected, opportunities, notices, winners, specialties :=
      RunPass(selected, opportunities, notices, winners, specialties, ranked, limit, false, cap);
  }

  /** The inner loop, which ends as soon as the limit is reached. */
  method RunPass(selected0: seq<Signal>, opportunities0: set<string>, notices0: set<Notice>, winners0: multiset<string>,
                 specialties0: multiset<string>, ranked: seq<Signal>, limit: nat, enforce: bool, cap: nat)
    returns (selected: seq<Signal>, opportunities: set<string>, notices: set<Notice>, winners: multiset<string>,
             specialties: multiset<string>)
    requires Tracks(selected0, opportunities0, notices0, winners0, specialties0) && |selected0| < limit
    ensures selected == Pass(selected0, ranked, limit, enforce, cap) && |selected| <= limit
    ensures Tracks(selected, opportunities, notices, winners, specialties)
  {
    selected, opportunities, notices, winners, specialties := selected0, opportunities0, notices0, winners0, specialties0;
    assert ranked[0..] == ranked;
    for i := 0 to |ranked|
      invariant Tracks(selected, opportunities, notices, winners, specialties) && |selected| < limit
      invariant Pass(selected0, ranked, limit, enforce, cap) == Pass(selected, ranked[i..], limit, enforce, cap)
    {
      var c := ranked[i];
      assert ranked[i..][0] == c && ranked[i..][1..] == ranked[i + 1..];
      if c.opportunity in opportunities || c.notice in notices { continue; }
      if winners[c.awardee] >= MAX_PER_AWARDEE { continue; }
      if enforce && specialties[c.specialty] >= cap { continue; }
      TracksOneMore(selected, opportunities, notices, winners, specialties, c);
      selected := selected + [c];
      opportunities, notices := opportunities + {c.opportunity}, notices + {c.notice};
      winners, specialties := winners + multiset{c.awardee}, specialties + multiset{c.specialty};
      if |selected| == limit { return; }
    }
  }

  // ---------- what the showcase promises ----------

  ghost predicate NoRepetition(selected: seq<Signal>) {
    && (forall i, j :: 0 <= i < j < |selected| ==> selected[i].opportunity != selected[j].opportunity)
    && (forall i, j :: 0 <= i < j < |selected| ==> selected[i].notice != selected[j].notice)
    && (forall w :: CountAwardee(selected, w) <= 2)
  }

  lemma OneMoreKeepsNoRepetition(selected: seq<Signal>, c: Signal)
    requires NoRepetition(selected) && !Conflicts(selected, c)
    ensures NoRepetition(selected + [c])
  {
    assert (selected + [c])[..|selected|] == selected;
    forall i | 0 <= i < |selected| ensures selected[i].opportunity != c.opportunity && selected[i].notice != c.notice {
      assert selected[i] in selected;
    }
  }

  lemma {:induction false} PassKeepsNoRepetition(selected: seq<Signal>, ranked: seq<Signal>, limit: nat, enforce: bool, cap: nat)
    requires NoRepetition(selected)
    ensures NoRepetition(Pass(selected, ranked, limit, enforce, cap))
    decreases |ranked|
  {
    if ranked != [] && |selected| < limit {
      if Skipped(selected, ranked[0], enforce, cap) {
        PassKeepsNoRepetition(selected, ranked[1..], limit, enforce, cap);
      } else {
        OneMoreKeepsNoRepetition(selected, ranked[0]);
        PassKeepsNoRepetition(selected + [ranked[0]], ranked[1..], limit, enforce, cap);
      }
    }
  }

  lemma {:induction false} PassSelects(selected: seq<Signal>, ranked: seq<Signal>, limit: nat, enforce: bool, cap: nat)
    ensures var result := Pass(selected, ranked, limit, enforce, cap);
      && selected <= result && (|selected| <= limit ==> |result| <= limit)
      && forall x :: x in result ==> x in selected || x in ranked
    decreases |ranked|
  {
    if ranked != [] && |selected| < limit {
      var next := if Skipped(selected, ranked[0], enforce, cap) then selected else selected + [ranked[0]];
      PassSelects(next, ranked[1..], limit, enforce, cap);
      var result := Pass(next, ranked[1..], limit, enforce, cap);
      assert Pass(selected, ranked, limit, enforce, cap) == result && selected <= next <= result;
    }
  }

  /** No opportunity or notice is shown twice, no awardee more than twice, and nothing that was no candidate. */
  lemma ShowcaseNeverRepeats(candidates: seq<Signal>, limit: int)
    ensures NoRepetition(Selected(candidates, limit))
    ensures |Selected(candidates, limit)| <= if limit < 1 then 0 else limit
    ensures forall x :: x in Selected(candidates, limit) ==> x in candidates
  {
    if limit >= 1 {
      var cap, ranked, first := SpecialtyCap(limit), Ranked(candidates), FirstPass(candidates, limit);
      SortKeeps(candidates, RankLeq);
      PassKeepsNoRepetition([], ranked, limit, true, cap);
      PassSelects([], ranked, limit, true, cap);
      PassKeepsNoRepetition(first, ranked, limit, false, cap);
      PassSelects(first, ranked, limit, false, cap);
    }
  }

  lemma {:induction false} PassKeepsSpecialtyCap(selected: seq<Signal>, ranked: seq<Signal>, limit: nat, cap: nat)
    requires forall k :: CountSpecialty(selected, k) <= cap
    ensures forall k :: CountSpecialty(Pass(selected, ranked, limit, true, cap), k) <= cap
    decreases |ranked|
  {
    if ranked != [] && |selected| < limit {
      if Skipped(selected, ranked[0], true, cap) {
        PassKeepsSpecialtyCap(selected, ranked[1..], limit, cap);
      } else {
        assert (selected + [ranked[0]])[..|selected|] == selected;
        PassKeepsSpecialtyCap(selected + [ranked[0]], ranked[1..], limit, cap);
      }
    }
  }

  // ---------- growing selections keep their conflicts ----------

  lemma {:induction false} CountsGrow(a: seq<Signal>, b: seq<Signal>, awardee: string, specialty: string)
    requires a <= b
    ensures CountAwardee(a, awardee) <= CountAwardee(b, awardee)
    ensures CountSpecialty(a, specialty) <= CountSpecialty(b, specialty)
  {
    if a != b {
      assert a <= b[..|b| - 1];
      CountsGrow(a, b[..|b| - 1], awardee, specialty);
    }
  }

  lemma SkippedForGood(a: seq<Signal>, b: seq<Signal>, c: Signal, enforce: bool, cap: nat)
    requires a <= b && Skipped(a, c, enforce, cap)
    ensures Skipped(b, c, enforce, cap)
  {
    CountsGrow(a, b, c.awardee, c.specialty);
    assert forall x :: x in a ==> x in b;
  }

  /** A pass that ends short leaves only candidates it would skip again. */
  lemma {:induction false} PassIsExhaustive(
    selected: seq<Signal>, ranked: seq<Signal>, limit: nat, enforce: bool, cap: nat, c: Signal)
    requires c in ranked && |Pass(selected, ranked, limit, enforce, cap)| < limit
    ensures Skipped(Pass(selected, ranked, limit, enforce, cap), c, enforce, cap)
    decreases |ranked|
  {
    var h := ranked[0];
    var next := if Skipped(selected, h, enforce, cap) then selected else selected + [h];
    var result := Pass(next, ranked[1..], limit, enforce, cap);
    PassSelects(selected, ranked, limit, enforce, cap);
    PassSelects(next, ranked[1..], limit, enforce, cap);
    assert result == Pass(selected, ranked, limit, enforce, cap);
    if c == h {
      if next != selected {
        assert c in next;
        assert c in result;
      } else {
        SkippedForGood(selected, result, c, enforce, cap);
      }
    } else {
      PassIsExhaustive(next, ranked[1..], limit, enforce, cap, c);
    }
  }

  /** If fewer than the limit are shown, every candidate conflicts with what is shown. */
  lemma ShortShowcaseIsExhaustive(candidates: seq<Signal>, limit: int, c: Signal)
    requires c in candidates && |Selected(candidates, limit)| < limit
    ensures Conflicts(Selected(candidates, limit), c)
  {
    SortKeeps(candidates, RankLeq);
    PassIsExhaustive(FirstPass(candidates, limit), Ranked(candidates), limit, false, SpecialtyCap(limit), c);
  }

  /** The first pass is the front of the showcase and obeys the specialty cap. The second pass adds to it only
      when every candidate conflicts or belongs to a specialty that is full. */
  lemma SpecialtyCapYieldsLast(candidates: seq<Signal>, limit: nat, specialty: string, c: Signal)
    requires limit >= 1 && c in candidates
    ensures FirstPass(candidates, limit) <= Selected(candidates, limit)
    ensures CountSpecialty(FirstPass(candidates, limit), specialty) <= SpecialtyCap(limit)
    ensures Selected(candidates, limit) != FirstPass(candidates, limit) ==>
      (Conflicts(FirstPass(candidates, limit), c)
       || CountSpecialty(FirstPass(candidates, limit), c.specialty) >= SpecialtyCap(limit))
  {
    var cap, ranked, first := SpecialtyCap(limit), Ranked(candidates), FirstPass(candidates, limit);
    SortKeeps(candidates, RankLeq);
    PassKeepsSpecialtyCap([], ranked, limit, cap);
    PassSelects([], ranked, limit, true, cap);
    PassSelects(first, ranked, limit, false, cap);
    if |first| < limit { PassIsExhaustive([], ranked, limit, true, cap, c); }
  }

  // ---------- better candidates come first ----------

  function UpTo(s: seq<Signal>, c: Signal): seq<Signal> {
    if s == [] then []
    else UpTo(s[..|s| - 1], c) + if RankLeq(s[|s| - 1], c) then [s[|s| - 1]] else []
  }

  ghost predicate AllBefore(selected: seq<Signal>, c: Signal) {
    forall x :: x in selected ==> RankLeq(x, c)
  }

  lemma {:induction false} UpToAll(s: seq<Signal>, c: Signal)
    requires AllBefore(s, c)
    ensures UpTo(s, c) == s
  {
    if s != [] {
      var init, last := s[..|s| - 1], s[|s| - 1];
      assert last in s && RankLeq(last, c);
      assert AllBefore(init, c);
      UpToAll(init, c);
      assert s == init + [last];
    }
  }

  lemma {:induction false} UpToGrows(a: seq<Signal>, b: seq<Signal>, c: Signal)
    requires a <= b
    ensures UpTo(a, c) <= UpTo(b, c)
  {
    if a != b { UpToGrows(a, b[..|b| - 1], c); }
  }

  /** What is skipped or taken at its turn is so because of selected ones that rank no lower. */
  lemma AtItsTurn(selected: seq<Signal>, c: Signal, enforce: bool, cap: nat, result: seq<Signal>)
    requires AllBefore(selected, c) && RankLeq(c, c)
    requires (if Skipped(selected, c, enforce, cap) then selected else selected + [c]) <= result
    ensures Skipped(UpTo(result, c), c, enforce, cap)
  {
    if Skipped(selected, c, enforce, cap) {
      UpToAll(selected, c);
      UpToGrows(selected, result, c);
      SkippedForGood(selected, UpTo(result, c), c, enforce, cap);
    } else {
      UpToAll(selected + [c], c);
      UpToGrows(selected + [c], result, c);
      assert c in selected + [c] && c in UpTo(result, c);
    }
  }

  /** A candidate left out although there was room is left out because of selected ones that rank no lower. */
  lemma {:induction false} LeftOutForBetter(
    selected: seq<Signal>, ranked: seq<Signal>, limit: nat, enforce: bool, cap: nat, c: Signal)
    requires Sorted(ranked, RankLeq) && c in ranked && RankLeq(c, c) && AllBefore(selected, c)
    requires |Pass(selected, ranked, limit, enforce, cap)| < limit
    ensures Skipped(UpTo(Pass(selected, ranked, limit, enforce, cap), c), c, enforce, cap)
    decreases |ranked|
  {
    var h := ranked[0];
    var next := if Skipped(selected, h, enforce, cap) then selected else selected + [h];
    PassSelects(selected, ranked, limit, enforce, cap);
    PassSelects(next, ranked[1..], limit, enforce, cap);
    var result := Pass(next, ranked[1..], limit, enforce, cap);
    assert result == Pass(selected, ranked, limit, enforce, cap);
    if c == h {
      AtItsTurn(selected, c, enforce, cap, result);
    } else {
      assert RankLeq(h, c);
      assert AllBefore(next, c);
      LeftOutForBetter(next, ranked[1..], limit, enforce, cap, c);
    }
  }

  lemma FirstPassPrefersBetter(candidates: seq<Signal>, limit: nat, c: Signal)
    requires c in candidates && |FirstPass(candidates, limit)| < limit
    ensures Skipped(UpTo(FirstPass(candidates, limit), c), c, true, SpecialtyCap(limit))
  {
    RankOrder();
    SortKeeps(candidates, RankLeq);
    SortSorts(candidates, RankLeq);
    LeftOutForBetter([], Ranked(candidates), limit, true, SpecialtyCap(limit), c);
  }

  /** The showcase does not depend on the order of the candidates, if no two of them rank alike. */
  lemma ShowcaseIgnoresArrival(a: seq<Signal>, b: seq<Signal>, limit: int)
    requires multiset(a) == multiset(b) && Separates(a, RankLeq)
    ensures Selected(a, limit) == Selected(b, limit)
  {
    RankOrder();
    SortIgnoresArrival(a, b, RankLeq);
  }

  // ---------- what is taken next ----------

  /** Ready ones first, then the more recent, then the more specific, then the smaller opportunity. */
  ghost predicate NotAfter(a: Signal, b: Signal) {
    || (a.outboundReady && !b.outboundReady)
    || (a.outboundReady == b.outboundReady
        && (a.ageDays < b.ageDays
            || (a.ageDays == b.ageDays
                && (a.specificity > b.specificity
                    || (a.specificity == b.specificity && StringLeq(a.opportunity, b.opportunity))))))
  }

  lemma RankMeans(a: Signal, b: Signal)
    ensures RankLeq(a, b) <==> NotAfter(a, b)
  {
  }

  /** The cap is the least number of three or more that is at least a quarter of the limit. */
  lemma SpecialtyCapMeans(limit: nat)
    ensures SpecialtyCap(limit) >= 3 && 4 * SpecialtyCap(limit) >= limit
    ensures forall n: nat :: n >= 3 && 4 * n >= limit ==> SpecialtyCap(limit) <= n
  {
  }

  /** What a pass adds at each place is the first of the candidates that it would not skip there. */
  ghost predicate FirstAt(result: seq<Signal>, k: nat, candidates: seq<Signal>, enforce: bool, cap: nat)
    requires k < |result|
  {
    && result[k] in candidates && !Skipped(result[..k], result[k], enforce, cap)
    && forall c :: c in candidates && !Skipped(result[..k], c, enforce, cap) ==> NotAfter(result[k], c)
  }

  lemma {:induction false} PassTakesFirst(
    selected: seq<Signal>, ranked: seq<Signal>, all: seq<Signal>, limit: nat, enforce: bool, cap: nat, k: nat)
    requires Sorted(ranked, RankLeq) && IsPreorder(RankLeq)
    requires (forall c :: c in ranked ==> c in all) && forall c :: c in all && c !in ranked ==> Skipped(selected, c, enforce, cap)
    requires |selected| <= k < |Pass(selected, ranked, limit, enforce, cap)|
    ensures FirstAt(Pass(selected, ranked, limit, enforce, cap), k, all, enforce, cap)
    decreases |ranked|
  {
    var h, rest := ranked[0], ranked[1..];
    var result := Pass(selected, ranked, limit, enforce, cap);
    if Skipped(selected, h, enforce, cap) {
      PassTakesFirst(selected, rest, all, limit, enforce, cap, k);
    } else {
      PassSelects(selected + [h], rest, limit, enforce, cap);
      assert result == Pass(selected + [h], rest, limit, enforce, cap);
      if k == |selected| {
        assert result[..k] == selected && result[k] == h;
        NextIsFirst(selected, ranked, all, enforce, cap, h);
      } else {
        TakenIsSkipped(selected, h, all, rest, enforce, cap);
        PassTakesFirst(selected + [h], rest, all, limit, enforce, cap, k);
      }
    }
  }

  lemma NextIsFirst(selected: seq<Signal>, ranked: seq<Signal>, all: seq<Signal>, enforce: bool, cap: nat, h: Signal)
    requires Sorted(ranked, RankLeq) && IsPreorder(RankLeq) && ranked != [] && h == ranked[0]
    requires forall c :: c in all && c !in ranked ==> Skipped(selected, c, enforce, cap)
    ensures forall c :: c in all && !Skipped(selected, c, enforce, cap) ==> NotAfter(h, c)
  {
    forall c | c in all && !Skipped(selected, c, enforce, cap) ensures NotAfter(h, c) {
      var i :| 0 <= i < |ranked| && ranked[i] == c;
      RankMeans(h, c);
      assert RankLeq(h, h);
    }
  }

  lemma TakenIsSkipped(selected: seq<Signal>, h: Signal, all: seq<Signal>, rest: seq<Signal>, enforce: bool, cap: nat)
    requires forall c :: c in all && c !in [h] + rest ==> Skipped(selected, c, enforce, cap)
    ensures forall c :: c in all && c !in rest ==> Skipped(selected + [h], c, enforce, cap)
  {
    forall c | c in all && c !in rest ensures Skipped(selected + [h], c, enforce, cap) {
      if c == h {
        assert h in selected + [h];
      } else {
        SkippedForGood(selected, selected + [h], c, enforce, cap);
      }
    }
  }

  /** Every place of the showcase: up to the end of the first pass, the first candidate that repeats nothing and whose
      specialty is not full; after it, the first that repeats nothing. */
  lemma ShowcaseTakesFirst(candidates: seq<Signal>, limit: nat, k: nat)
    requires limit >= 1 && k < |Selected(candidates, limit)|
    ensures FirstAt(Selected(candidates, limit), k, candidates, k < |FirstPass(candidates, limit)|, SpecialtyCap(limit))
  {
    var ranked, cap, first := Ranked(candidates), SpecialtyCap(limit), FirstPass(candidates, limit);
    RankOrder();
    SortSorts(candidates, RankLeq);
    SortKeeps(candidates, RankLeq);
    SameMultisetSameElements(ranked, candidates);
    PassSelects(first, ranked, limit, false, cap);
    if k < |first| {
      PassTakesFirst([], ranked, candidates, limit, true, cap, k);
      assert Selected(candidates, limit)[..k] == first[..k];
    } else {
      PassTakesFirst(first, ranked, candidates, limit, false, cap, k);
    }
  }
}
