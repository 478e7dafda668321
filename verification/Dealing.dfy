/** Strata of one client feed, and dealing from their queues in turn: a fair round robin that takes from the
    front of every queue. */
module Dealing {
  import opened Wrappers
  import opened Ordering
  import opened NoticeCap

  datatype WedgeDetail = WedgeDetail(country: Option<string>, tradeDomain: string, amount: Option<real>)

  type WedgeSignal = Ranked<WedgeDetail>

  datatype Stratum = Stratum(source: string, country: string, tradeDomain: string, valueBand: string)

  function ValueBand(amount: Option<real>): string {
    match amount
    case None => "unpublished"
    case Some(a) =>
      if a < 250000.0 then "under_250k" else if a < 1000000.0 then "250k_1m"
      else if a < 5000000.0 then "1m_5m" else "over_5m"
  }

  function StratumOf(s: WedgeSignal): Stratum {
    var country := if s.detail.country.Some? && s.detail.country.value != "" then s.detail.country.value else "?";
    Stratum(s.notice.source, country, s.detail.tradeDomain, ValueBand(s.detail.amount))
  }

  /** Tuples compare field by field. */
  predicate StratumLeq(a: Stratum, b: Stratum) {
    if a.source != b.source then StringLeq(a.source, b.source)
    else if a.country != b.country then StringLeq(a.country, b.country)
    else if a.tradeDomain != b.tradeDomain then StringLeq(a.tradeDomain, b.tradeDomain)
    else StringLeq(a.valueBand, b.valueBand)
  }

  /** The order of the strata: by source, then country, then trade domain, then value band. */
  ghost predicate Precedes(a: Stratum, b: Stratum) {
    || (a.source != b.source && StringLeq(a.source, b.source))
    || (a.source == b.source && a.country != b.country && StringLeq(a.country, b.country))
    || (a.source == b.source && a.country == b.country && a.tradeDomain != b.tradeDomain
        && StringLeq(a.tradeDomain, b.tradeDomain))
    || (a.source == b.source && a.country == b.country && a.tradeDomain == b.tradeDomain
        && a.valueBand != b.valueBand && StringLeq(a.valueBand, b.valueBand))
  }

  lemma StringOrder(a: string, b: string, c: string)
    ensures StringLeq(a, b) || StringLeq(b, a)
    ensures StringLeq(a, b) && StringLeq(b, a) ==> a == b
    ensures StringLeq(a, b) && StringLeq(b, c) ==> StringLeq(a, c)
  {
    StringLeqTotal(a, b);
    if StringLeq(a, b) && StringLeq(b, a) { StringLeqAntisymmetric(a, b); }
    if StringLeq(a, b) && StringLeq(b, c) { StringLeqTransitive(a, b, c); }
  }

  lemma StratumOrder(a: Stratum, b: Stratum, c: Stratum)
    ensures StratumLeq(a, b) || StratumLeq(b, a)
    ensures a != b ==> (StratumLeq(a, b) <==> Precedes(a, b)) && !(Precedes(a, b) && Precedes(b, a))
    ensures StratumLeq(a, b) && StratumLeq(b, c) ==> StratumLeq(a, c)
  {
    StringOrder(a.source, b.source, c.source);
    StringOrder(b.source, c.source, a.source);
    StringOrder(a.country, b.country, c.country);
    StringOrder(b.country, c.country, a.country);
    StringOrder(a.tradeDomain, b.tradeDomain, c.tradeDomain);
    StringOrder(b.tradeDomain, c.tradeDomain, a.tradeDomain);
    StringOrder(a.valueBand, b.valueBand, c.valueBand);
  }

  lemma StratumPreorder()
    ensures IsPreorder(StratumLeq)
  {
    forall a, b ensures StratumLeq(a, b) || StratumLeq(b, a) {
      StratumOrder(a, b, b);
    }
    forall a, b, c | StratumLeq(a, b) && StratumLeq(b, c) ensures StratumLeq(a, c) {
      StratumOrder(a, b, c);
    }
  }

  type Queue = seq<WedgeSignal>

  // ---------- dealing from queues in turn ----------

  predicate AllEmpty(queues: seq<Queue>) {
    forall i :: 0 <= i < |queues| ==> queues[i] == []
  }

  /** One turn: the first of every queue that has one, as long as any are wanted. */
  function Turn(queues: seq<Queue>, wanted: nat): (seq<WedgeSignal>, seq<Queue>) {
    if queues == [] || wanted == 0 then ([], queues)
    else if queues[0] == [] then
      var (picked, left) := Turn(queues[1..], wanted);
      (picked, [queues[0]] + left)
    else
      var (picked, left) := Turn(queues[1..], wanted - 1);
      ([queues[0][0]] + picked, [queues[0][1..]] + left)
  }

  function Size(queues: seq<Queue>): nat {
    if queues == [] then 0 else |queues[0]| + Size(queues[1..])
  }

  lemma {:induction false} TurnTakes(queues: seq<Queue>, wanted: nat)
    ensures var (picked, left) := Turn(queues, wanted);
      && |left| == |queues| && |picked| <= wanted && Size(left) + |picked| == Size(queues)
      && (wanted > 0 && !AllEmpty(queues) ==> picked != [])
  {
    if queues != [] && wanted > 0 {
      assert queues == [queues[0]] + queues[1..];
      TurnTakes(queues[1..], if queues[0] == [] then wanted else wanted - 1);
      if queues[0] == [] && !AllEmpty(queues) {
        var i :| 0 <= i < |queues| && queues[i] != [];
        assert queues[1..][i - 1] != [];
      }
    }
  }

  function Deal(queues: seq<Queue>, wanted: nat): (seq<WedgeSignal>, seq<Queue>)
    decreases Size(queues), 1
  {
    if wanted == 0 || AllEmpty(queues) then ([], queues) else
      TurnTakes(queues, wanted);
      DealOn(Turn(queues, wanted), wanted)
  }

  function DealOn(turn: (seq<WedgeSignal>, seq<Queue>), wanted: nat): (seq<WedgeSignal>, seq<Queue>)
    requires |turn.0| <= wanted
    decreases Size(turn.1) + 1, 0
  {
    var rest := Deal(turn.1, wanted - |turn.0|);
    (turn.0 + rest.0, rest.1)
  }

  lemma DealOneTurn(queues: seq<Queue>, wanted: nat, turn: (seq<WedgeSignal>, seq<Queue>))
    requires wanted > 0 && !AllEmpty(queues) && Turn(queues, wanted) == turn
    ensures |turn.0| <= wanted && turn.0 != [] && Size(turn.1) < Size(queues)
    ensures Deal(queues, wanted) == DealOn(turn, wanted)
  {
    TurnTakes(queues, wanted);
  }

  lemma {:induction false} AllEmptyHasNoSize(queues: seq<Queue>)
    ensures AllEmpty(queues) <==> Size(queues) == 0
  {
    if queues != [] {
      AllEmptyHasNoSize(queues[1..]);
      assert AllEmpty(queues) <==> queues[0] == [] && AllEmpty(queues[1..]) by {
        if queues[0] == [] && AllEmpty(queues[1..]) {
          forall i | 0 <= i < |queues| ensures queues[i] == [] {
            if i > 0 { assert queues[i] == queues[1..][i - 1]; }
          }
        }
      }
    }
  }

  lemma {:induction false} DealTakes(queues: seq<Queue>, wanted: nat)
    ensures var (picked, final) := Deal(queues, wanted);
      && |final| == |queues| && Size(final) + |picked| == Size(queues)
      && |picked| == if wanted < Size(queues) then wanted else Size(queues)
    decreases Size(queues)
  {
    AllEmptyHasNoSize(queues);
    if wanted > 0 && !AllEmpty(queues) {
      var turn := Turn(queues, wanted);
      TurnTakes(queues, wanted);
      DealOneTurn(queues, wanted, turn);
      DealTakes(turn.1, wanted - |turn.0|);
    }
  }

  // ---------- fairness ----------

  /** How many have been taken from queue `i`. */
  function Given(queues: seq<Queue>, left: seq<Queue>, i: nat): int
    requires i < |queues| == |left|
  {
    |queues[i]| - |left[i]|
  }

  /** Every queue has given `turns`, or all it had. */
  ghost predicate Even(queues: seq<Queue>, left: seq<Queue>, turns: nat) {
    |left| == |queues| && forall i :: 0 <= i < |queues| ==> Given(queues, left, i) == Min(turns, |queues[i]|)
  }

  /** Every queue has given `turns` or one more, or all it had. */
  ghost predicate Fair(queues: seq<Queue>, left: seq<Queue>, turns: nat) {
    && |left| == |queues|
    && forall i :: 0 <= i < |queues| ==>
         Min(turns, |queues[i]|) <= Given(queues, left, i) <= Min(turns + 1, |queues[i]|)
  }

  lemma {:induction false} TurnGivesOneEach(queues: seq<Queue>, wanted: nat)
    ensures var (picked, left) := Turn(queues, wanted);
      Fair(queues, left, 0) && (|picked| < wanted ==> Even(queues, left, 1))
  {
    if queues != [] && wanted > 0 {
      var rest := queues[1..];
      var w := if queues[0] == [] then wanted else wanted - 1;
      TurnGivesOneEach(rest, w);
      TurnTakes(rest, w);
      var (picked, left) := Turn(queues, wanted);
      forall i | 0 < i < |queues| ensures Given(queues, left, i) == Given(rest, Turn(rest, w).1, i - 1) {
      }
    }
  }

  /** Turns add up. */
  lemma FairAfterTurn(queues: seq<Queue>, before: seq<Queue>, turns: nat, after: seq<Queue>)
    requires Even(queues, before, turns)
    ensures Fair(before, after, 0) ==> Fair(queues, after, turns)
    ensures Even(before, after, 1) ==> Even(queues, after, turns + 1)
  {
    if |after| == |queues| {
      forall i | 0 <= i < |queues|
        ensures Given(queues, after, i) == Given(queues, before, i) + Given(before, after, i)
        ensures |before[i]| == |queues[i]| - Min(turns, |queues[i]|)
      {
        assert Given(queues, before, i) == Min(turns, |queues[i]|);
      }
    }
  }

  lemma {:induction false} DealIsFair(queues: seq<Queue>, before: seq<Queue>, turns: nat, wanted: nat) returns (n: nat)
    requires Even(queues, before, turns)
    ensures Fair(queues, Deal(before, wanted).1, n)
    decreases Size(before)
  {
    n := turns;
    if wanted > 0 && !AllEmpty(before) {
      var turn := Turn(before, wanted);
      DealOneTurn(before, wanted, turn);
      TurnGivesOneEach(before, wanted);
      FairAfterTurn(queues, before, turns, turn.1);
      if |turn.0| < wanted {
        n := DealIsFair(queues, turn.1, turns + 1, wanted - |turn.0|);
      }
    }
  }

  // ---------- the order of a turn ----------

  /** No queue has given more than an earlier one, unless the earlier one has given all it had. */
  ghost predicate InOrder(queues: seq<Queue>, left: seq<Queue>) {
    && |left| == |queues|
    && forall i, j :: 0 <= i < j < |queues| ==> Given(queues, left, i) >= Min(|queues[i]|, Given(queues, left, j))
  }

  lemma {:induction false} TurnGivesInOrder(queues: seq<Queue>, wanted: nat)
    ensures InOrder(queues, Turn(queues, wanted).1)
  {
    if queues != [] && wanted > 0 {
      var rest := queues[1..];
      var w := if queues[0] == [] then wanted else wanted - 1;
      TurnGivesInOrder(rest, w);
      TurnGivesOneEach(rest, w);
      var left := Turn(queues, wanted).1;
      forall i | 0 < i < |queues|
        ensures Given(queues, left, i) == Given(rest, Turn(rest, w).1, i - 1) && queues[i] == rest[i - 1]
      {
      }
    }
  }

  lemma OrderAfterTurn(queues: seq<Queue>, before: seq<Queue>, turns: nat, after: seq<Queue>)
    requires Even(queues, before, turns) && Fair(before, after, 0) && InOrder(before, after)
    ensures InOrder(queues, after)
  {
    forall i, j | 0 <= i < j < |queues| ensures Given(queues, after, i) >= Min(|queues[i]|, Given(queues, after, j)) {
      AddedUp(queues, before, turns, after, i);
      AddedUp(queues, before, turns, after, j);
      assert Given(before, after, i) >= Min(|before[i]|, Given(before, after, j));
    }
  }

  lemma AddedUp(queues: seq<Queue>, before: seq<Queue>, turns: nat, after: seq<Queue>, i: nat)
    requires Even(queues, before, turns) && Fair(before, after, 0) && i < |queues|
    ensures Given(queues, after, i) == Min(turns, |queues[i]|) + Given(before, after, i)
    ensures |before[i]| == |queues[i]| - Min(turns, |queues[i]|) && 0 <= Given(before, after, i) <= Min(1, |before[i]|)
  {
    assert Given(queues, before, i) == Min(turns, |queues[i]|);
  }

  lemma {:induction false} DealServesInOrder(queues: seq<Queue>, before: seq<Queue>, turns: nat, wanted: nat)
    requires Even(queues, before, turns)
    ensures InOrder(queues, Deal(before, wanted).1)
    decreases Size(before)
  {
    if wanted > 0 && !AllEmpty(before) {
      var turn := Turn(before, wanted);
      DealOneTurn(before, wanted, turn);
      TurnGivesOneEach(before, wanted);
      TurnGivesInOrder(before, wanted);
      FairAfterTurn(queues, before, turns, turn.1);
      if |turn.0| < wanted {
        DealServesInOrder(queues, turn.1, turns + 1, wanted - |turn.0|);
      } else {
        OrderAfterTurn(queues, before, turns, turn.1);
      }
    } else {
      EvenIsInOrder(queues, before, turns);
    }
  }

  lemma EvenIsInOrder(queues: seq<Queue>, left: seq<Queue>, turns: nat)
    requires Even(queues, left, turns)
    ensures InOrder(queues, left)
  {
  }

  // ---------- what is dealt ----------

  function OfStratum(s: seq<WedgeSignal>, k: Stratum): Queue {
    if s == [] then [] else OfStratum(s[..|s| - 1], k) + (if StratumOf(s[|s| - 1]) == k then [s[|s| - 1]] else [])
  }

  lemma {:induction false} OfStratumConcat(a: seq<WedgeSignal>, b: seq<WedgeSignal>, k: Stratum)
    ensures OfStratum(a + b, k) == OfStratum(a, k) + OfStratum(b, k)
  {
    if b == [] {
      assert a + b == a;
    } else {
      var init := b[..|b| - 1];
      OfStratumConcat(a, init, k);
      assert (a + b)[..|a + b| - 1] == a + init;
    }
  }

  /** Queue `i` holds only signals of stratum `keys[i]`. */
  ghost predicate Filed(queues: seq<Queue>, keys: seq<Stratum>) {
    && |queues| == |keys|
    && forall i, x :: 0 <= i < |queues| && x in queues[i] ==> StratumOf(x) == keys[i]
  }

  lemma {:induction false} OfOneStratum(q: Queue, k: Stratum, other: Stratum)
    requires forall x :: x in q ==> StratumOf(x) == k
    ensures OfStratum(q, other) == if other == k then q else []
  {
    if q != [] { OfOneStratum(q[..|q| - 1], k, other); }
  }

  ghost predicate TakenFromFront(queue: Queue, k: Stratum, picked: seq<WedgeSignal>, left: Queue) {
    OfStratum(picked, k) + left == queue
  }

  /** What was picked of each stratum is the front of its queue, in order, and nothing else was picked. */
  ghost predicate Fronts(queues: seq<Queue>, keys: seq<Stratum>, picked: seq<WedgeSignal>, left: seq<Queue>) {
    && |queues| == |keys| == |left|
    && (forall i :: 0 <= i < |keys| ==> TakenFromFront(queues[i], keys[i], picked, left[i]))
    && (forall k :: k !in keys ==> NonePicked(k, picked))
  }

  ghost predicate NonePicked(k: Stratum, picked: seq<WedgeSignal>) {
    OfStratum(picked, k) == []
  }

  lemma PickedAddUp(queue: Queue, k: Stratum, picked: seq<WedgeSignal>, left: Queue, more: seq<WedgeSignal>, final: Queue)
    ensures TakenFromFront(queue, k, picked, left) && TakenFromFront(left, k, more, final) ==>
      TakenFromFront(queue, k, picked + more, final)
    ensures NonePicked(k, picked) && NonePicked(k, more) ==> NonePicked(k, picked + more)
  {
    OfStratumConcat(picked, more, k);
  }

  lemma FirstAddsUp(first: Queue, key: Stratum, k: Stratum, queue: Queue, picked: seq<WedgeSignal>, left: Queue)
    requires forall x :: x in first ==> StratumOf(x) == key
    ensures k != key && TakenFromFront(queue, k, picked, left) ==> TakenFromFront(queue, k, first + picked, left)
    ensures k != key && NonePicked(k, picked) ==> NonePicked(k, first + picked)
    ensures k == key && NonePicked(k, picked) && queue == first + left ==> TakenFromFront(queue, k, first + picked, left)
  {
    OfStratumConcat(first, picked, k);
    OfOneStratum(first, key, k);
    var all := OfStratum(first + picked, k);
    if k != key {
      assert all == [] + OfStratum(picked, k) == OfStratum(picked, k);
    } else if OfStratum(picked, k) == [] {
      assert all == first + [] == first;
    }
  }

  lemma LeftStaysFiled(queues: seq<Queue>, keys: seq<Stratum>, picked: seq<WedgeSignal>, left: seq<Queue>)
    requires Filed(queues, keys) && Fronts(queues, keys, picked, left)
    ensures Filed(left, keys)
  {
    forall i, x | 0 <= i < |left| && x in left[i] ensures StratumOf(x) == keys[i] {
      assert TakenFromFront(queues[i], keys[i], picked, left[i]);
      assert x in queues[i];
    }
  }

  lemma {:induction false} TurnTakesFronts(queues: seq<Queue>, keys: seq<Stratum>, wanted: nat)
    requires Filed(queues, keys) && NoDuplicates(keys)
    ensures Fronts(queues, keys, Turn(queues, wanted).0, Turn(queues, wanted).1)
  {
    if queues != [] && wanted > 0 {
      var w := if queues[0] == [] then wanted else wanted - 1;
      var (picked, left) := Turn(queues[1..], w);
      forall i, x | 0 <= i < |queues[1..]| && x in queues[1..][i] ensures StratumOf(x) == keys[1..][i] {
        assert x in queues[i + 1];
      }
      TurnTakesFronts(queues[1..], keys[1..], w);
      assert keys[0] !in keys[1..];
      if queues[0] == [] {
        FrontOfFirst(queues, keys, [], [], picked, left);
      } else {
        var h := queues[0][0];
        assert h in queues[0];
        FrontOfFirst(queues, keys, [h], queues[0][1..], picked, left);
      }
    }
  }

  lemma FrontOfFirst(queues: seq<Queue>, keys: seq<Stratum>, first: Queue, kept: Queue, picked: seq<WedgeSignal>, left: seq<Queue>)
    requires |queues| == |keys| && keys != [] && keys[0] !in keys[1..]
    requires queues[0] == first + kept && forall x :: x in first ==> StratumOf(x) == keys[0]
    requires Fronts(queues[1..], keys[1..], picked, left)
    ensures Fronts(queues, keys, first + picked, [kept] + left)
  {
    assert NonePicked(keys[0], picked);
    forall k | k !in keys ensures NonePicked(k, first + picked) {
      assert NonePicked(k, picked);
      FirstAddsUp(first, keys[0], k, [], picked, []);
    }
    forall i | 0 <= i < |keys| ensures TakenFromFront(queues[i], keys[i], first + picked, ([kept] + left)[i]) {
      if i > 0 {
        assert TakenFromFront(queues[1..][i - 1], keys[1..][i - 1], picked, left[i - 1]);
        assert keys[i] in keys[1..];
      }
      FirstAddsUp(first, keys[0], keys[i], queues[i], picked, ([kept] + left)[i]);
    }
  }

  lemma FrontsAddUp(queues: seq<Queue>, keys: seq<Stratum>, picked: seq<WedgeSignal>, left: seq<Queue>,
                    more: seq<WedgeSignal>, final: seq<Queue>)
    requires Fronts(queues, keys, picked, left) && Fronts(left, keys, more, final)
    ensures Fronts(queues, keys, picked + more, final)
  {
    forall k | k !in keys ensures NonePicked(k, picked + more) {
      PickedAddUp([], k, picked, [], more, []);
    }
    forall i | 0 <= i < |keys| ensures TakenFromFront(queues[i], keys[i], picked + more, final[i]) {
      PickedAddUp(queues[i], keys[i], picked, left[i], more, final[i]);
    }
  }

  lemma NothingTaken(queues: seq<Queue>, keys: seq<Stratum>)
    requires |queues| == |keys|
    ensures Fronts(queues, keys, [], queues)
  {
    forall i | 0 <= i < |keys| ensures TakenFromFront(queues[i], keys[i], [], queues[i]) {
    }
  }

  lemma TurnThenDeal(queues: seq<Queue>, keys: seq<Stratum>, turn: (seq<WedgeSignal>, seq<Queue>), wanted: nat)
    requires |turn.0| <= wanted && Fronts(queues, keys, turn.0, turn.1)
    requires var rest := Deal(turn.1, wanted - |turn.0|); Fronts(turn.1, keys, rest.0, rest.1)
    ensures Fronts(queues, keys, DealOn(turn, wanted).0, DealOn(turn, wanted).1)
  {
    var rest := Deal(turn.1, wanted - |turn.0|);
    FrontsAddUp(queues, keys, turn.0, turn.1, rest.0, rest.1);
  }

  lemma {:induction false} DealTakesFronts(queues: seq<Queue>, keys: seq<Stratum>, wanted: nat)
    requires Filed(queues, keys) && NoDuplicates(keys)
    ensures Fronts(queues, keys, Deal(queues, wanted).0, Deal(queues, wanted).1)
    decreases Size(queues)
  {
    if wanted == 0 || AllEmpty(queues) {
      NothingTaken(queues, keys);
    } else {
      var turn := Turn(queues, wanted);
      DealOneTurn(queues, wanted, turn);
      TurnTakesFronts(queues, keys, wanted);
      LeftStaysFiled(queues, keys, turn.0, turn.1);
      DealTakesFronts(turn.1, keys, wanted - |turn.0|);
      TurnThenDeal(queues, keys, turn, wanted);
    }
  }
}
