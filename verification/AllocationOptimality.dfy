/** What the one-unit moves achieve. When every cell of the envelope has a usable score in one currency,
    the loop proposes nothing exactly when no allocation is better; and under fixed scores only a bounded
    number of moves can ever be applied. */
module AllocationOptimality {
  import opened Wrappers
  import opened LearningContracts
  import opened Candidates

  type Weights = map<Cell, real>

  ghost predicate Weighted(cells: seq<AllocationCell>, w: Weights) {
    forall b :: b in cells ==> b.cell in w
  }

  /** `units * score`, as the score added once per unit. */
  ghost function Worth(units: nat, score: real): real {
    if units == 0 then 0.0 else Worth(units - 1, score) + score
  }

  /** Units times score, added over the cells. */
  ghost function Value(cells: seq<AllocationCell>, a: Allocation, w: Weights): real
    requires Covers(cells, a) && Weighted(cells, w)
  {
    if cells == [] then 0.0
    else Worth(a[cells[0].cell], w[cells[0].cell]) + Value(cells[1..], a, w)
  }

  lemma {:induction false} WorthIsTheProduct(units: nat, score: real)
    ensures Worth(units, score) == units as real * score
  {
    if units > 0 {
      WorthIsTheProduct(units - 1, score);
      assert units as real * score == (units - 1) as real * score + score;
    }
  }

  lemma {:induction false} WorthAdds(m: nat, n: nat, score: real)
    ensures Worth(m + n, score) == Worth(m, score) + Worth(n, score)
  {
    if n > 0 {
      WorthAdds(m, n - 1, score);
    }
  }

  lemma {:induction false} WorthMonotone(n: nat, x: real, y: real)
    requires x <= y
    ensures Worth(n, x) <= Worth(n, y)
  {
    if n > 0 {
      WorthMonotone(n - 1, x, y);
    }
  }

  ghost predicate ScoredAs(scores: seq<EconomicScore>, c: Cell, score: real) {
    exists s :: s in scores && s.cell == c && s.status == Ready && s.score == score
  }

  /** Every envelope cell has one usable score, `w` collects them, and they share a currency. */
  ghost predicate FullyScored(e: Envelope, scores: seq<EconomicScore>, w: Weights) {
    && DistinctScores(scores)
    && Weighted(e.cells, w)
    && (forall b :: b in e.cells ==> ScoredAs(scores, b.cell, w[b.cell]))
    && (forall s, t :: s in scores && t in scores && s.cell in CellSet(e.cells) && t.cell in CellSet(e.cells)
          ==> s.currency == t.currency)
  }

  ghost predicate Optimal(e: Envelope, a: Allocation, w: Weights)
    requires ValidAllocation(e, a) && Weighted(e.cells, w)
  {
    forall b :: ValidAllocation(e, b) ==> Value(e.cells, b, w) <= Value(e.cells, a, w)
  }

  /** A unit may go from `d` to `r` and that raises the value. */
  ghost predicate Improving(a: Allocation, w: Weights, d: AllocationCell, r: AllocationCell)
    requires d.cell in a && r.cell in a && d.cell in w && r.cell in w
  {
    w[d.cell] < w[r.cell] && d.minimumUnits < a[d.cell] && a[r.cell] < r.maximumUnits
  }

  lemma ScoreOfCell(e: Envelope, scores: seq<EconomicScore>, w: Weights, s: EconomicScore)
    requires FullyScored(e, scores, w) && s in scores && s.cell in CellSet(e.cells)
    ensures s.status == Ready && s.cell in w && s.score == w[s.cell]
    ensures s.cell in Bounds(e) && Bounds(e)[s.cell] in e.cells && Bounds(e)[s.cell].cell == s.cell
  {
    var b :| b in e.cells && b.cell == s.cell;
    var t :| t in scores && t.cell == b.cell && t.status == Ready && t.score == w[b.cell];
    assert s == t;
    BoundsOfCell(e, b);
  }

  lemma LegalMoveImproves(e: Envelope, a: Allocation, scores: seq<EconomicScore>, w: Weights, m: Move)
    requires Compatible(e, a) && FullyScored(e, scores, w) && LegalMove(e, a, scores, m)
    ensures !NoImprovingPair(e.cells, a, w)
  {
    var d, r :| d in scores && r in scores && Usable(a, d) && Usable(a, r)
      && Admissible(e, a, d, r) && m == Move(r.score - d.score, d.cell, r.cell);
    ScoreOfCell(e, scores, w, d);
    ScoreOfCell(e, scores, w, r);
    assert Improving(a, w, Bounds(e)[d.cell], Bounds(e)[r.cell]);
  }

  lemma ImprovingPairIsLegal(
    e: Envelope, a: Allocation, scores: seq<EconomicScore>, w: Weights, d: AllocationCell, r: AllocationCell)
    requires Compatible(e, a) && FullyScored(e, scores, w)
    requires d in e.cells && r in e.cells && Improving(a, w, d, r)
    ensures exists m :: LegalMove(e, a, scores, m)
  {
    var x :| x in scores && x.cell == d.cell && x.status == Ready && x.score == w[d.cell];
    var y :| y in scores && y.cell == r.cell && y.status == Ready && y.score == w[r.cell];
    BoundsOfCell(e, d);
    BoundsOfCell(e, r);
    assert Admissible(e, a, x, y);
    assert LegalMove(e, a, scores, Move(y.score - x.score, x.cell, y.cell));
  }

  // ---------- exchange argument ----------

  ghost predicate NoImprovingPair(cells: seq<AllocationCell>, a: Allocation, w: Weights)
    requires Covers(cells, a) && Weighted(cells, w)
  {
    forall d, r :: d in cells && r in cells ==> !Improving(a, w, d, r)
  }

  /** Without an improving pair one score separates the cells that can still receive from those that
      can still give. */
  lemma {:induction false} Threshold(cells: seq<AllocationCell>, a: Allocation, w: Weights) returns (t: real)
    requires Covers(cells, a) && Weighted(cells, w) && NoImprovingPair(cells, a, w)
    ensures forall b :: b in cells ==>
      (a[b.cell] < b.maximumUnits ==> w[b.cell] <= t) && (b.minimumUnits < a[b.cell] ==> t <= w[b.cell])
  {
    t := 0.0;
    if cells != [] {
      var h, rest := cells[0], cells[1..];
      t := Threshold(rest, a, w);
      if rest == [] || (a[h.cell] < h.maximumUnits && t < w[h.cell]) || (h.minimumUnits < a[h.cell] && w[h.cell] < t) {
        var s := w[h.cell];
        forall b | b in rest
          ensures (a[b.cell] < b.maximumUnits ==> w[b.cell] <= s) && (b.minimumUnits < a[b.cell] ==> s <= w[b.cell])
        {
          assert !Improving(a, w, b, h) && !Improving(a, w, h, b);
        }
        t := s;
      }
      assert forall b :: b in cells <==> b == h || b in rest;
    }
  }

  lemma CellDominates(x: nat, y: nat, score: real, t: real)
    requires (x < y ==> score <= t) && (y < x ==> t <= score)
    ensures Worth(y, score) - Worth(y, t) <= Worth(x, score) - Worth(x, t)
  {
    if x < y {
      WorthAdds(x, y - x, score);
      WorthAdds(x, y - x, t);
      WorthMonotone(y - x, score, t);
    } else {
      WorthAdds(y, x - y, score);
      WorthAdds(y, x - y, t);
      if y < x { WorthMonotone(x - y, t, score); }
    }
  }

  lemma {:induction false} ThresholdDominates(
    cells: seq<AllocationCell>, a: Allocation, b: Allocation, w: Weights, t: real)
    requires Covers(cells, a) && Covers(cells, b) && Weighted(cells, w)
    requires forall c :: c in cells ==>
      && (a[c.cell] < b[c.cell] ==> w[c.cell] <= t)
      && (b[c.cell] < a[c.cell] ==> t <= w[c.cell])
    ensures Value(cells, b, w) - Worth(Units(cells, b), t) <= Value(cells, a, w) - Worth(Units(cells, a), t)
  {
    if cells != [] {
      var c, rest := cells[0].cell, cells[1..];
      ThresholdDominates(rest, a, b, w, t);
      CellDominates(a[c], b[c], w[c], t);
      WorthAdds(a[c], Units(rest, a), t);
      WorthAdds(b[c], Units(rest, b), t);
    }
  }

  lemma NoImprovingPairIsOptimal(e: Envelope, a: Allocation, w: Weights)
    requires ValidAllocation(e, a) && Weighted(e.cells, w) && NoImprovingPair(e.cells, a, w)
    ensures Optimal(e, a, w)
  {
    var t := Threshold(e.cells, a, w);
    forall b | ValidAllocation(e, b) ensures Value(e.cells, b, w) <= Value(e.cells, a, w) {
      ThresholdDominates(e.cells, a, b, w, t);
    }
  }

  // ---------- a move raises the value by the difference of scores ----------

  lemma {:induction false} ValueFrame(cells: seq<AllocationCell>, a: Allocation, b: Allocation, w: Weights)
    requires Covers(cells, a) && Covers(cells, b) && Weighted(cells, w)
    requires forall x :: x in cells ==> a[x.cell] == b[x.cell]
    ensures Value(cells, a, w) == Value(cells, b, w)
  {
    if cells != [] {
      ValueFrame(cells[1..], a, b, w);
    }
  }

  lemma {:induction false} ValueAfterOneChange(cells: seq<AllocationCell>, a: Allocation, w: Weights, c: Cell, v: nat)
    requires DistinctCells(cells) && Covers(cells, a) && Weighted(cells, w) && c in CellSet(cells)
    ensures Value(cells, a[c := v], w) == Value(cells, a, w) + Worth(v, w[c]) - Worth(a[c], w[c])
  {
    var rest := cells[1..];
    if cells[0].cell == c {
      assert forall b :: b in rest ==> b.cell != c;
      ValueFrame(rest, a, a[c := v], w);
    } else {
      assert c in CellSet(rest) by {
        var b :| b in cells && b.cell == c;
        assert b in rest;
      }
      ValueAfterOneChange(rest, a, w, c, v);
    }
  }

  lemma TwoChanges(cells: seq<AllocationCell>, a: Allocation, w: Weights, d: Cell, r: Cell)
    requires DistinctCells(cells) && Covers(cells, a) && Weighted(cells, w)
    requires d in CellSet(cells) && r in CellSet(cells) && d != r && a[d] > 0
    ensures Value(cells, a[d := a[d] - 1][r := a[r] + 1], w) == Value(cells, a, w) + w[r] - w[d]
  {
    ValueAfterOneChange(cells, a, w, d, a[d] - 1);
    ValueAfterOneChange(cells, a[d := a[d] - 1], w, r, a[r] + 1);
  }

  lemma ShiftValue(e: Envelope, a: Allocation, w: Weights, d: Cell, r: Cell)
    requires Compatible(e, a) && Weighted(e.cells, w)
    requires d in a && r in a && d != r && a[d] > 0
    ensures d in w && r in w && Compatible(e, Shift(a, d, r))
    ensures Value(e.cells, Shift(a, d, r), w) == Value(e.cells, a, w) + w[r] - w[d]
  {
    ShiftKeepsUnits(e, a, d, r);
    TwoChanges(e.cells, a, w, d, r);
  }

  lemma ImprovedIsValid(e: Envelope, a: Allocation, w: Weights, d: AllocationCell, r: AllocationCell)
    requires ValidAllocation(e, a) && Weighted(e.cells, w)
    requires d in e.cells && r in e.cells && Improving(a, w, d, r)
    ensures ValidAllocation(e, Shift(a, d.cell, r.cell))
    ensures Value(e.cells, Shift(a, d.cell, r.cell), w) > Value(e.cells, a, w)
  {
    ShiftValue(e, a, w, d.cell, r.cell);
    forall x | x in e.cells ensures x.minimumUnits <= Shift(a, d.cell, r.cell)[x.cell] <= x.maximumUnits {
    }
  }

  lemma OptimalHasNoImprovingPair(e: Envelope, a: Allocation, w: Weights)
    requires ValidAllocation(e, a) && Weighted(e.cells, w) && Optimal(e, a, w)
    ensures NoImprovingPair(e.cells, a, w)
  {
    forall d, r | d in e.cells && r in e.cells ensures !Improving(a, w, d, r) {
      if Improving(a, w, d, r) { ImprovedIsValid(e, a, w, d, r); }
    }
  }

  /** Only NO_CHANGE is proposed exactly when the current allocation is worth at least as much as every
      other allocation of the same units within the same bounds. */
  lemma NothingProposedIffOptimal(
    s: SnapshotRef, e: Envelope, scores: seq<EconomicScore>, w: Weights, baseline: Authority, a: Allocation)
    requires ValidAllocation(e, a) && FullyScored(e, scores, w)
    ensures Generate(s, e, scores, baseline, a) == Success([NoChangeCandidate(s, a, baseline)])
      <==> Optimal(e, a, w)
  {
    var only := NoChangeCandidate(s, a, baseline);
    var best := BestMoves(e, a, scores);
    var shifts := ShiftCandidates(s, a, baseline, best);
    assert [only] + shifts == [only] <==> shifts == [] by {
      assert |[only] + shifts| == 1 + |shifts|;
    }
    NoMovesMeansNoLegalMove(e, a, scores);
    if NoImprovingPair(e.cells, a, w) {
      NoImprovingPairIsOptimal(e, a, w);
      forall m ensures !LegalMove(e, a, scores, m) {
        if LegalMove(e, a, scores, m) {
          LegalMoveImproves(e, a, scores, w, m);
        }
      }
    } else {
      var d, r :| d in e.cells && r in e.cells && Improving(a, w, d, r);
      ImprovingPairIsLegal(e, a, scores, w, d, r);
      if Optimal(e, a, w) {
        OptimalHasNoImprovingPair(e, a, w);
      }
    }
  }

  // ---------- the number of moves ----------

  ghost function CountBelow(cells: seq<AllocationCell>, w: Weights, x: real): nat
    requires Weighted(cells, w)
  {
    if cells == [] then 0
    else (if w[cells[0].cell] < x then 1 else 0) + CountBelow(cells[1..], w, x)
  }

  lemma {:induction false} CountBelowMonotone(cells: seq<AllocationCell>, w: Weights, x: real, y: real)
    requires Weighted(cells, w) && x <= y
    ensures CountBelow(cells, w, x) <= CountBelow(cells, w, y) <= |cells|
    ensures (exists b :: b in cells && x <= w[b.cell] < y) ==> CountBelow(cells, w, x) < CountBelow(cells, w, y)
    ensures (exists b :: b in cells && y <= w[b.cell]) ==> CountBelow(cells, w, y) < |cells|
  {
    if cells != [] {
      CountBelowMonotone(cells[1..], w, x, y);
      assert forall b :: b in cells <==> b == cells[0] || b in cells[1..];
    }
  }

  /** How many cells score strictly less. */
  ghost function Ranks(e: Envelope, w: Weights): Weights
    requires Weighted(e.cells, w)
  {
    map b | b in e.cells :: b.cell := CountBelow(e.cells, w, w[b.cell]) as real
  }

  lemma RankOfCell(e: Envelope, w: Weights, b: AllocationCell)
    requires Weighted(e.cells, w) && b in e.cells
    ensures b.cell in Ranks(e, w) && 0.0 <= Ranks(e, w)[b.cell] <= (|e.cells| - 1) as real
  {
    CountBelowMonotone(e.cells, w, w[b.cell], w[b.cell]);
  }

  lemma {:induction false} WorthOfNatural(m: nat, n: nat)
    ensures Worth(m, n as real) == (n * m) as real
  {
    if m > 0 {
      WorthOfNatural(m - 1, n);
      assert n * m == n * (m - 1) + n;
    }
  }

  lemma {:induction false} ValueBetween(cells: seq<AllocationCell>, a: Allocation, w: Weights, hi: real)
    requires Covers(cells, a) && Weighted(cells, w)
    requires forall b :: b in cells ==> 0.0 <= w[b.cell] <= hi
    ensures 0.0 <= Value(cells, a, w) <= Worth(Units(cells, a), hi)
  {
    if cells != [] {
      var c := cells[0].cell;
      ValueBetween(cells[1..], a, w, hi);
      WorthMonotone(a[c], w[c], hi);
      WorthMonotone(a[c], 0.0, w[c]);
      WorthOfNatural(a[c], 0);
      WorthAdds(a[c], Units(cells[1..], a), hi);
    }
  }

  /** One applied move under the scores `w`. */
  ghost predicate Climb(e: Envelope, w: Weights, a: Allocation, b: Allocation) {
    exists d, r :: d in a && r in a && d in w && r in w && a[d] > 0 && w[d] < w[r] && b == Shift(a, d, r)
  }

  ghost predicate Climbs(e: Envelope, w: Weights, path: seq<Allocation>) {
    && 0 < |path| && Compatible(e, path[0])
    && forall i :: 0 <= i < |path| - 1 ==> Climb(e, w, path[i], path[i + 1])
  }

  lemma RankRises(e: Envelope, w: Weights, d: Cell, r: Cell)
    requires Weighted(e.cells, w) && d in CellSet(e.cells) && r in CellSet(e.cells) && w[d] < w[r]
    ensures Ranks(e, w)[d] + 1.0 <= Ranks(e, w)[r]
  {
    var donor :| donor in e.cells && donor.cell == d;
    CountBelowMonotone(e.cells, w, w[d], w[r]);
  }

  lemma ClimbRaises(e: Envelope, w: Weights, a: Allocation, b: Allocation)
    requires Weighted(e.cells, w) && Compatible(e, a) && Climb(e, w, a, b)
    ensures Compatible(e, b)
    ensures Value(e.cells, a, w) < Value(e.cells, b, w)
    ensures Value(e.cells, a, Ranks(e, w)) + 1.0 <= Value(e.cells, b, Ranks(e, w))
  {
    var d, r :| d in a && r in a && d in w && r in w && a[d] > 0 && w[d] < w[r] && b == Shift(a, d, r);
    ShiftValue(e, a, w, d, r);
    ShiftValue(e, a, Ranks(e, w), d, r);
    RankRises(e, w, d, r);
  }

  lemma {:induction false} ClimbsRaise(e: Envelope, w: Weights, path: seq<Allocation>)
    requires Weighted(e.cells, w) && Climbs(e, w, path)
    ensures var last := path[|path| - 1];
      && Compatible(e, last)
      && Value(e.cells, path[0], Ranks(e, w)) + (|path| - 1) as real <= Value(e.cells, last, Ranks(e, w))
      && (|path| > 1 ==> Value(e.cells, path[0], w) < Value(e.cells, last, w))
    decreases |path|
  {
    if |path| > 1 {
      var init := path[..|path| - 1];
      assert Climbs(e, w, init);
      ClimbsRaise(e, w, init);
      ClimbRaises(e, w, init[|init| - 1], path[|path| - 1]);
    }
  }

  /** Under fixed scores every run of moves makes at most (cells - 1) * total_daily_units moves. */
  lemma ValueIsBounded(e: Envelope, w: Weights, a: Allocation, top: nat)
    requires Weighted(e.cells, w) && Compatible(e, a)
    requires forall b :: b in e.cells ==> 0.0 <= w[b.cell] <= top as real
    ensures 0.0 <= Value(e.cells, a, w) <= (top * e.totalDailyUnits) as real
  {
    ValueBetween(e.cells, a, w, top as real);
    WorthOfNatural(e.totalDailyUnits, top);
  }

  lemma RankValueIsBounded(e: Envelope, w: Weights, a: Allocation, top: nat)
    requires Weighted(e.cells, w) && Compatible(e, a) && |e.cells| == top + 1
    ensures 0.0 <= Value(e.cells, a, Ranks(e, w)) <= (top * e.totalDailyUnits) as real
  {
    forall b | b in e.cells ensures 0.0 <= Ranks(e, w)[b.cell] <= top as real {
      RankOfCell(e, w, b);
    }
    ValueIsBounded(e, Ranks(e, w), a, top);
  }

  lemma ClimbsAreBounded(e: Envelope, w: Weights, path: seq<Allocation>)
    requires Weighted(e.cells, w) && Climbs(e, w, path)
    ensures |path| - 1 <= (|e.cells| - 1) * e.totalDailyUnits
  {
    ClimbsRaise(e, w, path);
    var top, last := |e.cells| - 1, path[|path| - 1];
    RankValueIsBounded(e, w, path[0], top);
    RankValueIsBounded(e, w, last, top);
    StepsFit(Value(e.cells, path[0], Ranks(e, w)), Value(e.cells, last, Ranks(e, w)), |path| - 1, top * e.totalDailyUnits);
  }

  lemma StepsFit(first: real, last: real, steps: int, bound: int)
    requires 0.0 <= first && first + steps as real <= last && last <= bound as real
    ensures steps <= bound
  {
  }

  lemma CompatibleAlong(e: Envelope, w: Weights, path: seq<Allocation>, i: nat)
    requires Weighted(e.cells, w) && Climbs(e, w, path) && i < |path|
    ensures Compatible(e, path[i])
  {
    var front := path[..i + 1];
    assert Climbs(e, w, front);
    ClimbsRaise(e, w, front);
  }

  lemma ClimbsFromHere(e: Envelope, w: Weights, path: seq<Allocation>, i: nat, j: nat)
    requires Weighted(e.cells, w) && Climbs(e, w, path) && i < j < |path|
    ensures Compatible(e, path[i]) && Climbs(e, w, path[i..j + 1])
  {
    CompatibleAlong(e, w, path, i);
    var part := path[i..j + 1];
    forall k | 0 <= k < |part| - 1 ensures Climb(e, w, part[k], part[k + 1]) {
      assert part[k] == path[i + k] && part[k + 1] == path[i + k + 1];
    }
  }

  /** Later allocations of a run are worth strictly more. */
  lemma ClimbsStrictlyRaise(e: Envelope, w: Weights, path: seq<Allocation>, i: nat, j: nat)
    requires Weighted(e.cells, w) && Climbs(e, w, path) && i < j < |path|
    ensures Compatible(e, path[i]) && Compatible(e, path[j])
    ensures Value(e.cells, path[i], w) < Value(e.cells, path[j], w)
  {
    ClimbsFromHere(e, w, path, i, j);
    ClimbsRaise(e, w, path[i..j + 1]);
  }
}
