/** Generation of the bounded one-unit reallocation candidates. */
module Candidates {
  import opened Wrappers
  import opened Ordering
  import opened LearningContracts

  const MAX_MOVES := 4

  datatype Move = Move(gain: real, donor: Cell, receiver: Cell)

  /** The sort key of the program: larger gain first, then donor key, then receiver key. */
  predicate MoveLeq(a: Move, b: Move) {
    || a.gain > b.gain
    || (a.gain == b.gain &&
        if a.donor.Key() == b.donor.Key() then StringLeq(a.receiver.Key(), b.receiver.Key())
        else StringLeq(a.donor.Key(), b.donor.Key()))
  }

  predicate Usable(a: Allocation, s: EconomicScore) {
    s.status == Ready && s.cell in a
  }

  /** Every cell of the envelope has its units, and they add up to the daily total. */
  predicate Compatible(e: Envelope, a: Allocation) {
    a.Keys == CellSet(e.cells) && Units(e.cells, a) == e.totalDailyUnits
  }

  predicate Admissible(e: Envelope, a: Allocation, donor: EconomicScore, receiver: EconomicScore)
    requires Compatible(e, a) && Usable(a, donor) && Usable(a, receiver)
  {
    && donor.cell != receiver.cell && donor.currency == receiver.currency
    && donor.score < receiver.score
    && Bounds(e)[donor.cell].minimumUnits < a[donor.cell]
    && a[receiver.cell] < Bounds(e)[receiver.cell].maximumUnits
  }

  /** The legal moves, said without any order: a pair of usable scores that may exchange a unit. */
  ghost predicate LegalMove(e: Envelope, a: Allocation, scores: seq<EconomicScore>, m: Move)
    requires Compatible(e, a)
  {
    exists d, r ::
      && d in scores && r in scores && Usable(a, d) && Usable(a, r)
      && Admissible(e, a, d, r) && m == Move(r.score - d.score, d.cell, r.cell)
  }

  function Shift(a: Allocation, donor: Cell, receiver: Cell): Allocation {
    if donor in a && receiver in a && a[donor] > 0
    then var taken := a[donor := a[donor] - 1]; taken[receiver := taken[receiver] + 1]
    else a
  }

  function NoChangeCandidate(s: SnapshotRef, a: Allocation, baseline: Authority): Candidate {
    Candidate(ProposalRef(s, NoChange, None, None, a, a, baseline), s, NoChange, a, a, baseline,
      None, None, 0, 0.0)
  }

  function ShiftCandidate(s: SnapshotRef, a: Allocation, baseline: Authority, m: Move): Candidate {
    var proposed := Shift(a, m.donor, m.receiver);
    Candidate(ProposalRef(s, ShiftOneUnit, Some(m.donor), Some(m.receiver), a, proposed, baseline),
      s, ShiftOneUnit, a, proposed, baseline, Some(m.donor), Some(m.receiver), 1, m.gain)
  }

  // ---------- specification of the generator ----------

  function UsableScores(a: Allocation, scores: seq<EconomicScore>): seq<EconomicScore>
    ensures forall s :: s in UsableScores(a, scores) <==> s in scores && Usable(a, s)
  {
    if scores == [] then []
    else UsableScores(a, scores[..|scores| - 1])
         + if Usable(a, scores[|scores| - 1]) then [scores[|scores| - 1]] else []
  }

  ghost predicate AllUsable(a: Allocation, scores: seq<EconomicScore>) {
    forall s :: s in scores ==> Usable(a, s)
  }

  ghost function MovesOf(e: Envelope, a: Allocation, d: EconomicScore, rs: seq<EconomicScore>): seq<Move>
    requires Compatible(e, a) && Usable(a, d) && AllUsable(a, rs)
  {
    if rs == [] then [] else
      var r := rs[|rs| - 1];
      MovesOf(e, a, d, rs[..|rs| - 1])
      + if Admissible(e, a, d, r) then [Move(r.score - d.score, d.cell, r.cell)] else []
  }

  ghost function AllMoves(e: Envelope, a: Allocation, ds: seq<EconomicScore>, rs: seq<EconomicScore>): seq<Move>
    requires Compatible(e, a) && AllUsable(a, ds) && AllUsable(a, rs)
  {
    if ds == [] then []
    else AllMoves(e, a, ds[..|ds| - 1], rs) + MovesOf(e, a, ds[|ds| - 1], rs)
  }

  function Take(moves: seq<Move>, n: nat): seq<Move> {
    if |moves| <= n then moves else moves[..n]
  }

  ghost function BestMoves(e: Envelope, a: Allocation, scores: seq<EconomicScore>): seq<Move>
    requires Compatible(e, a)
  {
    var ready := UsableScores(a, scores);
    Take(Sort(AllMoves(e, a, ready, ready), MoveLeq), MAX_MOVES)
  }

  function ShiftCandidates(s: SnapshotRef, a: Allocation, baseline: Authority, moves: seq<Move>): seq<Candidate> {
    seq(|moves|, i requires 0 <= i < |moves| => ShiftCandidate(s, a, baseline, moves[i]))
  }

  ghost function Generate(s: SnapshotRef, e: Envelope, scores: seq<EconomicScore>, baseline: Authority, a: Allocation)
    : Result<seq<Candidate>, LearningError>
  {
    if !Compatible(e, a) then Failure(IncompatibleAllocation)
    else Success([NoChangeCandidate(s, a, baseline)] + ShiftCandidates(s, a, baseline, BestMoves(e, a, scores)))
  }

  // ---------- the generator itself ----------

  method GenerateCandidates(s: SnapshotRef, e: Envelope, scores: seq<EconomicScore>, baseline: Authority, a: Allocation)
    returns (r: Result<seq<Candidate>, LearningError>)
    ensures r == Generate(s, e, scores, baseline, a)
  {
    if !Compatible(e, a) {
      return Failure(IncompatibleAllocation);
    }
    var ready := UsableScores(a, scores);
    var moves: seq<Move> := [];
    for i := 0 to |ready|
      invariant moves == AllMoves(e, a, ready[..i], ready)
    {
      var found := MovesForDonor(e, a, ready[i], ready);
      assert ready[..i + 1][..i] == ready[..i];
      moves := moves + found;
    }
    assert ready[..|ready|] == ready;
    r := Success([NoChangeCandidate(s, a, baseline)]
                 + ShiftCandidates(s, a, baseline, Take(Sort(moves, MoveLeq), MAX_MOVES)));
  }

  /** The inner loop of the generator. */
  method MovesForDonor(e: Envelope, a: Allocation, donor: EconomicScore, ready: seq<EconomicScore>)
    returns (moves: seq<Move>)
    requires Compatible(e, a) && Usable(a, donor) && AllUsable(a, ready)
    ensures moves == MovesOf(e, a, donor, ready)
  {
    moves := [];
    for j := 0 to |ready|
      invariant moves == MovesOf(e, a, donor, ready[..j])
    {
      var receiver := ready[j];
      assert ready[..j + 1][..j] == ready[..j] && Usable(a, receiver);
      if donor.cell == receiver.cell || donor.currency != receiver.currency { continue; }
      if receiver.score <= donor.score { continue; }
      if a[donor.cell] <= Bounds(e)[donor.cell].minimumUnits { continue; }
      if a[receiver.cell] >= Bounds(e)[receiver.cell].maximumUnits { continue; }
      moves := moves + [Move(receiver.score - donor.score, donor.cell, receiver.cell)];
    }
    assert ready[..|ready|] == ready;
  }

  // ---------- the sort key orders moves totally ----------

  lemma MoveLeqTotal(x: Move, y: Move)
    ensures MoveLeq(x, y) || MoveLeq(y, x)
    ensures MoveLeq(x, y) && MoveLeq(y, x) ==> x == y
  {
    StringLeqTotal(x.donor.Key(), y.donor.Key());
    StringLeqTotal(x.receiver.Key(), y.receiver.Key());
    if MoveLeq(x, y) && MoveLeq(y, x) {
      if x.donor.Key() != y.donor.Key() {
        StringLeqAntisymmetric(x.donor.Key(), y.donor.Key());
      }
      StringLeqAntisymmetric(x.receiver.Key(), y.receiver.Key());
      KeyIdentifiesCell(x.donor, y.donor);
      KeyIdentifiesCell(x.receiver, y.receiver);
    }
  }

  lemma MoveLeqTransitive(x: Move, y: Move, z: Move)
    requires MoveLeq(x, y) && MoveLeq(y, z)
    ensures MoveLeq(x, z)
  {
    if x.gain == y.gain == z.gain {
      var dx, dy, dz := x.donor.Key(), y.donor.Key(), z.donor.Key();
      if dx == dy == dz {
        StringLeqTransitive(x.receiver.Key(), y.receiver.Key(), z.receiver.Key());
      } else {
        if dx == dz {
          StringLeqAntisymmetric(dx, dy);
        } else if dx != dy && dy != dz {
          StringLeqTransitive(dx, dy, dz);
        }
      }
    }
  }

  lemma MoveOrder()
    ensures IsPreorder(MoveLeq)
    ensures forall s :: Separates(s, MoveLeq)
  {
    forall x, y ensures (MoveLeq(x, y) || MoveLeq(y, x)) && (MoveLeq(x, y) && MoveLeq(y, x) ==> x == y) {
      MoveLeqTotal(x, y);
    }
    forall x, y, z | MoveLeq(x, y) && MoveLeq(y, z) ensures MoveLeq(x, z) {
      MoveLeqTransitive(x, y, z);
    }
  }

  // ---------- which moves are listed ----------

  lemma {:induction false} MovesOfMembers(e: Envelope, a: Allocation, d: EconomicScore, rs: seq<EconomicScore>, m: Move)
    requires Compatible(e, a) && Usable(a, d) && AllUsable(a, rs)
    ensures m in MovesOf(e, a, d, rs) <==>
      exists r :: r in rs && Admissible(e, a, d, r) && m == Move(r.score - d.score, d.cell, r.cell)
  {
    if rs != [] {
      MovesOfMembers(e, a, d, rs[..|rs| - 1], m);
      assert rs == rs[..|rs| - 1] + [rs[|rs| - 1]];
    }
  }

  lemma {:induction false} AllMovesMembers(e: Envelope, a: Allocation, ds: seq<EconomicScore>, rs: seq<EconomicScore>, m: Move)
    requires Compatible(e, a) && AllUsable(a, ds) && AllUsable(a, rs)
    ensures m in AllMoves(e, a, ds, rs) <==>
      exists d, r :: d in ds && r in rs && Admissible(e, a, d, r) && m == Move(r.score - d.score, d.cell, r.cell)
  {
    if ds != [] {
      AllMovesMembers(e, a, ds[..|ds| - 1], rs, m);
      MovesOfMembers(e, a, ds[|ds| - 1], rs, m);
      assert ds == ds[..|ds| - 1] + [ds[|ds| - 1]];
    }
  }

  lemma ListedMovesAreTheLegalOnes(e: Envelope, a: Allocation, scores: seq<EconomicScore>, m: Move)
    requires Compatible(e, a)
    ensures var ready := UsableScores(a, scores);
      m in AllMoves(e, a, ready, ready) <==> LegalMove(e, a, scores, m)
  {
    var ready := UsableScores(a, scores);
    AllMovesMembers(e, a, ready, ready, m);
  }

  ghost predicate DistinctScores(scores: seq<EconomicScore>) {
    forall i, j :: 0 <= i < j < |scores| ==> scores[i].cell != scores[j].cell
  }

  lemma {:induction false} UsableScoresDistinct(a: Allocation, scores: seq<EconomicScore>)
    requires DistinctScores(scores)
    ensures DistinctScores(UsableScores(a, scores))
  {
    if scores != [] {
      var init := UsableScores(a, scores[..|scores| - 1]);
      UsableScoresDistinct(a, scores[..|scores| - 1]);
      forall i | 0 <= i < |init| ensures init[i].cell != scores[|scores| - 1].cell {
        assert init[i] in init;
      }
    }
  }

  lemma {:induction false} MovesOfDistinct(e: Envelope, a: Allocation, d: EconomicScore, rs: seq<EconomicScore>)
    requires Compatible(e, a) && Usable(a, d) && AllUsable(a, rs) && DistinctScores(rs)
    ensures NoDuplicates(MovesOf(e, a, d, rs))
    ensures forall m :: m in MovesOf(e, a, d, rs) ==> m.donor == d.cell && exists r :: r in rs && r.cell == m.receiver
  {
    if rs != [] {
      MovesOfDistinct(e, a, d, rs[..|rs| - 1]);
    }
  }

  lemma {:induction false} AllMovesDistinct(e: Envelope, a: Allocation, ds: seq<EconomicScore>, rs: seq<EconomicScore>)
    requires Compatible(e, a) && AllUsable(a, ds) && AllUsable(a, rs)
    requires DistinctScores(ds) && DistinctScores(rs)
    ensures NoDuplicates(AllMoves(e, a, ds, rs))
    ensures forall m :: m in AllMoves(e, a, ds, rs) ==> exists d :: d in ds && d.cell == m.donor
  {
    if ds != [] {
      AllMovesDistinct(e, a, ds[..|ds| - 1], rs);
      MovesOfDistinct(e, a, ds[|ds| - 1], rs);
    }
  }

  // ---------- main results ----------

  lemma SortedMovesAreTheLegalOnes(e: Envelope, a: Allocation, scores: seq<EconomicScore>)
    requires Compatible(e, a) && DistinctScores(scores)
    ensures var ready := UsableScores(a, scores);
      var sorted := Sort(AllMoves(e, a, ready, ready), MoveLeq);
      && Sorted(sorted, MoveLeq) && NoDuplicates(sorted)
      && forall m :: m in sorted <==> LegalMove(e, a, scores, m)
  {
    var ready := UsableScores(a, scores);
    var all := AllMoves(e, a, ready, ready);
    MoveOrder();
    SortKeeps(all, MoveLeq);
    SortSorts(all, MoveLeq);
    UsableScoresDistinct(a, scores);
    AllMovesDistinct(e, a, ready, ready);
    SameMultisetNoDuplicates(all, Sort(all, MoveLeq));
    forall m ensures m in Sort(all, MoveLeq) <==> LegalMove(e, a, scores, m) {
      ListedMovesAreTheLegalOnes(e, a, scores, m);
    }
  }

  lemma TakeOfSorted(sorted: seq<Move>, n: nat)
    requires Sorted(sorted, MoveLeq) && NoDuplicates(sorted)
    ensures var best := Take(sorted, n);
      && Sorted(best, MoveLeq) && NoDuplicates(best) && |best| <= n
      && (forall m :: m in best ==> m in sorted)
      && (forall m :: m in sorted && m !in best ==>
            |best| == n && forall k :: 0 <= k < |best| ==> MoveLeq(best[k], m))
  {
  }

  /** The generator proposes the best moves: those it lists are legal, in order and without repetition,
      and a legal move is left out only when four are listed and each of them precedes it. */
  lemma BestMovesAreTheBest(e: Envelope, a: Allocation, scores: seq<EconomicScore>)
    requires Compatible(e, a) && DistinctScores(scores)
    ensures var best := BestMoves(e, a, scores);
      && Sorted(best, MoveLeq) && NoDuplicates(best) && |best| <= 4
      && (forall m :: m in best ==> LegalMove(e, a, scores, m))
      && (forall m :: LegalMove(e, a, scores, m) && m !in best ==>
            |best| == 4 && forall k :: 0 <= k < |best| ==> MoveLeq(best[k], m))
  {
    var ready := UsableScores(a, scores);
    SortedMovesAreTheLegalOnes(e, a, scores);
    TakeOfSorted(Sort(AllMoves(e, a, ready, ready), MoveLeq), MAX_MOVES);
  }

  /** The order in which the scores arrive does not change what is proposed. */
  lemma ScoreOrderIsIrrelevant(
    s: SnapshotRef, e: Envelope, xs: seq<EconomicScore>, ys: seq<EconomicScore>, baseline: Authority, a: Allocation)
    requires DistinctScores(xs) && multiset(xs) == multiset(ys)
    ensures Generate(s, e, xs, baseline, a) == Generate(s, e, ys, baseline, a)
  {
    if Compatible(e, a) {
      SameMultisetSameElements(xs, ys);
      DistinctScoresPermute(xs, ys);
      var rx, ry := UsableScores(a, xs), UsableScores(a, ys);
      var mx, my := AllMoves(e, a, rx, rx), AllMoves(e, a, ry, ry);
      UsableScoresDistinct(a, xs);
      UsableScoresDistinct(a, ys);
      AllMovesDistinct(e, a, rx, rx);
      AllMovesDistinct(e, a, ry, ry);
      forall m ensures m in mx <==> m in my {
        ListedMovesAreTheLegalOnes(e, a, xs, m);
        ListedMovesAreTheLegalOnes(e, a, ys, m);
      }
      NoDuplicatesSameElements(mx, my);
      MoveOrder();
      SortIgnoresArrival(mx, my, MoveLeq);
    }
  }

  lemma DistinctScoresPermute(xs: seq<EconomicScore>, ys: seq<EconomicScore>)
    requires DistinctScores(xs) && multiset(xs) == multiset(ys)
    ensures DistinctScores(ys)
  {
    SameMultisetSameElements(xs, ys);
    SameMultisetNoDuplicates(xs, ys);
    forall i, j | 0 <= i < j < |ys| ensures ys[i].cell != ys[j].cell {
      assert ys[i] in xs && ys[j] in xs;
    }
  }

  lemma {:induction false} UnitsAfterOneChange(cells: seq<AllocationCell>, a: Allocation, c: Cell, v: nat)
    requires DistinctCells(cells) && Covers(cells, a) && c in CellSet(cells)
    ensures Units(cells, a[c := v]) == Units(cells, a) - a[c] + v
  {
    var rest := cells[1..];
    if cells[0].cell == c {
      assert forall b :: b in rest ==> b.cell != c;
      UnitsFrame(rest, a, a[c := v]);
    } else {
      assert c in CellSet(rest) by {
        var b :| b in cells && b.cell == c;
        assert b in rest;
      }
      UnitsAfterOneChange(rest, a, c, v);
    }
  }

  lemma ShiftKeepsUnits(e: Envelope, a: Allocation, d: Cell, r: Cell)
    requires Compatible(e, a) && d in a && r in a && d != r && a[d] > 0
    ensures var b := Shift(a, d, r);
      && b == a[d := a[d] - 1][r := a[r] + 1]
      && Compatible(e, b)
  {
    var taken := a[d := a[d] - 1];
    UnitsAfterOneChange(e.cells, a, d, a[d] - 1);
    UnitsAfterOneChange(e.cells, taken, r, a[r] + 1);
  }

  lemma BoundsOfCell(e: Envelope, b: AllocationCell)
    requires b in e.cells
    ensures b.cell in Bounds(e) && Bounds(e)[b.cell] == b
  {
  }

  /** A legal move conserves the total and stays within every cell's bounds. */
  lemma LegalMoveKeepsValidity(e: Envelope, a: Allocation, scores: seq<EconomicScore>, m: Move)
    requires Compatible(e, a) && LegalMove(e, a, scores, m)
    ensures m.donor in a && m.receiver in a && m.donor != m.receiver && a[m.donor] > 0
    ensures var b := Shift(a, m.donor, m.receiver);
      && b == a[m.donor := a[m.donor] - 1][m.receiver := a[m.receiver] + 1]
      && Compatible(e, b) && (ValidAllocation(e, a) ==> ValidAllocation(e, b))
  {
    ShiftKeepsUnits(e, a, m.donor, m.receiver);
    forall b | b in e.cells ensures Bounds(e)[b.cell] == b {
      BoundsOfCell(e, b);
    }
  }

  lemma ShiftIsValid(s: SnapshotRef, e: Envelope, scores: seq<EconomicScore>, baseline: Authority, a: Allocation, m: Move)
    requires Compatible(e, a) && LegalMove(e, a, scores, m)
    ensures var c := ShiftCandidate(s, a, baseline, m);
      && ValidMove(c) && c.snapshot == s && c.ref.snapshot == s && c.baseline == baseline && c.current == a
      && Compatible(e, c.proposed) && (ValidAllocation(e, a) ==> ValidAllocation(e, c.proposed))
  {
    LegalMoveKeepsValidity(e, a, scores, m);
    UnitsIsMapTotal(e.cells, a);
    UnitsIsMapTotal(e.cells, Shift(a, m.donor, m.receiver));
  }

  lemma BestMoveIsLegal(e: Envelope, a: Allocation, scores: seq<EconomicScore>, m: Move)
    requires Compatible(e, a) && m in BestMoves(e, a, scores)
    ensures LegalMove(e, a, scores, m)
  {
    var ready := UsableScores(a, scores);
    SortKeeps(AllMoves(e, a, ready, ready), MoveLeq);
    assert m in Sort(AllMoves(e, a, ready, ready), MoveLeq);
    ListedMovesAreTheLegalOnes(e, a, scores, m);
  }

  /** Every generated candidate passes the validator and conserves the envelope. */
  lemma GeneratedCandidatesAreValid(
    s: SnapshotRef, e: Envelope, scores: seq<EconomicScore>, baseline: Authority, a: Allocation, c: Candidate)
    requires Compatible(e, a) && c in Generate(s, e, scores, baseline, a).value
    ensures ValidMove(c) && c.snapshot == s && c.ref.snapshot == s && c.baseline == baseline && c.current == a
    ensures Compatible(e, c.proposed) && (ValidAllocation(e, a) ==> ValidAllocation(e, c.proposed))
    ensures c.kind == ShiftOneUnit ==>
      exists m :: LegalMove(e, a, scores, m) && c == ShiftCandidate(s, a, baseline, m)
  {
    var best := BestMoves(e, a, scores);
    if c != NoChangeCandidate(s, a, baseline) {
      var i :| 0 <= i < |best| && c == ShiftCandidate(s, a, baseline, best[i]);
      BestMoveIsLegal(e, a, scores, best[i]);
      ShiftIsValid(s, e, scores, baseline, a, best[i]);
    }
  }

  /** Only NO_CHANGE is proposed exactly when no move is legal. */
  lemma NoMovesMeansNoLegalMove(e: Envelope, a: Allocation, scores: seq<EconomicScore>)
    requires Compatible(e, a)
    ensures BestMoves(e, a, scores) == [] <==> forall m :: !LegalMove(e, a, scores, m)
  {
    var ready := UsableScores(a, scores);
    var all := AllMoves(e, a, ready, ready);
    SortKeeps(all, MoveLeq);
    if all == [] {
      forall m ensures !LegalMove(e, a, scores, m) {
        ListedMovesAreTheLegalOnes(e, a, scores, m);
      }
    } else {
      ListedMovesAreTheLegalOnes(e, a, scores, all[0]);
    }
  }
}
