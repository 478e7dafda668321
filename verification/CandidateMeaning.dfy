/** What the generator proposes, said by the fields of scores, cells and candidates alone; and what that makes of
    every allocation change that is ever applied. */
module CandidateMeaning {
  import opened Wrappers
  import opened Ordering
  import opened LearningContracts
  import opened Economics
  import opened Candidates
  import opened LearningDb
  import opened AuthorityChain
  import opened LearningWorker
  import opened LearningRuns

  /** Both cells have a READY score, in one currency, and the receiver's is higher by `delta`. */
  ghost predicate ScoredHigher(scores: seq<EconomicScore>, from: Cell, to: Cell, delta: real) {
    exists d, r ::
      && d in scores && r in scores && d.cell == from && r.cell == to
      && d.status == Ready && r.status == Ready && d.currency == r.currency
      && d.score < r.score && delta == r.score - d.score
  }

  /** There is a unit to give and room to take it. */
  ghost predicate CanMove(e: Envelope, a: Allocation, from: Cell, to: Cell) {
    && from != to && from in a && to in a
    && (forall b :: b in e.cells && b.cell == from ==> b.minimumUnits < a[from])
    && (forall b :: b in e.cells && b.cell == to ==> a[to] < b.maximumUnits)
  }

  ghost predicate Improves(e: Envelope, a: Allocation, scores: seq<EconomicScore>, from: Cell, to: Cell, delta: real) {
    ScoredHigher(scores, from, to, delta) && CanMove(e, a, from, to)
  }

  lemma AdmissibleMeans(e: Envelope, a: Allocation, d: EconomicScore, r: EconomicScore)
    requires Compatible(e, a) && Usable(a, d) && Usable(a, r)
    ensures Admissible(e, a, d, r) <==> d.currency == r.currency && d.score < r.score && CanMove(e, a, d.cell, r.cell)
  {
    var x :| x in e.cells && x.cell == d.cell;
    var y :| y in e.cells && y.cell == r.cell;
    BoundsOfCell(e, x);
    BoundsOfCell(e, y);
    assert forall b :: b in e.cells && b.cell == d.cell ==> b == x;
    assert forall b :: b in e.cells && b.cell == r.cell ==> b == y;
  }

  lemma LegalMoveImproves(e: Envelope, a: Allocation, scores: seq<EconomicScore>, m: Move)
    requires Compatible(e, a)
    ensures LegalMove(e, a, scores, m) <==> Improves(e, a, scores, m.donor, m.receiver, m.gain)
  {
    if LegalMove(e, a, scores, m) {
      var d, r :| d in scores && r in scores && Usable(a, d) && Usable(a, r)
        && Admissible(e, a, d, r) && m == Move(r.score - d.score, d.cell, r.cell);
      AdmissibleMeans(e, a, d, r);
    }
    if Improves(e, a, scores, m.donor, m.receiver, m.gain) {
      var d, r :| d in scores && r in scores && d.cell == m.donor && r.cell == m.receiver
        && d.status == Ready && r.status == Ready && d.currency == r.currency
        && d.score < r.score && m.gain == r.score - d.score;
      AdmissibleMeans(e, a, d, r);
    }
  }

  /** A candidate moves one unit between these cells, expecting this gain, and changes nothing else. */
  ghost predicate MovesOne(c: Candidate, s: SnapshotRef, a: Allocation, baseline: Authority, from: Cell, to: Cell) {
    && c.kind == ShiftOneUnit && c.deltaUnits == 1 && c.fromCell == Some(from) && c.toCell == Some(to)
    && c.snapshot == s && c.baseline == baseline && c.current == a
    && from != to && from in a && to in a && a[from] > 0
    && c.proposed == a[from := a[from] - 1][to := a[to] + 1] && c.ref == Identity(c)
  }

  /** A reference identifies everything a candidate decides. */
  function Identity(c: Candidate): ProposalRef {
    ProposalRef(c.snapshot, c.kind, c.fromCell, c.toCell, c.current, c.proposed, c.baseline)
  }

  /** The order of the proposals: the larger expected gain first, then the smaller key of the donor, then that of the
      receiver. */
  ghost predicate Ahead(gain: real, from: Cell, to: Cell, otherGain: real, otherFrom: Cell, otherTo: Cell) {
    || gain > otherGain
    || (gain == otherGain && from != otherFrom && StringLeq(from.Key(), otherFrom.Key()))
    || (gain == otherGain && from == otherFrom && to != otherTo && StringLeq(to.Key(), otherTo.Key()))
  }

  lemma MoveOrderMeans(m: Move, n: Move)
    requires m != n
    ensures MoveLeq(m, n) <==> Ahead(m.gain, m.donor, m.receiver, n.gain, n.donor, n.receiver)
  {
    if m.donor.Key() == n.donor.Key() { KeyIdentifiesCell(m.donor, n.donor); }
    if m.receiver.Key() == n.receiver.Key() { KeyIdentifiesCell(m.receiver, n.receiver); }
  }

  /** The first candidate changes nothing. */
  ghost predicate ChangesNothing(c: Candidate, s: SnapshotRef, a: Allocation, baseline: Authority) {
    && c.kind == NoChange && c.deltaUnits == 0 && c.fromCell == None && c.toCell == None && c.expectedScoreDelta == 0.0
    && c.snapshot == s && c.baseline == baseline && c.current == a && c.proposed == a && c.ref == Identity(c)
  }

  /** Every other candidate moves one unit to a cell whose READY score in the same currency is higher, by exactly
      the gain it states. */
  ghost predicate Improvement(c: Candidate, s: SnapshotRef, e: Envelope, scores: seq<EconomicScore>, baseline: Authority, a: Allocation) {
    && c.fromCell.Some? && c.toCell.Some?
    && MovesOne(c, s, a, baseline, c.fromCell.value, c.toCell.value)
    && Improves(e, a, scores, c.fromCell.value, c.toCell.value, c.expectedScoreDelta)
  }

  ghost predicate CandidateAhead(c: Candidate, gain: real, from: Cell, to: Cell) {
    c.fromCell.Some? && c.toCell.Some? && Ahead(c.expectedScoreDelta, c.fromCell.value, c.toCell.value, gain, from, to)
  }

  lemma ShiftCandidateImproves(s: SnapshotRef, e: Envelope, scores: seq<EconomicScore>, baseline: Authority, a: Allocation, m: Move)
    requires Compatible(e, a) && LegalMove(e, a, scores, m)
    ensures Improvement(ShiftCandidate(s, a, baseline, m), s, e, scores, baseline, a)
  {
    LegalMoveImproves(e, a, scores, m);
    MoveIsOne(s, e, scores, baseline, a, m);
  }

  lemma MoveIsOne(s: SnapshotRef, e: Envelope, scores: seq<EconomicScore>, baseline: Authority, a: Allocation, m: Move)
    requires Compatible(e, a) && LegalMove(e, a, scores, m)
    ensures MovesOne(ShiftCandidate(s, a, baseline, m), s, a, baseline, m.donor, m.receiver)
  {
    LegalMoveKeepsValidity(e, a, scores, m);
  }

  lemma GeneratedAt(s: SnapshotRef, e: Envelope, scores: seq<EconomicScore>, baseline: Authority, a: Allocation, i: nat)
    requires Compatible(e, a) && i < |BestMoves(e, a, scores)|
    ensures var cs := Generate(s, e, scores, baseline, a).value;
      |cs| == |BestMoves(e, a, scores)| + 1 && cs[i + 1] == ShiftCandidate(s, a, baseline, BestMoves(e, a, scores)[i])
  {
  }

  /** The candidates: the unchanged allocation first, then at most four improvements. */
  lemma CandidatesAreImprovements(s: SnapshotRef, e: Envelope, scores: seq<EconomicScore>, baseline: Authority, a: Allocation, i: nat)
    requires Compatible(e, a) && DistinctScores(scores) && i < |Generate(s, e, scores, baseline, a).value|
    ensures var cs := Generate(s, e, scores, baseline, a).value;
      |cs| <= 5 && if i == 0 then ChangesNothing(cs[0], s, a, baseline) else Improvement(cs[i], s, e, scores, baseline, a)
  {
    BestMovesAreTheBest(e, a, scores);
    if i > 0 {
      GeneratedAt(s, e, scores, baseline, a, i - 1);
      ShiftCandidateImproves(s, e, scores, baseline, a, BestMoves(e, a, scores)[i - 1]);
    }
  }

  /** Each improvement is ahead of the later ones. */
  lemma CandidatesAreInOrder(s: SnapshotRef, e: Envelope, scores: seq<EconomicScore>, baseline: Authority, a: Allocation, j: nat, i: nat)
    requires Compatible(e, a) && DistinctScores(scores) && 0 < j < i < |Generate(s, e, scores, baseline, a).value|
    ensures var cs := Generate(s, e, scores, baseline, a).value;
      && cs[i].fromCell.Some? && cs[i].toCell.Some?
      && CandidateAhead(cs[j], cs[i].expectedScoreDelta, cs[i].fromCell.value, cs[i].toCell.value)
  {
    EarlierIsAhead(s, e, scores, baseline, a, j - 1, i - 1);
  }

  lemma EarlierIsAhead(s: SnapshotRef, e: Envelope, scores: seq<EconomicScore>, baseline: Authority, a: Allocation, j: nat, i: nat)
    requires Compatible(e, a) && DistinctScores(scores) && j < i < |BestMoves(e, a, scores)|
    ensures var (cs, m) := (Generate(s, e, scores, baseline, a).value, BestMoves(e, a, scores)[i]);
      |cs| > i + 1 && cs[i + 1] == ShiftCandidate(s, a, baseline, m) && CandidateAhead(cs[j + 1], m.gain, m.donor, m.receiver)
  {
    var best := BestMoves(e, a, scores);
    BestMovesAreTheBest(e, a, scores);
    GeneratedAt(s, e, scores, baseline, a, i);
    GeneratedAt(s, e, scores, baseline, a, j);
    assert best[j] != best[i] && MoveLeq(best[j], best[i]);
    MoveOrderMeans(best[j], best[i]);
  }

  ghost predicate Proposes(cs: seq<Candidate>, from: Cell, to: Cell) {
    exists i :: 0 < i < |cs| && cs[i].fromCell == Some(from) && cs[i].toCell == Some(to)
  }

  /** No improvement is passed over: it is proposed, unless four others are that are ahead of it. */
  lemma ImprovementsAreProposed(s: SnapshotRef, e: Envelope, scores: seq<EconomicScore>, baseline: Authority, a: Allocation,
                                from: Cell, to: Cell, delta: real)
    requires Compatible(e, a) && DistinctScores(scores) && Improves(e, a, scores, from, to, delta)
    ensures var cs := Generate(s, e, scores, baseline, a).value;
      Proposes(cs, from, to) || (|cs| == 5 && forall i :: 0 < i < 5 ==> CandidateAhead(cs[i], delta, from, to))
  {
    var m, best := Move(delta, from, to), BestMoves(e, a, scores);
    LegalMoveImproves(e, a, scores, m);
    BestMovesAreTheBest(e, a, scores);
    if m in best {
      MoveIsProposed(s, e, scores, baseline, a, m);
    } else {
      FourAreAhead(s, e, scores, baseline, a, m);
    }
  }

  lemma MoveIsProposed(s: SnapshotRef, e: Envelope, scores: seq<EconomicScore>, baseline: Authority, a: Allocation, m: Move)
    requires Compatible(e, a) && m in BestMoves(e, a, scores)
    ensures Proposes(Generate(s, e, scores, baseline, a).value, m.donor, m.receiver)
  {
    var best, cs := BestMoves(e, a, scores), Generate(s, e, scores, baseline, a).value;
    var i :| 0 <= i < |best| && best[i] == m;
    GeneratedAt(s, e, scores, baseline, a, i);
    assert cs[i + 1].fromCell == Some(m.donor) && cs[i + 1].toCell == Some(m.receiver);
  }

  lemma FourAreAhead(s: SnapshotRef, e: Envelope, scores: seq<EconomicScore>, baseline: Authority, a: Allocation, m: Move)
    requires Compatible(e, a) && |BestMoves(e, a, scores)| == 4 && m !in BestMoves(e, a, scores)
    requires forall k :: 0 <= k < 4 ==> MoveLeq(BestMoves(e, a, scores)[k], m)
    ensures var cs := Generate(s, e, scores, baseline, a).value;
      |cs| == 5 && forall i :: 0 < i < 5 ==> CandidateAhead(cs[i], m.gain, m.donor, m.receiver)
  {
    var best, cs := BestMoves(e, a, scores), Generate(s, e, scores, baseline, a).value;
    GeneratedAt(s, e, scores, baseline, a, 0);
    forall i | 0 < i < 5 ensures CandidateAhead(cs[i], m.gain, m.donor, m.receiver) {
      GeneratedAt(s, e, scores, baseline, a, i - 1);
      assert best[i - 1] in best;
      MoveOrderMeans(best[i - 1], m);
    }
  }

  /** NO_CHANGE stands alone exactly when no unit could go to a cell with a higher READY score in the same currency. */
  lemma NoChangeAloneIffNoImprovement(s: SnapshotRef, e: Envelope, scores: seq<EconomicScore>, baseline: Authority, a: Allocation)
    requires Compatible(e, a)
    ensures |Generate(s, e, scores, baseline, a).value| == 1
      <==> forall from, to, delta :: !Improves(e, a, scores, from, to, delta)
  {
    NoMovesMeansNoLegalMove(e, a, scores);
    if forall m :: !LegalMove(e, a, scores, m) {
      forall from, to, delta ensures !Improves(e, a, scores, from, to, delta) {
        LegalMoveImproves(e, a, scores, Move(delta, from, to));
      }
    }
    if m :| LegalMove(e, a, scores, m) { LegalMoveImproves(e, a, scores, m); }
  }

  // ---------- in every run ----------

  /** The metrics of both cells were sufficient for a READY score, in one currency, and the receiver's score was
      higher by what the candidate states. */
  ghost predicate ScoredBetter(metrics: seq<CellMetrics>, from: Cell, to: Cell, delta: real) {
    exists m, n ::
      && m in metrics && n in metrics && m.cell == from && n.cell == to && m.currency == n.currency
      && ScoreCell(m).status == Ready && ScoreCell(n).status == Ready
      && ScoreCell(m).score < ScoreCell(n).score && delta == ScoreCell(n).score - ScoreCell(m).score
  }

  lemma ScoresComeFromMetrics(metrics: seq<CellMetrics>, from: Cell, to: Cell, delta: real)
    requires ScoredHigher(Scores(metrics), from, to, delta)
    ensures ScoredBetter(metrics, from, to, delta)
  {
    var scores := Scores(metrics);
    var d, r :| d in scores && r in scores && d.cell == from && r.cell == to
      && d.status == Ready && r.status == Ready && d.currency == r.currency
      && d.score < r.score && delta == r.score - d.score;
    var i :| 0 <= i < |scores| && scores[i] == d;
    var j :| 0 <= j < |scores| && scores[j] == r;
    assert metrics[i] in metrics && metrics[j] in metrics;
  }

  /** In every run, every applied proposal moved one unit from a cell to another that the metrics of its snapshot
      scored higher, both READY and in one currency. */
  lemma AppliedMovesWereImprovements(events: seq<Event>, r: ProposalRef)
    requires r in Execution(events).db.rows && Execution(events).db.rows[r].state == APPLIED
    ensures var c := Execution(events).db.rows[r].candidate;
      && c.fromCell.Some? && c.toCell.Some?
      && MovesOne(c, c.snapshot, c.snapshot.current, BaselineOf(c.snapshot), c.fromCell.value, c.toCell.value)
      && ScoredBetter(c.snapshot.metrics, c.fromCell.value, c.toCell.value, c.expectedScoreDelta)
  {
    var db := Execution(events).db;
    ExecutionSound(events);
    var row := db.rows[r];
    var c, s := row.candidate, row.candidate.snapshot;
    assert GenuineRow(db, row) && Approved(row);
    GeneratedCandidatesAreValid(s, s.envelope, Scores(s.metrics), BaselineOf(s), s.current, c);
    var m :| LegalMove(s.envelope, s.current, Scores(s.metrics), m) && c == ShiftCandidate(s, s.current, BaselineOf(s), m);
    ShiftCandidateImproves(s, s.envelope, Scores(s.metrics), BaselineOf(s), s.current, m);
    ScoresComeFromMetrics(s.metrics, m.donor, m.receiver, m.gain);
  }
}
