/** How far a run can go while the scores stay as they are: every applied proposal raises the value of the
    allocation, so there are only so many. */
module LearningProgress {
  import opened LearningContracts
  import C = Candidates
  import O = AllocationOptimality
  import opened LearningDb
  import opened AuthorityChain
  import opened LearningWorker
  import opened LearningRuns

  ghost predicate ScoredBy(rows: Rows, e: Envelope, chain: seq<ProposalRef>, w: O.Weights) {
    forall i :: 0 <= i < |chain| ==>
      chain[i] in rows && O.FullyScored(e, Scores(rows[chain[i]].candidate.snapshot.metrics), w)
  }

  /** The allocations that some consecutive applied proposals pass through. */
  ghost function Path(rows: Rows, moves: seq<ProposalRef>): seq<Allocation>
    requires moves != [] && forall i :: 0 <= i < |moves| ==> moves[i] in rows
  {
    [rows[moves[0]].candidate.current] + seq(|moves|, i requires 0 <= i < |moves| => rows[moves[i]].candidate.proposed)
  }

  lemma AppliedMoveClimbs(db: Db, e: Envelope, chain: seq<ProposalRef>, w: O.Weights, i: nat)
    requires Sound(db) && IsChain(db.rows, e, chain) && i < |chain| && chain[i] in db.rows
    requires O.FullyScored(e, Scores(db.rows[chain[i]].candidate.snapshot.metrics), w)
    ensures var c := db.rows[chain[i]].candidate; O.Climb(e, w, c.current, c.proposed)
    ensures i == 0 ==> db.rows[chain[0]].candidate.current == InitialAllocation(e)
    ensures C.Compatible(e, db.rows[chain[i]].candidate.current)
  {
    assert LinkedAt(db.rows, e, chain, i);
    assert chain[i] in chain && chain[i] in AppliedRefs(db.rows, e);
    var row := db.rows[chain[i]];
    var c, s := row.candidate, row.candidate.snapshot;
    assert GenuineRow(db, row) && Approved(row);
    C.GeneratedCandidatesAreValid(s, s.envelope, Scores(s.metrics), BaselineOf(s), s.current, c);
    var m :| C.LegalMove(s.envelope, s.current, Scores(s.metrics), m) && c == C.ShiftCandidate(s, s.current, BaselineOf(s), m);
    LegalMoveClimbs(e, s.current, Scores(s.metrics), w, m);
  }

  lemma LegalMoveClimbs(e: Envelope, a: Allocation, scores: seq<EconomicScore>, w: O.Weights, m: C.Move)
    requires C.Compatible(e, a) && C.LegalMove(e, a, scores, m) && O.FullyScored(e, scores, w)
    ensures O.Climb(e, w, a, C.Shift(a, m.donor, m.receiver))
  {
    C.LegalMoveKeepsValidity(e, a, scores, m);
    var d, r :| d in scores && r in scores && C.Usable(a, d) && C.Usable(a, r)
      && C.Admissible(e, a, d, r) && m == C.Move(r.score - d.score, d.cell, r.cell);
    O.ScoreOfCell(e, scores, w, d);
    O.ScoreOfCell(e, scores, w, r);
  }

  lemma PathAt(rows: Rows, moves: seq<ProposalRef>, k: nat)
    requires k < |moves| && forall j :: 0 <= j < |moves| ==> moves[j] in rows
    requires k > 0 ==> rows[moves[k]].candidate.current == rows[moves[k - 1]].candidate.proposed
    ensures Path(rows, moves)[k] == rows[moves[k]].candidate.current
    ensures Path(rows, moves)[k + 1] == rows[moves[k]].candidate.proposed
  {
  }

  lemma LinkJoins(rows: Rows, e: Envelope, chain: seq<ProposalRef>, i: nat)
    requires IsChain(rows, e, chain) && 0 < i < |chain| && chain[i] in rows && chain[i - 1] in rows
    ensures rows[chain[i]].candidate.current == rows[chain[i - 1]].candidate.proposed
  {
    assert LinkedAt(rows, e, chain, i);
  }

  lemma PathStep(db: Db, e: Envelope, chain: seq<ProposalRef>, i: nat, moves: seq<ProposalRef>, w: O.Weights, k: nat)
    requires Sound(db) && IsChain(db.rows, e, chain) && i + |moves| <= |chain| && moves == chain[i..i + |moves|]
    requires ScoredBy(db.rows, e, moves, w) && k < |moves|
    ensures var path := Path(db.rows, moves); O.Climb(e, w, path[k], path[k + 1]) && C.Compatible(e, path[k])
  {
    assert moves[k] == chain[i + k];
    AppliedMoveClimbs(db, e, chain, w, i + k);
    if k > 0 {
      assert moves[k - 1] == chain[i + k - 1];
      LinkJoins(db.rows, e, chain, i + k);
    }
    PathAt(db.rows, moves, k);
  }

  lemma AppliedPathClimbs(db: Db, e: Envelope, chain: seq<ProposalRef>, i: nat, moves: seq<ProposalRef>, w: O.Weights)
    requires Sound(db) && IsChain(db.rows, e, chain) && i + |moves| <= |chain| && moves == chain[i..i + |moves|]
    requires ScoredBy(db.rows, e, moves, w) && moves != []
    ensures O.Climbs(e, w, Path(db.rows, moves))
  {
    PathStep(db, e, chain, i, moves, w, 0);
    forall k | 0 <= k < |moves| ensures O.Climb(e, w, Path(db.rows, moves)[k], Path(db.rows, moves)[k + 1]) {
      PathStep(db, e, chain, i, moves, w, k);
    }
  }

  lemma SegmentIsBounded(db: Db, e: Envelope, chain: seq<ProposalRef>, i: nat, moves: seq<ProposalRef>, w: O.Weights)
    requires O.Weighted(e.cells, w)
    requires Sound(db) && IsChain(db.rows, e, chain) && i + |moves| <= |chain| && moves == chain[i..i + |moves|]
    requires ScoredBy(db.rows, e, moves, w) && moves != []
    ensures |moves| <= (|e.cells| - 1) * e.totalDailyUnits
    ensures O.Climbs(e, w, Path(db.rows, moves)) && (i == 0 ==> Path(db.rows, moves)[0] == InitialAllocation(e))
  {
    AppliedPathClimbs(db, e, chain, i, moves, w);
    assert moves[0] == chain[i];
    AppliedMoveClimbs(db, e, chain, w, i);
    O.ClimbsAreBounded(e, w, Path(db.rows, moves));
  }

  /** In every run: each of the consecutive applied proposals of an envelope that were scored alike raised the
      value of the allocation, and there are at most (cells - 1) * total_daily_units of them before the scores
      change. */
  lemma AppliedMovesAreBounded(events: seq<Event>, e: Envelope, chain: seq<ProposalRef>, i: nat, j: nat, w: O.Weights)
    requires O.Weighted(e.cells, w) && i <= j
    requires IsChain(Execution(events).db.rows, e, chain)
    requires j <= |chain| && ScoredBy(Execution(events).db.rows, e, chain[i..j], w)
    ensures j - i <= (|e.cells| - 1) * e.totalDailyUnits
    ensures i < j ==>
      var path := Path(Execution(events).db.rows, chain[i..j]);
      O.Climbs(e, w, path) && (i == 0 ==> path[0] == InitialAllocation(e))
  {
    if i < j {
      ExecutionSound(events);
      SegmentIsBounded(Execution(events).db, e, chain, i, chain[i..j], w);
    }
  }
}
