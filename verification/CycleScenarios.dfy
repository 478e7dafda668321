/** Runs that reach a given end: a worker that reads the tip can always have a move applied while there is room.
    With it the condition for a further application is exact, and the harmful interleavings are constructed. */
module CycleScenarios {
  import opened Wrappers
  import opened Ordering
  import opened LearningContracts
  import opened Economics
  import C = Candidates
  import D = LearningDb
  import opened LearningDb
  import opened AuthorityChain
  import opened LearningWorker
  import opened LearningRuns
  import opened CycleReplay
  import opened CycleReports
  import opened CycleRaces

  // ---------- metrics that propose exactly one move ----------

  /** Every piece of evidence, no penalty, and the given retained revenue; `n` tells metrics apart. */
  function Evidence(cell: Cell, retained: nat, n: nat): CellMetrics {
    CellMetrics(cell, 50, 0, 0, 0, 0, n, 2, 2, 2, retained, retained, Some(CHF), true, 2, 1, 0, 0, 0, 0, Some(CHF), true, false)
  }

  lemma EvidenceScores(cell: Cell, retained: nat, n: nat)
    ensures ScoreCell(Evidence(cell, retained, n)) == EconomicScore(cell, Ready, Some(CHF), retained as real / 50.0)
  {
    ReadyNeedsAllEvidence(Evidence(cell, retained, n));
  }

  function TwoMetrics(c: Cell, d: Cell, n: nat): seq<CellMetrics> {
    [Evidence(c, 0, n), Evidence(d, 5000, n)]
  }

  const GAIN := 100.0

  lemma OnlyMove(e: Envelope, a: Allocation, c: Cell, d: Cell, scores: seq<EconomicScore>)
    requires C.Compatible(e, a) && Movable(e, a, c, d)
    requires |scores| == 2
    requires forall x :: x in scores <==>
      x == EconomicScore(c, Ready, Some(CHF), 0.0) || x == EconomicScore(d, Ready, Some(CHF), GAIN)
    ensures C.BestMoves(e, a, scores) == [C.Move(GAIN, c, d)]
  {
    var poor, rich := EconomicScore(c, Ready, Some(CHF), 0.0), EconomicScore(d, Ready, Some(CHF), GAIN);
    var only, best := C.Move(GAIN, c, d), C.BestMoves(e, a, scores);
    assert poor in scores && rich in scores;
    assert C.DistinctScores(scores);
    C.BestMovesAreTheBest(e, a, scores);
    assert C.Admissible(e, a, poor, rich);
    assert C.LegalMove(e, a, scores, only);
    forall m | C.LegalMove(e, a, scores, m) ensures m == only {
    }
    OneElement(best, only);
  }

  lemma OneElement<T>(s: seq<T>, x: T)
    requires NoDuplicates(s) && (forall y :: y in s ==> y == x)
    requires x in s || |s| == 4
    ensures s == [x]
  {
    forall i | 0 <= i < |s| ensures s[i] == x {
      assert s[i] in s;
    }
    FirstTwoDiffer(s);
  }

  lemma FirstTwoDiffer<T>(s: seq<T>)
    requires NoDuplicates(s)
    ensures |s| > 1 ==> s[0] != s[1]
  {
  }

  lemma SortedScores(c: Cell, d: Cell, n: nat)
    ensures var scores := Scores(Sort(TwoMetrics(c, d, n), MetricLeq));
      |scores| == 2 && forall x :: x in scores <==>
        x == EconomicScore(c, Ready, Some(CHF), 0.0) || x == EconomicScore(d, Ready, Some(CHF), GAIN)
  {
    var metrics := TwoMetrics(c, d, n);
    var sorted := Sort(metrics, MetricLeq);
    var scores := Scores(sorted);
    SortKeeps(metrics, MetricLeq);
    EvidenceScores(c, 0, n);
    EvidenceScores(d, 5000, n);
    assert metrics[0] in sorted && metrics[1] in sorted;
    forall m | m in sorted ensures ScoreCell(m) in scores {
      var i :| 0 <= i < |sorted| && sorted[i] == m;
      assert scores[i] == ScoreCell(m);
    }
    forall x | x in scores ensures x == ScoreCell(metrics[0]) || x == ScoreCell(metrics[1]) {
      var i :| 0 <= i < |scores| && scores[i] == x;
      assert sorted[i] in sorted && sorted[i] in metrics;
    }
  }

  // ---------- the snapshot a reader makes of them ----------

  ghost function FactsOf(job: Job, current: Current, c: Cell, d: Cell, n: nat): SnapshotRef {
    SnapshotFacts(job, current, TwoMetrics(c, d, n))
  }

  /** The one move of that snapshot. */
  ghost function TheShift(s: SnapshotRef, c: Cell, d: Cell): Candidate {
    C.ShiftCandidate(s, s.current, BaselineOf(s), C.Move(GAIN, c, d))
  }

  ghost function TheNoChange(s: SnapshotRef): Candidate {
    C.NoChangeCandidate(s, s.current, BaselineOf(s))
  }

  lemma GeneratesTheShift(job: Job, current: Current, c: Cell, d: Cell, n: nat)
    requires C.Compatible(job.envelope, current.allocation) && Movable(job.envelope, current.allocation, c, d)
    ensures var s := FactsOf(job, current, c, d, n); Generated(s) == Success([TheNoChange(s), TheShift(s, c, d)])
  {
    var s := FactsOf(job, current, c, d, n);
    SortedScores(c, d, n);
    OnlyMove(s.envelope, s.current, c, d, Scores(s.metrics));
    var shifts := C.ShiftCandidates(s, s.current, BaselineOf(s), [C.Move(GAIN, c, d)]);
    assert shifts == [TheShift(s, c, d)];
    assert [TheNoChange(s)] + shifts == [TheNoChange(s), TheShift(s, c, d)];
    assert C.Generate(s, s.envelope, Scores(s.metrics), BaselineOf(s), s.current) == Success([TheNoChange(s)] + shifts);
  }

  /** Some number makes the snapshot new. */
  lemma SomeSnapshotIsNew(db: Db, job: Job, current: Current, c: Cell, d: Cell) returns (n: nat)
    ensures FactsOf(job, current, c, d, n) !in db.snapshots
  {
    var used := set s | s in db.snapshots && s.metrics != [] :: s.metrics[0].clickCount;
    n := NotIn(used);
    var s := FactsOf(job, current, c, d, n);
    SortKeeps(TwoMetrics(c, d, n), MetricLeq);
    assert s.metrics[0] in TwoMetrics(c, d, n);
    assert s.metrics[0].clickCount == n;
  }

  lemma {:induction false} Bounded(used: set<nat>) returns (top: nat)
    ensures forall x :: x in used ==> x <= top
  {
    if used == {} {
      top := 0;
    } else {
      var x :| x in used;
      var rest := Bounded(used - {x});
      top := if rest < x then x else rest;
      forall y | y in used ensures y <= top {
        assert y == x || y in used - {x};
      }
    }
  }

  lemma NotIn(used: set<nat>) returns (n: nat)
    ensures n !in used
  {
    var top := Bounded(used);
    n := top + 1;
  }

  lemma NewSnapshotHasNoRows(db: Db, s: SnapshotRef, r: ProposalRef)
    requires Sound(db) && s !in db.snapshots && r.snapshot == s
    ensures r !in db.rows && SelectedOf(db.rows, s) == {}
  {
    forall x | x in db.rows ensures db.rows[x].candidate.snapshot != s && x.snapshot != s {
      var row := db.rows[x];
      assert GenuineRow(db, row);
      var c := row.candidate;
      KnownBaseIsValid(db, row.envelope, c.baseline, c.current);
      C.GeneratedCandidatesAreValid(c.snapshot, c.snapshot.envelope, Scores(c.snapshot.metrics), c.baseline, c.current, c);
    }
  }

  // ---------- from reading the tip to the selection of the move ----------

  const REASONS := ["SELECTED"]

  const APPROVING := Authorization(true, true, "", "", APPROVED, None)

  ghost function Selecting(job: Job, current: Current, c: Cell, d: Cell, n: nat): Answers {
    var s := FactsOf(job, current, c, d, n);
    Answers(TwoMetrics(c, d, n), LearningSelection(s, TheShift(s, c, d).ref, REASONS, 0.0), Some(APPROVING), true)
  }

  ghost function WithSnapshot(db: Db, s: SnapshotRef, at: int): Db {
    db.(snapshots := db.snapshots[s := Snapshot(s, s, at)])
  }

  ghost function WithBoth(db: Db, s: SnapshotRef, c: Cell, d: Cell, e: Envelope, at: int): Db {
    db.(rows := db.rows[TheNoChange(s).ref := NewRow(TheNoChange(s), e, at)][TheShift(s, c, d).ref := NewRow(TheShift(s, c, d), e, at)])
  }

  const THE_SELECTION := Selection("HERMES", 0.0, REASONS)

  ghost function WithSelection(db: Db, p: ProposalRef, at: int): Db
    requires p in db.rows
  {
    db.(rows := db.rows[p := db.rows[p].(selection := Some(THE_SELECTION), decidedAt := Some(at))])
  }

  lemma InsertsBoth(db: Db, s: SnapshotRef, c: Cell, d: Cell, e: Envelope, at: int)
    requires s in db.snapshots && TheNoChange(s).ref !in db.rows && TheShift(s, c, d).ref !in db.rows
    ensures D.SaveCandidates(db, [TheNoChange(s), TheShift(s, c, d)], e, at) == (WithBoth(db, s, c, d, e, at), Success(()))
  {
    var x, y := TheNoChange(s), TheShift(s, c, d);
    assert [x, y][..1] == [x] && [x][..0] == [];
    assert InsertAll(db, [], e, at) == Success(db.rows);
    assert InsertAll(db, [x], e, at) == Success(db.rows[x.ref := NewRow(x, e, at)]);
    assert InsertAll(db, [x, y], e, at) == Success(db.rows[x.ref := NewRow(x, e, at)][y.ref := NewRow(y, e, at)]);
  }

  lemma SelectsTheShift(db: Db, job: Job, s: SnapshotRef, c: Cell, d: Cell, answers: Answers)
    requires TheShift(s, c, d).ref in db.rows && SelectedOf(db.rows, s) == {}
    requires db.rows[TheShift(s, c, d).ref] == NewRow(TheShift(s, c, d), job.envelope, job.capturedAt)
    requires answers.selection == LearningSelection(s, TheShift(s, c, d).ref, REASONS, 0.0)
    ensures var p := TheShift(s, c, d).ref;
      SelectStep(db, job, s, [TheNoChange(s), TheShift(s, c, d)], answers)
        == (WithSelection(db, p, job.capturedAt), Finish(job, s, p, 1, None))
  {
    assert TheShift(s, c, d) in [TheNoChange(s), TheShift(s, c, d)];
  }

  lemma BothUnselected(db: Db, s: SnapshotRef, c: Cell, d: Cell, e: Envelope, at: int)
    requires SelectedOf(db.rows, s) == {}
    ensures SelectedOf(WithBoth(db, s, c, d, e, at).rows, s) == {}
  {
    assert forall r :: r in SelectedOf(WithBoth(db, s, c, d, e, at).rows, s) ==> r in SelectedOf(db.rows, s);
  }

  lemma ReadsTheTip(db: Db, job: Job, current: Current, answers: Answers)
    requires D.ResolveCurrent(db, job.envelope) == Success(current)
    ensures NextCall(answers)((db, ReadTip(job))) == (db, Pc.SaveSnapshot(job, current))
  {
  }

  lemma SavesFacts(db: Db, job: Job, current: Current, c: Cell, d: Cell, n: nat)
    requires C.Compatible(job.envelope, current.allocation) && FactsOf(job, current, c, d, n) !in db.snapshots
    ensures var s := FactsOf(job, current, c, d, n);
      NextCall(Selecting(job, current, c, d, n))((db, Pc.SaveSnapshot(job, current)))
        == (WithSnapshot(db, s, job.capturedAt), Pc.SaveCandidates(job, s))
  {
  }

  lemma SavesBoth(db: Db, job: Job, s: SnapshotRef, c: Cell, d: Cell, answers: Answers)
    requires Generated(s) == Success([TheNoChange(s), TheShift(s, c, d)])
    requires s in db.snapshots && TheNoChange(s).ref !in db.rows && TheShift(s, c, d).ref !in db.rows
    ensures NextCall(answers)((db, Pc.SaveCandidates(job, s)))
      == (WithBoth(db, s, c, d, job.envelope, job.capturedAt), Pc.Select(job, s, [TheNoChange(s), TheShift(s, c, d)]))
  {
    InsertsBoth(db, s, c, d, job.envelope, job.capturedAt);
  }

  lemma TwoCalls<S(!new)>(step: S -> S, a: S, b: S, c: S)
    requires step(a) == b && step(b) == c
    ensures Iterate(step, a, 2) == c
  {
    assert Iterate(step, c, 0) == c;
    assert Iterate(step, b, 1) == c;
  }

  lemma {:induction false} IterateAdds<S(!new)>(step: S -> S, a: S, m: nat, n: nat)
    ensures Iterate(step, a, m + n) == Iterate(step, Iterate(step, a, m), n)
  {
    if m > 0 { IterateAdds(step, step(a), m - 1, n); }
  }

  lemma ReadsAndSaves(db: Db, job: Job, current: Current, c: Cell, d: Cell, n: nat)
    requires D.ResolveCurrent(db, job.envelope) == Success(current) && C.Compatible(job.envelope, current.allocation)
    requires FactsOf(job, current, c, d, n) !in db.snapshots
    ensures var s := FactsOf(job, current, c, d, n);
      RunFor(db, ReadTip(job), Selecting(job, current, c, d, n), 2)
        == (WithSnapshot(db, s, job.capturedAt), Pc.SaveCandidates(job, s))
  {
    var s, answers := FactsOf(job, current, c, d, n), Selecting(job, current, c, d, n);
    ReadsTheTip(db, job, current, answers);
    SavesFacts(db, job, current, c, d, n);
    TwoCalls(NextCall(answers), (db, ReadTip(job)), (db, Pc.SaveSnapshot(job, current)),
      (WithSnapshot(db, s, job.capturedAt), Pc.SaveCandidates(job, s)));
  }

  lemma SelectsFromBoth(db: Db, job: Job, s: SnapshotRef, c: Cell, d: Cell, answers: Answers)
    requires SelectedOf(db.rows, s) == {} && answers.selection == LearningSelection(s, TheShift(s, c, d).ref, REASONS, 0.0)
    ensures var p, at := TheShift(s, c, d).ref, job.capturedAt;
      var both := WithBoth(db, s, c, d, job.envelope, at);
      NextCall(answers)((both, Pc.Select(job, s, [TheNoChange(s), TheShift(s, c, d)])))
        == (WithSelection(both, p, at), Finish(job, s, p, 1, None))
  {
    var both := WithBoth(db, s, c, d, job.envelope, job.capturedAt);
    BothUnselected(db, s, c, d, job.envelope, job.capturedAt);
    SelectsTheShift(both, job, s, c, d, answers);
  }

  lemma SavesAndSelects(db: Db, job: Job, s: SnapshotRef, c: Cell, d: Cell, answers: Answers)
    requires Generated(s) == Success([TheNoChange(s), TheShift(s, c, d)]) && SelectedOf(db.rows, s) == {}
    requires s in db.snapshots && TheNoChange(s).ref !in db.rows && TheShift(s, c, d).ref !in db.rows
    requires answers.selection == LearningSelection(s, TheShift(s, c, d).ref, REASONS, 0.0)
    ensures var p, at := TheShift(s, c, d).ref, job.capturedAt;
      RunFor(db, Pc.SaveCandidates(job, s), answers, 2)
        == (WithSelection(WithBoth(db, s, c, d, job.envelope, at), p, at), Finish(job, s, p, 1, None))
  {
    var p, at := TheShift(s, c, d).ref, job.capturedAt;
    var both := WithBoth(db, s, c, d, job.envelope, at);
    SavesBoth(db, job, s, c, d, answers);
    SelectsFromBoth(db, job, s, c, d, answers);
    TwoCalls(NextCall(answers), (db, Pc.SaveCandidates(job, s)), (both, Pc.Select(job, s, [TheNoChange(s), TheShift(s, c, d)])),
      (WithSelection(both, p, at), Finish(job, s, p, 1, None)));
  }

  ghost function Chosen(db: Db, job: Job, s: SnapshotRef, c: Cell, d: Cell): Db {
    var at := job.capturedAt;
    WithSelection(WithBoth(WithSnapshot(db, s, at), s, c, d, job.envelope, at), TheShift(s, c, d).ref, at)
  }

  /** Four calls take a reader to the selected move. */
  lemma ReaderSelects(db: Db, job: Job, current: Current, c: Cell, d: Cell, n: nat)
    requires Sound(db) && D.ResolveCurrent(db, job.envelope) == Success(current)
    requires Movable(job.envelope, current.allocation, c, d) && FactsOf(job, current, c, d, n) !in db.snapshots
    ensures var s := FactsOf(job, current, c, d, n);
      RunFor(db, ReadTip(job), Selecting(job, current, c, d, n), 4)
        == (Chosen(db, job, s, c, d), Finish(job, s, TheShift(s, c, d).ref, 1, None))
  {
    var s, answers := FactsOf(job, current, c, d, n), Selecting(job, current, c, d, n);
    CurrentIsCompatible(db, job, current);
    NewSnapshotHasNoRows(db, s, TheShift(s, c, d).ref);
    NewSnapshotHasNoRows(db, s, TheNoChange(s).ref);
    GeneratesTheShift(job, current, c, d, n);
    ReadsAndSaves(db, job, current, c, d, n);
    SavesAndSelects(WithSnapshot(db, s, job.capturedAt), job, s, c, d, answers);
    IterateAdds(NextCall(answers), (db, ReadTip(job)), 2, 2);
  }

  lemma CurrentIsCompatible(db: Db, job: Job, current: Current)
    requires Sound(db) && D.ResolveCurrent(db, job.envelope) == Success(current)
    ensures C.Compatible(job.envelope, current.allocation)
    ensures KnownBase(db, job.envelope, current.authority, current.allocation)
  {
    TipIsKnown(db, job.envelope);
    KnownBaseIsValid(db, job.envelope, current.authority, current.allocation);
  }

  // ---------- from the selected move to its application ----------

  ghost function WithPolicy(db: Db, p: ProposalRef, at: int): Db
    requires p in db.rows
  {
    db.(rows := db.rows[p := db.rows[p].(policy := Some(PolicyOf(APPROVING)), state := PROPOSED, decidedAt := Some(at))])
  }

  ghost function WithApplication(db: Db, p: ProposalRef, at: int): Db
    requires p in db.rows
  {
    db.(rows := db.rows[p := AppliedRow(db.rows[p], at)])
  }

  /** The selected move is undecided and rests on the current authority. */
  ghost predicate Pending(db: Db, s: SnapshotRef, p: ProposalRef) {
    && SelectedRow(db, s, p) && db.rows[p].state == PROPOSED && db.rows[p].policy == None
    && db.rows[p].candidate.deltaUnits == 1 && db.rows[p].envelope == s.envelope
    && D.ResolveCurrent(db, s.envelope) == Success(Current(db.rows[p].candidate.baseline, db.rows[p].candidate.current))
  }

  lemma FitsTheTip(db: Db, s: SnapshotRef, p: ProposalRef, chain: seq<ProposalRef>)
    requires Pending(db, s, p) && IsChain(db.rows, s.envelope, chain)
    ensures Fits(db.rows, db.rows[p], chain)
  {
    CurrentOfChain(db, s.envelope, chain);
  }

  lemma ApprovalKeepsChain(db: Db, s: SnapshotRef, p: ProposalRef, at: int, chain: seq<ProposalRef>)
    requires Sound(db) && Pending(db, s, p) && IsChain(db.rows, s.envelope, chain)
    ensures IsChain(WithPolicy(db, p, at).rows, s.envelope, chain)
    ensures Fits(WithPolicy(db, p, at).rows, WithPolicy(db, p, at).rows[p], chain)
  {
    var approved := WithPolicy(db, p, at);
    assert AppliedRefs(approved.rows, s.envelope) == AppliedRefs(db.rows, s.envelope);
    ChainFrame(db.rows, approved.rows, s.envelope, chain);
    FitsTheTip(db, s, p, chain);
    if chain != [] { assert chain[|chain| - 1] in chain; }
  }

  lemma ApprovalIsSound(db: Db, s: SnapshotRef, p: ProposalRef, at: int)
    requires Sound(db) && Pending(db, s, p)
    ensures Sound(WithPolicy(db, p, at))
  {
    WriteCallSound(db, s, p, PolicyOf(APPROVING), PROPOSED, at);
    assert WithPolicy(db, p, at) == D.WritePolicy(db, p, PolicyOf(APPROVING), PROPOSED, at);
  }

  lemma ApprovedFitApplies(db: Db, s: SnapshotRef, p: ProposalRef, at: int)
    requires Sound(db) && Pending(db, s, p)
    ensures D.Apply(WithPolicy(db, p, at), p, true, at) == (WithApplication(WithPolicy(db, p, at), p, at), Success(ApplyOutcome(true, false)))
    ensures D.ResolveCurrent(WithApplication(WithPolicy(db, p, at), p, at), s.envelope)
      == Success(Current(Applied(p), db.rows[p].candidate.proposed))
  {
    var e, approved := s.envelope, WithPolicy(db, p, at);
    assert HasChain(db.rows, e);
    var chain :| IsChain(db.rows, e, chain);
    ApprovalKeepsChain(db, s, p, at, chain);
    ApprovalIsSound(db, s, p, at);
    ApplyFollowsTheChain(approved, p, at, chain);
    AppliedRowExtendsChain(approved, p, at, chain);
    CurrentOfChain(WithApplication(approved, p, at), e, chain + [p]);
  }

  lemma Authorizes(db: Db, job: Job, s: SnapshotRef, p: ProposalRef, answers: Answers)
    requires p in db.rows && db.rows[p].policy == None && answers.authorization == Some(APPROVING)
    ensures NextCall(answers)((db, Finish(job, s, p, 1, None))) == (db, Pc.WritePolicy(job, s, p, PolicyOf(APPROVING), PROPOSED))
  {
  }

  lemma Approves(db: Db, job: Job, s: SnapshotRef, p: ProposalRef, answers: Answers)
    requires p in db.rows && db.rows[p].state == PROPOSED
    ensures NextCall(answers)((db, Pc.WritePolicy(job, s, p, PolicyOf(APPROVING), PROPOSED)))
      == (WithPolicy(db, p, job.capturedAt), Pc.Apply(job, s, p))
  {
  }

  lemma AppliesApproved(db: Db, job: Job, s: SnapshotRef, p: ProposalRef, answers: Answers)
    requires Sound(db) && Pending(db, s, p) && answers.circuitClosed
    ensures var at := job.capturedAt;
      NextCall(answers)((WithPolicy(db, p, at), Pc.Apply(job, s, p)))
        == (WithApplication(WithPolicy(db, p, at), p, at), End(RunApplied, s, p))
  {
    var approved := WithPolicy(db, p, job.capturedAt);
    var applied := WithApplication(approved, p, job.capturedAt);
    ApprovedFitApplies(db, s, p, job.capturedAt);
    ApplySucceeds(approved, job, s, p, answers, applied);
  }

  lemma ApplySucceeds(db: Db, job: Job, s: SnapshotRef, p: ProposalRef, answers: Answers, after: Db)
    requires D.Apply(db, p, answers.circuitClosed, job.capturedAt) == (after, Success(ApplyOutcome(true, false)))
    ensures NextCall(answers)((db, Pc.Apply(job, s, p))) == (after, End(RunApplied, s, p))
  {
    assert ApplyStep(db, job, s, p, answers) == (after, End(RunApplied, s, p));
  }

  /** Three calls take the selected move to its application. */
  lemma SelectedApplies(db: Db, job: Job, s: SnapshotRef, p: ProposalRef, answers: Answers)
    requires Sound(db) && Pending(db, s, p) && answers.authorization == Some(APPROVING) && answers.circuitClosed
    ensures RunFor(db, Finish(job, s, p, 1, None), answers, 3)
      == (WithApplication(WithPolicy(db, p, job.capturedAt), p, job.capturedAt), End(RunApplied, s, p))
  {
    var at, call := job.capturedAt, NextCall(answers);
    Authorizes(db, job, s, p, answers);
    Approves(db, job, s, p, answers);
    AppliesApproved(db, job, s, p, answers);
    ThreeCalls(call, (db, Finish(job, s, p, 1, None)),
      (db, Pc.WritePolicy(job, s, p, PolicyOf(APPROVING), PROPOSED)), (WithPolicy(db, p, at), Pc.Apply(job, s, p)),
      (WithApplication(WithPolicy(db, p, at), p, at), End(RunApplied, s, p)));
  }

  lemma ThreeCalls<S(!new)>(step: S -> S, a: S, b: S, c: S, d: S)
    requires step(a) == b && step(b) == c && step(c) == d
    ensures Iterate(step, a, 3) == d
  {
    assert Iterate(step, d, 0) == d;
    assert Iterate(step, c, 1) == d;
    assert Iterate(step, b, 2) == d;
  }

  // ---------- driving one worker of a run ----------

  ghost function Drive(w: nat, answers: Answers, n: nat): seq<Event> {
    if n == 0 then [] else Drive(w, answers, n - 1) + [Advance(w, answers)]
  }

  /** The system in which one worker, and the store with it, stands at another point. */
  ghost function Driven(s: System, w: nat, x: (Db, Pc)): System
    requires w in s.workers
  {
    System(x.0, s.workers[w := s.workers[w].(pc := x.1)])
  }

  lemma AdvanceDriven(s: System, w: nat, x: (Db, Pc), answers: Answers)
    requires w in s.workers
    ensures Next(Driven(s, w, x), Advance(w, answers)) == Driven(s, w, NextCall(answers)(x))
  {
  }

  /** The states the worker goes through. */
  lemma PathOneMore<S(!new)>(step: S -> S, states: seq<S>)
    requires states != [] && Path(step, states)
    ensures Path(step, states + [step(states[|states| - 1])])
  {
  }

  /** The store and the worker after each of `n` calls. */
  ghost predicate Trace(events: seq<Event>, w: nat, answers: Answers, n: nat, states: seq<(Db, Pc)>)
    requires w in Execution(events).workers
  {
    && |states| == n + 1 && states[0] == (Execution(events).db, Execution(events).workers[w].pc)
    && Path(NextCall(answers), states)
    && Execution(events + Drive(w, answers, n)) == Driven(Execution(events), w, states[n])
  }

  lemma TraceOneMore(events: seq<Event>, w: nat, answers: Answers, n: nat, states: seq<(Db, Pc)>)
    requires w in Execution(events).workers && Trace(events, w, answers, n, states)
    ensures Trace(events, w, answers, n + 1, states + [NextCall(answers)(states[n])])
  {
    DriveOneMore(events, w, answers, n, states[n]);
    PathOneMore(NextCall(answers), states);
  }

  lemma {:induction false} DriveStates(events: seq<Event>, w: nat, answers: Answers, n: nat) returns (states: seq<(Db, Pc)>)
    requires w in Execution(events).workers
    ensures Trace(events, w, answers, n, states)
  {
    if n == 0 {
      states := [(Execution(events).db, Execution(events).workers[w].pc)];
      assert events + [] == events;
      DrivenNowhere(Execution(events), w);
    } else {
      states := DriveStates(events, w, answers, n - 1);
      TraceOneMore(events, w, answers, n - 1, states);
      states := states + [NextCall(answers)(states[n - 1])];
    }
  }

  lemma DrivenNowhere(s: System, w: nat)
    requires w in s.workers
    ensures Driven(s, w, (s.db, s.workers[w].pc)) == s
  {
  }

  ghost predicate Path<S(!new)>(step: S -> S, states: seq<S>) {
    forall k :: 0 <= k < |states| - 1 ==> states[k + 1] == step(states[k])
  }

  lemma {:induction false} PathIsIterated<S(!new)>(step: S -> S, states: seq<S>)
    requires states != [] && Path(step, states)
    ensures Iterate(step, states[0], |states| - 1) == states[|states| - 1]
  {
    if |states| > 1 {
      var rest := states[1..];
      forall k | 0 <= k < |rest| - 1 ensures rest[k + 1] == step(rest[k]) {
        assert rest[k + 1] == states[k + 1 + 1] == step(states[k + 1]);
      }
      PathIsIterated(step, states[1..]);
    }
  }

  lemma DriveRuns(events: seq<Event>, w: nat, answers: Answers, n: nat)
    requires w in Execution(events).workers
    ensures var s := Execution(events);
      Execution(events + Drive(w, answers, n)) == Driven(s, w, RunFor(s.db, s.workers[w].pc, answers, n))
  {
    var states := DriveStates(events, w, answers, n);
    PathIsIterated(NextCall(answers), states);
  }

  lemma DriveOneMore(events: seq<Event>, w: nat, answers: Answers, n: nat, x: (Db, Pc))
    requires w in Execution(events).workers
    requires Execution(events + Drive(w, answers, n)) == Driven(Execution(events), w, x)
    ensures Execution(events + Drive(w, answers, n + 1)) == Driven(Execution(events), w, NextCall(answers)(x))
  {
    var before := events + Drive(w, answers, n);
    assert events + Drive(w, answers, n + 1) == before + [Advance(w, answers)];
    ExecutionStep(before, Advance(w, answers));
    AdvanceDriven(Execution(events), w, x, answers);
  }

  /** The other workers are as they were. */
  ghost predicate OthersAsBefore(before: System, after: System, w: nat) {
    && w in before.workers && w in after.workers && after.workers.Keys == before.workers.Keys
    && forall v :: v in before.workers && v != w ==> after.workers[v] == before.workers[v]
  }

  // ---------- a reader can have a move selected ----------

  lemma ChosenKeepsApplied(db: Db, job: Job, s: SnapshotRef, c: Cell, d: Cell, e: Envelope)
    requires TheShift(s, c, d).ref !in db.rows && TheNoChange(s).ref !in db.rows
    ensures AppliedRefs(Chosen(db, job, s, c, d).rows, e) == AppliedRefs(db.rows, e)
  {
  }

  lemma ChosenSnapshots(db: Db, job: Job, s: SnapshotRef, c: Cell, d: Cell)
    requires Sound(db) && s.windowEnd == job.windowEnd && s.envelope == job.envelope
    ensures CycleSnapshots(Chosen(db, job, s, c, d), job.windowEnd, job.envelope)
      == CycleSnapshots(db, job.windowEnd, job.envelope) + {s}
  {
    var at := job.capturedAt;
    var after := Chosen(db, job, s, c, d);
    assert after.snapshots == db.snapshots[s := Snapshot(s, s, at)];
    forall x ensures x in CycleSnapshots(after, job.windowEnd, job.envelope)
      <==> x in CycleSnapshots(db, job.windowEnd, job.envelope) || x == s
    {
    }
  }

  lemma ChosenIsPending(db: Db, job: Job, current: Current, s: SnapshotRef, c: Cell, d: Cell)
    requires s.envelope == job.envelope && BaselineOf(s) == current.authority && s.current == current.allocation
    requires D.ResolveCurrent(Chosen(db, job, s, c, d), job.envelope) == Success(current)
    ensures Pending(Chosen(db, job, s, c, d), s, TheShift(s, c, d).ref)
  {
  }

  /** One worker has had the move of a unit selected, in a snapshot of its own, and nothing else has changed. */
  ghost predicate MoveSelected(before: System, after: System, w: nat, windowEnd: int, e: Envelope, c: Cell, d: Cell,
                               job: Job, s: SnapshotRef, p: ProposalRef)
  {
    && OthersAsBefore(before, after, w) && after.workers[w] == before.workers[w].(pc := Finish(job, s, p, 1, None))
    && s.windowEnd == windowEnd && s.envelope == e && s !in before.db.snapshots
    && Pending(after.db, s, p)
    && after.db.rows[p].candidate.proposed == C.Shift(CurrentOf(before.db, e), c, d)
    && CycleSnapshots(after.db, windowEnd, e) == CycleSnapshots(before.db, windowEnd, e) + {s}
    && CycleApplied(after.db, windowEnd, e) == CycleApplied(before.db, windowEnd, e)
  }

  ghost predicate TipReader(s: System, windowEnd: int, e: Envelope, w: nat) {
    w in s.workers && s.workers[w].pc.ReadTip? && OfCycle(s.workers[w], windowEnd, e)
  }

  /** At most one step takes a reader to the tip, and changes nothing in the store. */
  lemma ReaderComesToTip(events: seq<Event>, w: nat, windowEnd: int, e: Envelope) returns (more: seq<Event>)
    requires Reader(Execution(events), windowEnd, e, w)
    ensures TipReader(Execution(events + more), windowEnd, e, w) && Execution(events + more).db == Execution(events).db
  {
    if Execution(events).workers[w].pc.ReadTip? {
      more := [];
      assert events + more == events;
    } else {
      more := [Advance(w, NO_ANSWERS)];
      ExecutionStep(events, Advance(w, NO_ANSWERS));
    }
  }

  lemma ReaderHasJob(events: seq<Event>, w: nat, windowEnd: int, e: Envelope)
    requires TipReader(Execution(events), windowEnd, e, w)
    ensures HasJob(windowEnd, Some(e), Execution(events).workers[w].pc.job)
    ensures Sound(Execution(events).db) && D.ResolveCurrent(Execution(events).db, e).Success?
  {
    ExecutionOnCycle(events);
    assert WorkerOnCycle(Execution(events).db, Execution(events).workers[w]);
    TipIsKnown(Execution(events).db, e);
  }

  lemma DrivenOthers(s: System, w: nat, x: (Db, Pc))
    requires w in s.workers
    ensures OthersAsBefore(s, Driven(s, w, x), w) && Driven(s, w, x).workers[w] == s.workers[w].(pc := x.1)
  {
  }

  lemma ReaderCanSelect(events: seq<Event>, w: nat, windowEnd: int, e: Envelope, c: Cell, d: Cell)
    returns (more: seq<Event>, job: Job, s: SnapshotRef, p: ProposalRef)
    requires TipReader(Execution(events), windowEnd, e, w) && Movable(e, CurrentOf(Execution(events).db, e), c, d)
    ensures job == Execution(events).workers[w].pc.job && HasJob(windowEnd, Some(e), job)
    ensures MoveSelected(Execution(events), Execution(events + more), w, windowEnd, e, c, d, job, s, p)
  {
    var before := Execution(events);
    job := before.workers[w].pc.job;
    ReaderHasJob(events, w, windowEnd, e);
    var current := D.ResolveCurrent(before.db, e).value;
    var n := SomeSnapshotIsNew(before.db, job, current, c, d);
    s := FactsOf(job, current, c, d, n);
    p := TheShift(s, c, d).ref;
    more := Drive(w, Selecting(job, current, c, d, n), 4);
    ReaderSelects(before.db, job, current, c, d, n);
    DriveRuns(events, w, Selecting(job, current, c, d, n), 4);
    DrivenOthers(before, w, (Chosen(before.db, job, s, c, d), Finish(job, s, p, 1, None)));
    SelectedState(events, more, windowEnd, e, job, current, s, c, d);
  }

  lemma ChosenProposes(db: Db, job: Job, s: SnapshotRef, c: Cell, d: Cell)
    ensures Chosen(db, job, s, c, d).rows[TheShift(s, c, d).ref].candidate.proposed == C.Shift(s.current, c, d)
  {
  }

  lemma SelectedState(events: seq<Event>, more: seq<Event>, windowEnd: int, e: Envelope, job: Job, current: Current,
                      s: SnapshotRef, c: Cell, d: Cell)
    requires Execution(events + more).db == Chosen(Execution(events).db, job, s, c, d)
    requires s !in Execution(events).db.snapshots && InCycle(windowEnd, Some(e), s) && HasJob(windowEnd, Some(e), job)
    requires D.ResolveCurrent(Execution(events).db, e) == Success(current)
    requires s.previous == Previous(current.authority) && s.current == current.allocation
    ensures var db := Execution(events).db; var after := Chosen(db, job, s, c, d);
      && Pending(after, s, TheShift(s, c, d).ref)
      && after.rows[TheShift(s, c, d).ref].candidate.proposed == C.Shift(CurrentOf(db, e), c, d)
      && CycleSnapshots(after, windowEnd, e) == CycleSnapshots(db, windowEnd, e) + {s}
      && CycleApplied(after, windowEnd, e) == CycleApplied(db, windowEnd, e)
  {
    var db := Execution(events).db;
    ExecutionSound(events);
    ExecutionSound(events + more);
    ExecutionPersists(events, more);
    NewSnapshotHasNoRows(db, s, TheShift(s, c, d).ref);
    NewSnapshotHasNoRows(db, s, TheNoChange(s).ref);
    ChosenKeepsApplied(db, job, s, c, d, e);
    SameCurrent(db, Chosen(db, job, s, c, d), e, windowEnd);
    ChosenSnapshots(db, job, s, c, d);
    BaselineIsAuthority(db, job, current, s);
    ChosenIsPending(db, job, current, s, c, d);
    ChosenProposes(db, job, s, c, d);
  }

  lemma BaselineIsAuthority(db: Db, job: Job, current: Current, s: SnapshotRef)
    requires Sound(db) && D.ResolveCurrent(db, job.envelope) == Success(current)
    requires s.envelope == job.envelope && s.previous == Previous(current.authority)
    ensures BaselineOf(s) == current.authority
  {
    TipIsKnown(db, job.envelope);
  }

  // ---------- a selected move can be applied ----------

  lemma ApplicationAdds(db: Db, p: ProposalRef, at: int, windowEnd: int, e: Envelope)
    requires p in db.rows && db.rows[p].state == PROPOSED
    requires db.rows[p].candidate.snapshot.windowEnd == windowEnd && db.rows[p].candidate.snapshot.envelope == e
    ensures p !in CycleApplied(db, windowEnd, e)
    ensures CycleApplied(WithApplication(WithPolicy(db, p, at), p, at), windowEnd, e) == CycleApplied(db, windowEnd, e) + {p}
  {
  }

  /** One worker has had its proposal applied, and nothing else has changed. */
  ghost predicate MoveApplied(before: System, after: System, w: nat, s: SnapshotRef, p: ProposalRef) {
    && OthersAsBefore(before, after, w) && after.workers[w] == before.workers[w].(pc := End(RunApplied, s, p))
    && p in before.db.rows && p in after.db.rows && after.db.rows[p].state == APPLIED
    && CycleApplied(after.db, s.windowEnd, s.envelope) == CycleApplied(before.db, s.windowEnd, s.envelope) + {p}
    && p !in CycleApplied(before.db, s.windowEnd, s.envelope)
    && CurrentOf(after.db, s.envelope) == before.db.rows[p].candidate.proposed
  }

  ghost predicate AtPending(s: System, w: nat, job: Job, snapshot: SnapshotRef, p: ProposalRef) {
    w in s.workers && s.workers[w].pc == Finish(job, snapshot, p, 1, None) && Pending(s.db, snapshot, p)
  }

  lemma AppliedState(before: System, after: System, w: nat, s: SnapshotRef, p: ProposalRef, at: int)
    requires Sound(before.db) && Pending(before.db, s, p) && w in before.workers
    requires after == Driven(before, w, (WithApplication(WithPolicy(before.db, p, at), p, at), End(RunApplied, s, p)))
    ensures MoveApplied(before, after, w, s, p)
  {
    NewCurrent(before.db, after.db, s, p, at);
    DrivenOthers(before, w, (after.db, End(RunApplied, s, p)));
    ApplicationAdds(before.db, p, at, s.windowEnd, s.envelope);
  }

  lemma NewCurrent(db: Db, after: Db, s: SnapshotRef, p: ProposalRef, at: int)
    requires Sound(db) && Pending(db, s, p) && after == WithApplication(WithPolicy(db, p, at), p, at)
    ensures CurrentOf(after, s.envelope) == db.rows[p].candidate.proposed && after.rows[p].state == APPLIED
  {
    ApprovedFitApplies(db, s, p, at);
  }

  lemma PendingCanApply(events: seq<Event>, w: nat, job: Job, s: SnapshotRef, p: ProposalRef) returns (more: seq<Event>)
    requires AtPending(Execution(events), w, job, s, p)
    ensures MoveApplied(Execution(events), Execution(events + more), w, s, p)
  {
    var answers := Answers([], LearningSelection(s, p, REASONS, 0.0), Some(APPROVING), true);
    more := Drive(w, answers, 3);
    ExecutionSound(events);
    SelectedApplies(Execution(events).db, job, s, p, answers);
    DriveRuns(events, w, answers, 3);
    AppliedState(Execution(events), Execution(events + more), w, s, p, job.capturedAt);
  }

  /** The whole way: a move of the cycle selected and applied by one worker. */
  ghost predicate MoveMade(before: System, after: System, w: nat, windowEnd: int, e: Envelope, c: Cell, d: Cell) {
    && OthersAsBefore(before, after, w) && CurrentOf(after.db, e) == C.Shift(CurrentOf(before.db, e), c, d)
    && |CycleApplied(after.db, windowEnd, e)| == |CycleApplied(before.db, windowEnd, e)| + 1
  }

  lemma SelectedThenApplied(a: System, b: System, z: System, w: nat, windowEnd: int, e: Envelope, c: Cell, d: Cell, job: Job, s: SnapshotRef, p: ProposalRef)
    requires MoveSelected(a, b, w, windowEnd, e, c, d, job, s, p) && MoveApplied(b, z, w, s, p)
    ensures MoveMade(a, z, w, windowEnd, e, c, d)
  {
  }

  lemma SelectedIsPending(a: System, b: System, w: nat, windowEnd: int, e: Envelope, c: Cell, d: Cell, job: Job, s: SnapshotRef, p: ProposalRef)
    requires MoveSelected(a, b, w, windowEnd, e, c, d, job, s, p)
    ensures AtPending(b, w, job, s, p)
  {
  }

  lemma SelectedCanApply(events: seq<Event>, first: seq<Event>, w: nat, windowEnd: int, e: Envelope, c: Cell, d: Cell,
                         job: Job, s: SnapshotRef, p: ProposalRef) returns (second: seq<Event>)
    requires MoveSelected(Execution(events), Execution(events + first), w, windowEnd, e, c, d, job, s, p)
    ensures MoveMade(Execution(events), Execution(events + first + second), w, windowEnd, e, c, d)
  {
    var a, b := Execution(events), Execution(events + first);
    SelectedIsPending(a, b, w, windowEnd, e, c, d, job, s, p);
    second := PendingCanApply(events + first, w, job, s, p);
    SelectedThenApplied(a, b, Execution(events + first + second), w, windowEnd, e, c, d, job, s, p);
  }

  lemma ExecutionAssociates(events: seq<Event>, first: seq<Event>, second: seq<Event>)
    ensures Execution(events + (first + second)) == Execution(events + first + second)
  {
    assert events + (first + second) == events + first + second;
  }

  lemma ReaderCanApply(events: seq<Event>, w: nat, windowEnd: int, e: Envelope, c: Cell, d: Cell) returns (more: seq<Event>)
    requires TipReader(Execution(events), windowEnd, e, w) && Movable(e, CurrentOf(Execution(events).db, e), c, d)
    ensures MoveMade(Execution(events), Execution(events + more), w, windowEnd, e, c, d)
  {
    var first, job, s, p := ReaderCanSelect(events, w, windowEnd, e, c, d);
    var second := SelectedCanApply(events, first, w, windowEnd, e, c, d, job, s, p);
    ExecutionAssociates(events, first, second);
    more := first + second;
  }

  // ---------- the exact condition ----------

  /** The sufficient half. */
  lemma ReaderSuffices(now: seq<Event>, windowEnd: int, e: Envelope) returns (more: seq<Event>)
    requires (exists v :: Reader(Execution(now), windowEnd, e, v)) && HasRoom(e, CurrentOf(Execution(now).db, e))
    ensures CycleApplied(Execution(now + more).db, windowEnd, e) != CycleApplied(Execution(now).db, windowEnd, e)
  {
    var v :| Reader(Execution(now), windowEnd, e, v);
    var c, d :| Movable(e, CurrentOf(Execution(now).db, e), c, d);
    var first := ReaderComesToTip(now, v, windowEnd, e);
    var second := ReaderCanApply(now + first, v, windowEnd, e, c, d);
    ExecutionAssociates(now, first, second);
    more := first + second;
  }

  /** After an application in a cycle, a further one of the cycle is possible, whatever happens and whoever is
      started, if and only if some worker of it is at that moment about to read the tip, and the allocation leaves
      room to move a unit. */
  lemma FurtherApplicationIff(events: seq<Event>, w: nat, answers: Answers, windowEnd: int, e: Envelope)
    requires CycleApplied(Execution(events + [Advance(w, answers)]).db, windowEnd, e)
      != CycleApplied(Execution(events).db, windowEnd, e)
    ensures var now := events + [Advance(w, answers)];
      (exists later: seq<Event> ::
         CycleApplied(Execution(now + later).db, windowEnd, e) != CycleApplied(Execution(now).db, windowEnd, e))
      <==> (exists v :: Reader(Execution(now), windowEnd, e, v)) && HasRoom(e, CurrentOf(Execution(now).db, e))
  {
    var now := events + [Advance(w, answers)];
    if later: seq<Event> :|
      CycleApplied(Execution(now + later).db, windowEnd, e) != CycleApplied(Execution(now).db, windowEnd, e)
    {
      FurtherApplicationNeedsReader(events, w, answers, later, windowEnd, e);
    }
    if (exists v :: Reader(Execution(now), windowEnd, e, v)) && HasRoom(e, CurrentOf(Execution(now).db, e)) {
      var more := ReaderSuffices(now, windowEnd, e);
      assert CycleApplied(Execution(now + more).db, windowEnd, e) != CycleApplied(Execution(now).db, windowEnd, e);
    }
  }

  // ---------- interleavings that do harm ----------

  const NO_ANSWERS := Answers([], LearningSelection(SnapshotRef(0, [], ANY_ENVELOPE, map[], None),
    ProposalRef(SnapshotRef(0, [], ANY_ENVELOPE, map[], None), NoChange, None, None, map[], map[], Initial(ANY_ENVELOPE)), REASONS, 0.0), None, false)

  const ANY_ENVELOPE: Envelope := EnvelopeFields(0, 1, 0, [AllocationCell(Cell(CH, "w"), 0, 0, 0)])

  predicate InValidity(windowEnd: int, at: int, e: Envelope) {
    windowEnd <= at && e.validFrom <= at < e.validUntil
  }

  /** A worker is started for the cycle. */
  lemma StartsAtLookUp(events: seq<Event>, w: nat, windowEnd: int, at: int, e: Envelope)
    requires InValidity(windowEnd, at, e)
    ensures var s := Execution(events);
      Execution(events + [Start(w, windowEnd, at, Some(e))])
        == System(s.db, s.workers[w := Worker(windowEnd, Some(e), LookUp(Job(windowEnd, at, e)))])
  {
    ExecutionStep(events, Start(w, windowEnd, at, Some(e)));
  }

  lemma AdvancesTo(events: seq<Event>, w: nat, answers: Answers, db: Db, pc: Pc)
    requires w in Execution(events).workers
    requires Step(Execution(events).db, Execution(events).workers[w].pc, answers) == (db, pc)
    ensures Execution(events + [Advance(w, answers)]) == Driven(Execution(events), w, (db, pc))
  {
    ExecutionStep(events, Advance(w, answers));
  }

  lemma NothingToLookUp(windowEnd: int, at: int, e: Envelope)
    ensures LookUpStep(EMPTY_DB, Job(windowEnd, at, e)) == ReadTip(Job(windowEnd, at, e))
  {
    assert CycleSnapshots(EMPTY_DB, windowEnd, e) == {};
  }

  /** Two workers of one cycle have both looked it up before either has read the tip. */
  lemma TwoReaders(windowEnd: int, at: int, e: Envelope) returns (events: seq<Event>)
    requires InValidity(windowEnd, at, e)
    ensures var x := Worker(windowEnd, Some(e), ReadTip(Job(windowEnd, at, e)));
      Execution(events) == System(EMPTY_DB, map[0 := x, 1 := x])
  {
    var job := Job(windowEnd, at, e);
    NothingToLookUp(windowEnd, at, e);
    var a: seq<Event> := [];
    StartsAtLookUp(a, 0, windowEnd, at, e);
    var b := a + [Start(0, windowEnd, at, Some(e))];
    StartsAtLookUp(b, 1, windowEnd, at, e);
    var c := b + [Start(1, windowEnd, at, Some(e))];
    AdvancesTo(c, 0, NO_ANSWERS, EMPTY_DB, ReadTip(job));
    var d := c + [Advance(0, NO_ANSWERS)];
    AdvancesTo(d, 1, NO_ANSWERS, EMPTY_DB, ReadTip(job));
    events := d + [Advance(1, NO_ANSWERS)];
  }

  /** Two proposals of one cycle applied: the first worker has a move applied, and the second, which had looked the
      cycle up before, reads the new tip and has another applied. */
  lemma TwoWorkersApplyTwice(windowEnd: int, at: int, e: Envelope, c: Cell, d: Cell) returns (events: seq<Event>)
    requires InValidity(windowEnd, at, e)
    requires Movable(e, InitialAllocation(e), c, d) && Movable(e, C.Shift(InitialAllocation(e), c, d), c, d)
    ensures |CycleApplied(Execution(events).db, windowEnd, e)| == 2
  {
    var a := TwoReaders(windowEnd, at, e);
    NothingAppliedMeansInitial(EMPTY_DB, e);
    assert CycleApplied(EMPTY_DB, windowEnd, e) == {};
    assert TipReader(Execution(a), windowEnd, e, 0) && TipReader(Execution(a), windowEnd, e, 1);
    var first := ReaderCanApply(a, 0, windowEnd, e, c, d);
    StillReader(Execution(a), Execution(a + first), 0, 1, windowEnd, e, c, d);
    var second := ReaderCanApply(a + first, 1, windowEnd, e, c, d);
    events := a + first + second;
  }

  lemma StillReader(before: System, after: System, w: nat, v: nat, windowEnd: int, e: Envelope, c: Cell, d: Cell)
    requires MoveMade(before, after, w, windowEnd, e, c, d) && TipReader(before, windowEnd, e, v) && v != w
    ensures TipReader(after, windowEnd, e, v)
  {
  }

  const LEFT := Cell(CH, "w")
  const RIGHT := Cell(FR, "w")

  function TwoCells(): Envelope {
    var cells := [AllocationCell(LEFT, 2, 0, 2), AllocationCell(RIGHT, 0, 0, 2)];
    assert cells[1..] == [AllocationCell(RIGHT, 0, 0, 2)] && cells[1..][1..] == [];
    assert CurrentUnits(cells[1..]) == 0;
    assert CurrentUnits(cells) == cells[0].currentUnits + CurrentUnits(cells[1..]) == 2;
    EnvelopeFields(0, 1, 2, cells)
  }

  lemma TwoCellsHaveRoom()
    ensures Movable(TwoCells(), InitialAllocation(TwoCells()), LEFT, RIGHT)
    ensures Movable(TwoCells(), C.Shift(InitialAllocation(TwoCells()), LEFT, RIGHT), LEFT, RIGHT)
  {
    var left, right := AllocationCell(LEFT, 2, 0, 2), AllocationCell(RIGHT, 0, 0, 2);
    assert left in TwoCells().cells && right in TwoCells().cells;
    assert forall b :: b in TwoCells().cells ==> b == left || b == right;
    C.BoundsOfCell(TwoCells(), left);
    C.BoundsOfCell(TwoCells(), right);
  }

  /** Such an envelope exists: two units in one cell, and room for both in another. */
  lemma TwoApplicationsHappen() returns (events: seq<Event>)
    ensures |CycleApplied(Execution(events).db, 0, TwoCells())| == 2
  {
    TwoCellsHaveRoom();
    events := TwoWorkersApplyTwice(0, 0, TwoCells(), LEFT, RIGHT);
  }

  // ---------- a report that does not stand ----------

  const SHADOWING := Authorization(false, false, "", "", "DENIED", Some(APPROVED))

  const SHADOW_ANSWERS := NO_ANSWERS.(authorization := Some(SHADOWING))

  lemma FindsPending(db: Db, job: Job, s: SnapshotRef, p: ProposalRef)
    requires Sound(db) && Pending(db, s, p) && s.windowEnd == job.windowEnd && s.envelope == job.envelope
    requires CycleSnapshots(db, job.windowEnd, job.envelope) == {s}
    ensures LookUpStep(db, job) == ReadSelection(job, s)
    ensures ReadSelectionStep(db, job, s) == Finish(job, s, p, 1, None)
  {
    OneOfMany(CycleSnapshots(db, job.windowEnd, job.envelope), s);
    OnlySelected(db, s, p);
  }

  lemma ReadsUndecided(db: Db, job: Job, s: SnapshotRef, p: ProposalRef)
    requires Pending(db, s, p)
    ensures FinishStep(db, Finish(job, s, p, 1, None), SHADOW_ANSWERS)
      == (db, Pc.WritePolicy(job, s, p, PolicyOf(SHADOWING), SHADOW_ONLY))
  {
  }

  lemma WritesTooLate(db: Db, job: Job, s: SnapshotRef, p: ProposalRef)
    requires p in db.rows && db.rows[p].state == APPLIED
    ensures Step(db, Pc.WritePolicy(job, s, p, PolicyOf(SHADOWING), SHADOW_ONLY), SHADOW_ANSWERS) == (db, End(RunShadowOnly, s, p))
  {
  }

  lemma ReadsThePending(db: Db, job: Job, s: SnapshotRef, p: ProposalRef)
    requires Sound(db) && Pending(db, s, p) && s.windowEnd == job.windowEnd && s.envelope == job.envelope
    requires CycleSnapshots(db, job.windowEnd, job.envelope) == {s}
    ensures RunFor(db, LookUp(job), SHADOW_ANSWERS, 3) == (db, Pc.WritePolicy(job, s, p, PolicyOf(SHADOWING), SHADOW_ONLY))
  {
    FindsPending(db, job, s, p);
    ReadsUndecided(db, job, s, p);
    ThreeCalls(NextCall(SHADOW_ANSWERS), (db, LookUp(job)), (db, ReadSelection(job, s)), (db, Finish(job, s, p, 1, None)),
      (db, Pc.WritePolicy(job, s, p, PolicyOf(SHADOWING), SHADOW_ONLY)));
  }

  /** A second worker of the cycle finds the pending proposal and is told to shadow it, but has not written yet. */
  lemma SecondWorkerDecides(events: seq<Event>, job: Job, windowEnd: int, at: int, e: Envelope, s: SnapshotRef, p: ProposalRef)
    returns (more: seq<Event>)
    requires InValidity(windowEnd, at, e) && AtPending(Execution(events), 0, job, s, p)
    requires s.windowEnd == windowEnd && s.envelope == e && CycleSnapshots(Execution(events).db, windowEnd, e) == {s}
    ensures AtPending(Execution(events + more), 0, job, s, p) && 1 in Execution(events + more).workers
    ensures Execution(events + more).workers[1]
      == Worker(windowEnd, Some(e), Pc.WritePolicy(Job(windowEnd, at, e), s, p, PolicyOf(SHADOWING), SHADOW_ONLY))
  {
    var db, second := Execution(events).db, Job(windowEnd, at, e);
    ExecutionSound(events);
    var start := [Start(1, windowEnd, at, Some(e))];
    ReadsThePending(db, second, s, p);
    StartsAtLookUp(events, 1, windowEnd, at, e);
    DriveRuns(events + start, 1, SHADOW_ANSWERS, 3);
    ExecutionAssociates(events, start, Drive(1, SHADOW_ANSWERS, 3));
    more := start + Drive(1, SHADOW_ANSWERS, 3);
  }

  /** One worker applies the proposal between the read and the write of another's policy record: the first reports
      APPLIED, the second SHADOW_ONLY, and the proposal is applied. */
  lemma ShadowReportBesideApplied(windowEnd: int, at: int, e: Envelope, c: Cell, d: Cell)
    returns (events: seq<Event>, s: SnapshotRef, p: ProposalRef)
    requires InValidity(windowEnd, at, e) && Movable(e, InitialAllocation(e), c, d)
    ensures var end := Execution(events);
      && 0 in end.workers && end.workers[0].pc == End(RunApplied, s, p)
      && 1 in end.workers && end.workers[1].pc == End(RunShadowOnly, s, p)
      && p in end.db.rows && end.db.rows[p].state == APPLIED
  {
    var a := TwoReaders(windowEnd, at, e);
    NothingAppliedMeansInitial(EMPTY_DB, e);
    assert TipReader(Execution(a), windowEnd, e, 0);
    var first, job;
    first, job, s, p := ReaderCanSelect(a, 0, windowEnd, e, c, d);
    OneSnapshotPending(Execution(a), Execution(a + first), windowEnd, e, c, d, job, s, p);
    var more := SecondWorkerDecides(a + first, job, windowEnd, at, e, s, p);
    events := ThenAppliedThenWritten(a + first + more, job, windowEnd, at, e, s, p);
  }

  lemma ShadowReportBesideAppliedHappens() returns (events: seq<Event>, s: SnapshotRef, p: ProposalRef)
    ensures var end := Execution(events);
      && 0 in end.workers && end.workers[0].pc == End(RunApplied, s, p)
      && 1 in end.workers && end.workers[1].pc == End(RunShadowOnly, s, p)
      && p in end.db.rows && end.db.rows[p].state == APPLIED
  {
    TwoCellsHaveRoom();
    events, s, p := ShadowReportBesideApplied(0, 0, TwoCells(), LEFT, RIGHT);
  }

  lemma OneSnapshotPending(before: System, after: System, windowEnd: int, e: Envelope, c: Cell, d: Cell, job: Job, s: SnapshotRef, p: ProposalRef)
    requires before.db == EMPTY_DB && MoveSelected(before, after, 0, windowEnd, e, c, d, job, s, p)
    ensures AtPending(after, 0, job, s, p) && CycleSnapshots(after.db, windowEnd, e) == {s}
    ensures s.windowEnd == windowEnd && s.envelope == e
  {
    assert CycleSnapshots(before.db, windowEnd, e) == {};
  }

  lemma ThenAppliedThenWritten(start: seq<Event>, job: Job, windowEnd: int, at: int, e: Envelope, s: SnapshotRef, p: ProposalRef)
    returns (events: seq<Event>)
    requires AtPending(Execution(start), 0, job, s, p) && 1 in Execution(start).workers
    requires Execution(start).workers[1].pc == Pc.WritePolicy(Job(windowEnd, at, e), s, p, PolicyOf(SHADOWING), SHADOW_ONLY)
    ensures var end := Execution(events);
      && 0 in end.workers && end.workers[0].pc == End(RunApplied, s, p)
      && 1 in end.workers && end.workers[1].pc == End(RunShadowOnly, s, p)
      && p in end.db.rows && end.db.rows[p].state == APPLIED
  {
    var more := PendingCanApply(start, 0, job, s, p);
    var applied := start + more;
    AppliedBesidePending(Execution(start), Execution(applied), s, p);
    WritesTooLate(Execution(applied).db, Job(windowEnd, at, e), s, p);
    AdvancesTo(applied, 1, SHADOW_ANSWERS, Execution(applied).db, End(RunShadowOnly, s, p));
    events := applied + [Advance(1, SHADOW_ANSWERS)];
  }

  lemma AppliedBesidePending(before: System, after: System, s: SnapshotRef, p: ProposalRef)
    requires MoveApplied(before, after, 0, s, p) && 1 in before.workers
    ensures 0 in after.workers && after.workers[0].pc == End(RunApplied, s, p)
    ensures 1 in after.workers && after.workers[1] == before.workers[1]
    ensures p in after.db.rows && after.db.rows[p].state == APPLIED
  {
  }
}
