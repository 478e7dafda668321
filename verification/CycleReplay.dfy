/** Crashes and repetitions of one cycle: the attempts at a window and an envelope, one after another, each
    stopped after any number of store calls. */
module CycleReplay {
  import opened Wrappers
  import opened Ordering
  import opened LearningContracts
  import C = Candidates
  import D = LearningDb
  import opened LearningDb
  import opened AuthorityChain
  import opened LearningWorker
  import opened LearningRuns

  // ---------- retried inserts ----------

  /** Candidates that are already stored are accepted again exactly when every stored column is as it was
      written; otherwise the retry conflicts. Either way it changes nothing. */
  lemma {:induction false} RetriedInsertIsExactOrConflicts(db: Db, cs: seq<Candidate>, e: Envelope, at: int)
    requires forall c :: c in cs ==> c.ref in db.rows
    ensures D.SaveCandidates(db, cs, e, at) ==
      (db, if AllReplayed(db.rows, cs, e, at) then Success(()) else Failure(Conflict))
  {
    if cs != [] {
      var init, c := cs[..|cs| - 1], cs[|cs| - 1];
      RetriedInsertIsExactOrConflicts(db, init, e, at);
      assert cs == init + [c];
      assert AllReplayed(db.rows, cs, e, at) <==>
        AllReplayed(db.rows, init, e, at) && ExactReplay(db.rows[c.ref], c, e, at);
    }
  }

  /** So after a crash between saving the candidates and recording a selection, only a retry with the same
      capture time goes on: with any other the cycle ends in a conflict, now and whenever it is tried again. */
  lemma RetryNeedsTheSameCaptureTime(db: Db, cs: seq<Candidate>, e: Envelope, first: int, at: int)
    requires cs != [] && D.SaveCandidates(db, cs, e, first).1.Success?
    ensures var saved := D.SaveCandidates(db, cs, e, first).0;
      D.SaveCandidates(saved, cs, e, at) == (saved, if at == first then Success(()) else Failure(Conflict))
  {
    var saved := D.SaveCandidates(db, cs, e, first).0;
    InsertedRows(db, cs, e, first);
    RetriedInsertIsExactOrConflicts(saved, cs, e, at);
    assert cs[0] in cs && ExactReplay(saved.rows[cs[0].ref], cs[0], e, first);
  }

  // ---------- final results ----------

  /** The store agrees with a final result of the cycle. */
  ghost predicate Settled(db: Db, windowEnd: int, e: Envelope, result: RunResult) {
    && result.snapshot.Some? && result.proposal.Some?
    && result.snapshot.value in CycleSnapshots(db, windowEnd, e)
    && SelectedRow(db, result.snapshot.value, result.proposal.value)
    && var row := db.rows[result.proposal.value];
       if result.status == RunNoChange then row.candidate.deltaUnits == 0 && row.state == PROPOSED
       else StateReported(result.status) == Some(row.state)
  }

  lemma OnlySelected(db: Db, s: SnapshotRef, p: ProposalRef)
    requires StoreInvariant(db) && SelectedRow(db, s, p)
    ensures SelectedOf(db.rows, s) == {p} && |SelectedOf(db.rows, s)| == 1 && Only(SelectedOf(db.rows, s)) == p
  {
    AtMostOneSelected(db, s);
    SingletonOf(SelectedOf(db.rows, s), p);
  }

  lemma OneOfMany<T>(s: set<T>, x: T)
    requires x in s
    ensures |s| > 1 <==> s != {x}
    ensures s == {x} ==> Only(s) == x
  {
    if |s| <= 1 { SingletonOf(s, x); }
  }

  /** Once the store agrees with a final result, a later run of the cycle returns that result and changes
      nothing exactly when the cycle has one snapshot; with a second snapshot every later run fails. */
  lemma SettledCyclesReplay(db: Db, windowEnd: int, e: Envelope, result: RunResult, at: int, answers: Answers)
    requires Sound(db) && FinalStatus(result.status) && Settled(db, windowEnd, e, result)
    requires windowEnd <= at && e.validFrom <= at < e.validUntil
    ensures RunToEnd(db, Begin(windowEnd, at, Some(e)), answers) ==
      (db, if CycleSnapshots(db, windowEnd, e) == {result.snapshot.value} then Returned(result) else Failed(MultipleRows))
  {
    var s, p := result.snapshot.value, result.proposal.value;
    var job := Job(windowEnd, at, e);
    OneOfMany(CycleSnapshots(db, windowEnd, e), s);
    OnlySelected(db, s, p);
    var next := WholeLookUp(db, job);
    LookUpRunsBothReads(db, job, answers);
    if CycleSnapshots(db, windowEnd, e) == {s} && result.status == RunNoChange {
      assert next == Finish(job, s, p, 0, PolicyStatusOf(db.rows[p]));
      assert RunToEnd(db, next, answers) == RunToEnd(db, End(RunNoChange, s, p), answers);
    }
  }

  // ---------- a run that ends with a final result leaves the store agreeing with it ----------

  ghost predicate CycleSnapshot(db: Db, job: Job, s: SnapshotRef) {
    s in CycleSnapshots(db, job.windowEnd, job.envelope)
  }

  /** The selected proposal is still undecided and the worker knows its policy status. */
  ghost predicate AtFinish(db: Db, pc: Pc) {
    && pc.Finish? && CycleSnapshot(db, pc.job, pc.snapshot) && SelectedRow(db, pc.snapshot, pc.proposal)
    && var row := db.rows[pc.proposal];
       row.state == PROPOSED && pc.deltaUnits == row.candidate.deltaUnits && pc.policyStatus == PolicyStatusOf(row)
  }

  ghost predicate Agrees(db: Db, windowEnd: int, e: Envelope, pc: Pc) {
    pc.Returned? && FinalStatus(pc.result.status) ==> Settled(db, windowEnd, e, pc.result)
  }

  /** A decision on the selected proposal keeps the cycle's snapshot and selection. */
  lemma DecisionKeepsCycle(db: Db, job: Job, s: SnapshotRef, p: ProposalRef, row: Row, after: Db)
    requires CycleSnapshot(db, job, s) && SelectedRow(db, s, p)
    requires row.candidate == db.rows[p].candidate && row.selection == db.rows[p].selection
    requires after == db.(rows := db.rows[p := row])
    ensures CycleSnapshot(after, job, s) && SelectedRow(after, s, p)
  {
    assert CycleSnapshots(after, job.windowEnd, job.envelope) == CycleSnapshots(db, job.windowEnd, job.envelope);
  }

  lemma DecidedAgrees(job: Job, s: SnapshotRef, p: ProposalRef, db: Db, row: Row, applied: bool)
    requires CycleSnapshot(db, job, s) && SelectedRow(db, s, p) && db.rows[p].state == PROPOSED
    requires row == if applied then AppliedRow(db.rows[p], job.capturedAt) else RejectedRow(db.rows[p], job.capturedAt)
    ensures Settled(db.(rows := db.rows[p := row]), job.windowEnd, job.envelope,
      RunResult(if applied then RunApplied else RunRejected, Some(s), Some(p)))
  {
    DecisionKeepsCycle(db, job, s, p, row, db.(rows := db.rows[p := row]));
  }

  lemma ApplyAgrees(db: Db, job: Job, s: SnapshotRef, p: ProposalRef, answers: Answers)
    requires StoreInvariant(db) && CycleSnapshot(db, job, s) && SelectedRow(db, s, p) && db.rows[p].state == PROPOSED
    ensures var (after, end) := ApplyStep(db, job, s, p, answers); Ended(end) && Agrees(after, job.windowEnd, job.envelope, end)
  {
    var (after, r) := D.Apply(db, p, answers.circuitClosed, job.capturedAt);
    ApplyDecides(db, p, answers.circuitClosed, job.capturedAt, after, r);
    if r.Success? { DecidedAgrees(job, s, p, db, after.rows[p], r.value.applied); }
  }

  lemma ApplyEnds(db: Db, job: Job, s: SnapshotRef, p: ProposalRef, answers: Answers)
    ensures RunToEnd(db, Pc.Apply(job, s, p), answers) == ApplyStep(db, job, s, p, answers)
  {
    var (after, end) := ApplyStep(db, job, s, p, answers);
    assert Step(db, Pc.Apply(job, s, p), answers) == (after, end);
    assert RunToEnd(after, end, answers) == (after, end);
  }

  lemma RunUnfolds(db: Db, pc: Pc, answers: Answers, after: Db, next: Pc)
    requires !Ended(pc) && Step(db, pc, answers) == (after, next)
    ensures RunToEnd(db, pc, answers) == RunToEnd(after, next, answers)
  {
  }

  lemma WriteAgrees(db: Db, pc: Pc, answers: Answers)
    requires Sound(db) && pc.WritePolicy? && PolicyState(pc.state)
    requires CycleSnapshot(db, pc.job, pc.snapshot) && Decidable(db, pc.snapshot, pc.proposal)
    requires db.rows[pc.proposal].state == PROPOSED
    ensures var (after, end) := RunToEnd(db, pc, answers); Agrees(after, pc.job.windowEnd, pc.job.envelope, end)
  {
    var job, s, p, policy, state := pc.job, pc.snapshot, pc.proposal, pc.policy, pc.state;
    var after := D.WritePolicy(db, p, policy, state, job.capturedAt);
    DecisionKeepsCycle(db, job, s, p, after.rows[p], after);
    RunUnfolds(db, pc, answers, after, AfterPolicy(job, s, p, state));
    if state == PROPOSED {
      WriteCallSound(db, s, p, policy, state, job.capturedAt);
      ApplyAgrees(after, job, s, p, answers);
      ApplyEnds(after, job, s, p, answers);
    }
  }

  /** What an undecided proposal turns to after its policy decision was read. */
  lemma AuthorizedStep(db: Db, pc: Pc, answers: Answers, next: Pc)
    requires Sound(db) && AtFinish(db, pc) && pc.deltaUnits != 0 && pc.policyStatus != Some(APPROVED)
    requires FinishStep(db, pc, answers) == (db, next)
    ensures next.WritePolicy? || Ended(next) || next.Apply?
    ensures next.WritePolicy? ==> (next.job == pc.job && next.snapshot == pc.snapshot
      && next.proposal == pc.proposal && PolicyState(next.state))
    ensures next.Apply? ==> next == Pc.Apply(pc.job, pc.snapshot, pc.proposal)
    ensures Ended(next) ==> Agrees(db, pc.job.windowEnd, pc.job.envelope, next)
  {
  }

  lemma FinishAgrees(db: Db, pc: Pc, answers: Answers)
    requires Sound(db) && AtFinish(db, pc)
    ensures var (after, end) := RunToEnd(db, pc, answers); Agrees(after, pc.job.windowEnd, pc.job.envelope, end)
  {
    var job, s, p := pc.job, pc.snapshot, pc.proposal;
    var (after, next) := FinishStep(db, pc, answers);
    RunUnfolds(db, pc, answers, after, next);
    if pc.deltaUnits == 0 {
    } else if pc.policyStatus == Some(APPROVED) {
      ApplyAgrees(db, job, s, p, answers);
    } else {
      assert after == db;
      AuthorizedStep(db, pc, answers, next);
      if next.Apply? {
        ApplyAgrees(db, job, s, p, answers);
        ApplyEnds(db, job, s, p, answers);
      } else if next.WritePolicy? {
        MovesAtMostOneUnit(db, p);
        WriteAgrees(db, next, answers);
      }
    }
  }

  /** No proposal of this snapshot is selected yet, hence none has a policy decision. */
  ghost predicate Unselected(db: Db, s: SnapshotRef) {
    SelectedOf(db.rows, s) == {}
  }

  lemma SelectAgrees(db: Db, job: Job, s: SnapshotRef, cs: seq<Candidate>, answers: Answers)
    requires Sound(db) && CycleSnapshot(db, job, s) && Unselected(db, s)
    requires forall c :: c in cs ==> c.ref in db.rows && db.rows[c.ref].candidate == c && c.snapshot == s
    ensures var (after, end) := RunToEnd(db, Pc.Select(job, s, cs), answers);
      Agrees(after, job.windowEnd, job.envelope, end)
  {
    var (after, next) := SelectStep(db, job, s, cs, answers);
    assert RunToEnd(db, Pc.Select(job, s, cs), answers) == RunToEnd(after, next, answers);
    if ValidSelection(answers.selection, s, cs) {
      var p := answers.selection.proposal;
      assert p in db.rows && db.rows[p].candidate.snapshot == s;
      NoWinnerMeansNoneSelected(db.rows, s);
      RowIsDisciplined(db, p);
      var made := Selection(SourceOf(p), answers.selection.confidence, answers.selection.reasons);
      SelectionCallSound(db, p, made, job.capturedAt);
      assert AtFinish(after, next);
      FinishAgrees(after, next, answers);
    }
  }

  /** Saving candidates selects none. */
  lemma SavedStayUnselected(db: Db, job: Job, s: SnapshotRef, cs: seq<Candidate>, after: Db)
    requires Unselected(db, s) && D.SaveCandidates(db, cs, job.envelope, job.capturedAt) == (after, Success(()))
    ensures Unselected(after, s) && after.snapshots == db.snapshots
    ensures forall c :: c in cs ==> c.ref in after.rows && after.rows[c.ref].candidate == c
  {
    InsertedRows(db, cs, job.envelope, job.capturedAt);
    forall r | r in after.rows && r !in db.rows ensures after.rows[r].selection == None {
      assert NewFrom(db, cs, job.envelope, job.capturedAt, r, after.rows[r]);
    }
    assert forall r :: r in SelectedOf(after.rows, s) ==> r in SelectedOf(db.rows, s);
  }

  lemma SavedCandidatesAgree(db: Db, job: Job, s: SnapshotRef, cs: seq<Candidate>, after: Db, answers: Answers)
    requires Sound(db) && KnownSnapshot(db, job, s) && Unselected(db, s) && Sound(after)
    requires Generated(s) == Success(cs) && D.SaveCandidates(db, cs, job.envelope, job.capturedAt) == (after, Success(()))
    ensures var (last, end) := RunToEnd(after, Pc.Select(job, s, cs), answers);
      Agrees(last, job.windowEnd, job.envelope, end)
  {
    SavedStayUnselected(db, job, s, cs, after);
    forall c | c in cs ensures c.snapshot == s {
      GeneratedIsGenuine(db, job, s, c);
    }
    assert db.snapshots[s].facts == s;
    SelectAgrees(after, job, s, cs, answers);
  }

  lemma SavedOrFailed(db: Db, job: Job, s: SnapshotRef, after: Db, next: Pc)
    requires SaveCandidatesStep(db, job, s) == (after, next)
    ensures next.Failed? || next.Select?
    ensures next.Select? ==>
      next == Pc.Select(job, s, next.candidates) && Generated(s) == Success(next.candidates)
      && D.SaveCandidates(db, next.candidates, job.envelope, job.capturedAt) == (after, Success(()))
  {
  }

  lemma SaveCandidatesAgrees(db: Db, job: Job, s: SnapshotRef, answers: Answers)
    requires Sound(db) && KnownSnapshot(db, job, s) && Unselected(db, s)
    ensures var (after, end) := RunToEnd(db, Pc.SaveCandidates(job, s), answers);
      Agrees(after, job.windowEnd, job.envelope, end)
  {
    var (after, next) := SaveCandidatesStep(db, job, s);
    RunUnfolds(db, Pc.SaveCandidates(job, s), answers, after, next);
    SaveCandidatesSound(db, job, s);
    SavedOrFailed(db, job, s, after, next);
    if next.Select? { SavedCandidatesAgree(db, job, s, next.candidates, after, answers); }
  }

  lemma RowIsInItsCycle(db: Db, job: Job, s: SnapshotRef, r: ProposalRef)
    requires Sound(db) && r in db.rows && db.rows[r].candidate.snapshot == s
    requires s.windowEnd == job.windowEnd && s.envelope == job.envelope
    ensures CycleSnapshot(db, job, s)
  {
    assert GenuineRow(db, db.rows[r]);
  }

  /** A selected proposal of the cycle is found, unless the cycle has several snapshots. */
  lemma SelectionIsFound(db: Db, job: Job, s: SnapshotRef, p: ProposalRef)
    requires Sound(db) && CycleSnapshot(db, job, s) && SelectedRow(db, s, p)
    ensures var found := D.ExistingCycle(db, job.windowEnd, job.envelope);
      found == Failure(MultipleRows) || found == Success(Some(Cycle(s, Some(p))))
  {
    OneOfMany(CycleSnapshots(db, job.windowEnd, job.envelope), s);
    OnlySelected(db, s, p);
  }

  /** When the look-up found no selection, no snapshot of the cycle has one. */
  lemma FreshMeansUnselected(db: Db, job: Job, s: SnapshotRef)
    requires Sound(db) && WholeLookUp(db, job) == ReadTip(job)
    requires s.windowEnd == job.windowEnd && s.envelope == job.envelope
    ensures Unselected(db, s)
  {
    if r :| r in SelectedOf(db.rows, s) {
      RowIsInItsCycle(db, job, s, r);
      SelectionIsFound(db, job, s, r);
    }
  }

  lemma FreshRunAgrees(db: Db, job: Job, answers: Answers)
    requires Sound(db) && WholeLookUp(db, job) == ReadTip(job)
    ensures var (after, end) := RunToEnd(db, ReadTip(job), answers); Agrees(after, job.windowEnd, job.envelope, end)
  {
    TipIsKnown(db, job.envelope);
    var current := D.ResolveCurrent(db, job.envelope).value;
    assert RunToEnd(db, ReadTip(job), answers) == RunToEnd(db, Pc.SaveSnapshot(job, current), answers);
    var (after, next) := SaveSnapshotStep(db, job, current, answers);
    assert RunToEnd(db, Pc.SaveSnapshot(job, current), answers) == RunToEnd(after, next, answers);
    SaveSnapshotSound(db, job, current, answers);
    if next.SaveCandidates? {
      FreshMeansUnselected(db, job, next.snapshot);
      SaveCandidatesAgrees(after, job, next.snapshot, answers);
    }
  }

  lemma FoundAgrees(db: Db, job: Job, answers: Answers)
    requires Sound(db) && WholeLookUp(db, job).Finish?
    ensures var (after, end) := RunToEnd(db, WholeLookUp(db, job), answers); Agrees(after, job.windowEnd, job.envelope, end)
  {
    FoundIsUndecided(db, job);
    FinishAgrees(db, WholeLookUp(db, job), answers);
  }

  lemma EndedLookUpAgrees(db: Db, job: Job, answers: Answers)
    requires Ended(WholeLookUp(db, job))
    ensures var (after, end) := RunToEnd(db, WholeLookUp(db, job), answers); Agrees(after, job.windowEnd, job.envelope, end)
  {
    var next := WholeLookUp(db, job);
    assert RunToEnd(db, next, answers) == (db, next);
    if next.Returned? { ReplayedResultIsSettled(db, job); }
  }

  lemma LookedUpAgrees(db: Db, job: Job, next: Pc, answers: Answers)
    requires Sound(db) && next == WholeLookUp(db, job)
    ensures var (after, end) := RunToEnd(db, next, answers); Agrees(after, job.windowEnd, job.envelope, end)
  {
    if next.ReadTip? {
      FreshRunAgrees(db, job, answers);
    } else if next.Finish? {
      FoundAgrees(db, job, answers);
    } else {
      EndedLookUpAgrees(db, job, answers);
    }
  }

  /** A cycle run on its own that ends with a final result leaves the store agreeing with that result. */
  lemma RunAgrees(db: Db, windowEnd: int, at: int, e: Envelope, answers: Answers)
    requires Sound(db)
    ensures var (after, end) := RunToEnd(db, Begin(windowEnd, at, Some(e)), answers); Agrees(after, windowEnd, e, end)
  {
    var start := Begin(windowEnd, at, Some(e));
    if start.LookUp? {
      LookUpRunsBothReads(db, start.job, answers);
      LookedUpAgrees(db, start.job, WholeLookUp(db, start.job), answers);
    }
  }

  lemma FoundIsUndecided(db: Db, job: Job)
    requires WholeLookUp(db, job).Finish?
    ensures AtFinish(db, WholeLookUp(db, job)) && WholeLookUp(db, job).job == job
  {
    var s := LookUpStep(db, job).snapshot;
    FoundIsSelected(db, s, WholeLookUp(db, job).proposal);
    assert CycleSnapshots(db, job.windowEnd, job.envelope) == {s};
  }

  lemma ReplayedResultIsSettled(db: Db, job: Job)
    requires WholeLookUp(db, job).Returned?
    ensures Settled(db, job.windowEnd, job.envelope, WholeLookUp(db, job).result)
  {
    var s := LookUpStep(db, job).snapshot;
    FoundIsSelected(db, s, WholeLookUp(db, job).result.proposal.value);
    assert CycleSnapshots(db, job.windowEnd, job.envelope) == {s};
  }

  lemma {:induction false} RunsAreSound(db: Db, pc: Pc, answers: Answers)
    requires Sound(db) && Informed(db, pc)
    ensures Sound(RunToEnd(db, pc, answers).0)
    decreases Remaining(pc)
  {
    if !Ended(pc) {
      StepsRunOut(db, pc, answers);
      StepSound(db, pc, answers);
      var (after, next) := Step(db, pc, answers);
      RunsAreSound(after, next, answers);
    }
  }

  /** The whole claim: when a run returns APPLIED, REJECTED, SHADOW_ONLY, POLICY_DENIED or NO_CHANGE, every
      later run of the cycle within the envelope's validity returns the same status and references and leaves
      the store unchanged, whatever it is answered, if and only if the cycle has a single snapshot. */
  lemma FinalResultsReplay(
    db: Db, windowEnd: int, e: Envelope, at: int, answers: Answers, later: int, laterAnswers: Answers)
    requires Sound(db)
    requires var end := RunToEnd(db, Begin(windowEnd, at, Some(e)), answers).1;
      end.Returned? && FinalStatus(end.result.status)
    requires windowEnd <= later && e.validFrom <= later < e.validUntil
    ensures var (after, end) := RunToEnd(db, Begin(windowEnd, at, Some(e)), answers);
      && end.result.snapshot.Some?
      && (RunToEnd(after, Begin(windowEnd, later, Some(e)), laterAnswers) == (after, end)
          <==> CycleSnapshots(after, windowEnd, e) == {end.result.snapshot.value})
  {
    var (after, end) := RunToEnd(db, Begin(windowEnd, at, Some(e)), answers);
    RunAgrees(db, windowEnd, at, e, answers);
    RunsAreSound(db, Begin(windowEnd, at, Some(e)), answers);
    SettledCyclesReplay(after, windowEnd, e, end.result, later, laterAnswers);
  }

  // ---------- attempts with crashes ----------

  /** An attempt makes at most `calls` store calls, then crashes. */
  datatype Attempt = Attempt(capturedAt: int, answers: Answers, calls: nat)

  ghost function Iterate<S(!new)>(step: S -> S, s: S, n: nat): S {
    if n == 0 then s else Iterate(step, step(s), n - 1)
  }

  lemma {:induction false} IterateKeeps<S(!new)>(step: S -> S, inv: S -> bool, s: S, n: nat)
    requires inv(s) && forall x :: inv(x) ==> inv(step(x))
    ensures inv(Iterate(step, s, n))
  {
    if n > 0 { IterateKeeps(step, inv, step(s), n - 1); }
  }

  ghost function NextCall(answers: Answers): ((Db, Pc)) -> (Db, Pc) {
    (x: (Db, Pc)) => Step(x.0, x.1, answers)
  }

  ghost function RunFor(db: Db, pc: Pc, answers: Answers, calls: nat): (Db, Pc) {
    Iterate(NextCall(answers), (db, pc), calls)
  }

  ghost function AfterAttempts(db: Db, windowEnd: int, e: Envelope, attempts: seq<Attempt>): Db {
    if attempts == [] then db else
      var before := AfterAttempts(db, windowEnd, e, attempts[..|attempts| - 1]);
      var a := attempts[|attempts| - 1];
      RunFor(before, Begin(windowEnd, a.capturedAt, Some(e)), a.answers, a.calls).0
  }

  /** The applied proposals of one cycle. */
  ghost function CycleApplied(db: Db, windowEnd: int, e: Envelope): set<ProposalRef> {
    set r | r in db.rows && db.rows[r].state == APPLIED
      && db.rows[r].candidate.snapshot.windowEnd == windowEnd && db.rows[r].candidate.snapshot.envelope == e
  }

  /** Until a selection exists nothing of the cycle is applied; afterwards only the selected proposal can be. */
  ghost predicate Single(db: Db, windowEnd: int, e: Envelope, pc: Pc) {
    && (!Ended(pc) ==> pc.job.windowEnd == windowEnd && pc.job.envelope == e)
    && match pc
       case LookUp(_) => |CycleApplied(db, windowEnd, e)| <= 1
       case ReadSelection(_, s) => |CycleApplied(db, windowEnd, e)| <= 1 && CycleSnapshots(db, windowEnd, e) == {s}
       case Finish(_, _, p, _, _) => CycleApplied(db, windowEnd, e) <= {p}
       case WritePolicy(_, _, p, _, _) => CycleApplied(db, windowEnd, e) <= {p}
       case Apply(_, _, p) => CycleApplied(db, windowEnd, e) <= {p}
       case Returned(_) => |CycleApplied(db, windowEnd, e)| <= 1
       case Failed(_) => |CycleApplied(db, windowEnd, e)| <= 1
       case _ => CycleApplied(db, windowEnd, e) == {}
  }

  lemma AtMostOneOf<T>(s: set<T>, p: T)
    requires s <= {p}
    ensures |s| <= 1
  {
    if s != {} { assert s == {p}; }
  }

  /** An applied proposal of the cycle is found by the second read, so the look-up ends the cycle. */
  lemma AppliedEndsLookUp(db: Db, job: Job, s: SnapshotRef, r: ProposalRef)
    requires Sound(db) && r in CycleApplied(db, job.windowEnd, job.envelope)
    requires CycleSnapshots(db, job.windowEnd, job.envelope) == {s}
    ensures SelectedRow(db, s, r) && Ended(ReadSelectionStep(db, job, s))
  {
    RowIsDisciplined(db, r);
    RowIsInItsCycle(db, job, db.rows[r].candidate.snapshot, r);
    OnlySelected(db, s, r);
  }

  lemma LookUpSingle(db: Db, job: Job)
    requires Sound(db) && |CycleApplied(db, job.windowEnd, job.envelope)| <= 1
    ensures Single(db, job.windowEnd, job.envelope, LookUpStep(db, job))
  {
    forall r | r in CycleApplied(db, job.windowEnd, job.envelope) ensures !LookUpStep(db, job).ReadTip? {
      RowIsDisciplined(db, r);
      RowIsInItsCycle(db, job, db.rows[r].candidate.snapshot, r);
    }
    assert LookUpStep(db, job).ReadTip? ==> CycleApplied(db, job.windowEnd, job.envelope) == {};
  }

  lemma ReadSelectionSingle(db: Db, job: Job, s: SnapshotRef)
    requires Sound(db) && Single(db, job.windowEnd, job.envelope, ReadSelection(job, s))
    ensures Single(db, job.windowEnd, job.envelope, ReadSelectionStep(db, job, s))
  {
    var applied := CycleApplied(db, job.windowEnd, job.envelope);
    forall r | r in applied ensures Ended(ReadSelectionStep(db, job, s)) {
      AppliedEndsLookUp(db, job, s, r);
    }
    assert Ended(ReadSelectionStep(db, job, s)) || applied == {};
  }

  lemma ApplySingle(db: Db, windowEnd: int, e: Envelope, p: ProposalRef, closed: bool, at: int)
    requires StoreInvariant(db) && p in db.rows && CycleApplied(db, windowEnd, e) <= {p}
    ensures CycleApplied(D.Apply(db, p, closed, at).0, windowEnd, e) <= {p}
  {
    ApplyChangesOneRow(db, p, closed, at);
  }

  lemma ApplyStepSingle(db: Db, job: Job, s: SnapshotRef, p: ProposalRef, answers: Answers)
    requires Sound(db) && Decidable(db, s, p) && CycleApplied(db, job.windowEnd, job.envelope) <= {p}
    ensures var (after, next) := ApplyStep(db, job, s, p, answers); Single(after, job.windowEnd, job.envelope, next)
  {
    ApplySingle(db, job.windowEnd, job.envelope, p, answers.circuitClosed, job.capturedAt);
    AtMostOneOf(CycleApplied(D.Apply(db, p, answers.circuitClosed, job.capturedAt).0, job.windowEnd, job.envelope), p);
  }

  /** Saving and selecting apply nothing. */
  lemma NothingNewApplied(db: Db, after: Db, windowEnd: int, e: Envelope)
    requires forall r :: r in after.rows && after.rows[r].state == APPLIED ==>
      r in db.rows && db.rows[r].state == APPLIED && db.rows[r].candidate == after.rows[r].candidate
    ensures CycleApplied(after, windowEnd, e) <= CycleApplied(db, windowEnd, e)
  {
  }

  lemma SaveSnapshotSingle(db: Db, job: Job, current: Current, answers: Answers)
    requires CycleApplied(db, job.windowEnd, job.envelope) == {}
    ensures var (after, next) := SaveSnapshotStep(db, job, current, answers); Single(after, job.windowEnd, job.envelope, next)
  {
    NothingNewApplied(db, SaveSnapshotStep(db, job, current, answers).0, job.windowEnd, job.envelope);
  }

  lemma SaveCandidatesSingle(db: Db, job: Job, s: SnapshotRef)
    requires CycleApplied(db, job.windowEnd, job.envelope) == {}
    ensures var (after, next) := SaveCandidatesStep(db, job, s); Single(after, job.windowEnd, job.envelope, next)
  {
    if Generated(s).Success? && D.SaveCandidates(db, Generated(s).value, job.envelope, job.capturedAt).1.Success? {
      var cs := Generated(s).value;
      var after := D.SaveCandidates(db, cs, job.envelope, job.capturedAt).0;
      InsertedRows(db, cs, job.envelope, job.capturedAt);
      forall r | r in after.rows && r !in db.rows ensures after.rows[r].state == PROPOSED {
        assert NewFrom(db, cs, job.envelope, job.capturedAt, r, after.rows[r]);
      }
      NothingNewApplied(db, after, job.windowEnd, job.envelope);
    }
  }

  lemma SelectionAppliesNone(db: Db, p: ProposalRef, s: Selection, at: int, windowEnd: int, e: Envelope)
    ensures CycleApplied(D.RecordSelection(db, p, s, at).0, windowEnd, e) <= CycleApplied(db, windowEnd, e)
  {
    var after := D.RecordSelection(db, p, s, at).0;
    if after != db {
      assert after.rows == db.rows[p := after.rows[p]];
      assert after.rows[p].state == db.rows[p].state && after.rows[p].candidate == db.rows[p].candidate;
    }
  }

  lemma SelectSingle(db: Db, job: Job, s: SnapshotRef, cs: seq<Candidate>, answers: Answers)
    requires CycleApplied(db, job.windowEnd, job.envelope) == {}
    ensures var (after, next) := SelectStep(db, job, s, cs, answers); Single(after, job.windowEnd, job.envelope, next)
  {
    var p := answers.selection.proposal;
    SelectionAppliesNone(db, p, Selection(SourceOf(p), answers.selection.confidence, answers.selection.reasons),
      job.capturedAt, job.windowEnd, job.envelope);
  }

  lemma FinishSingle(db: Db, pc: Pc, answers: Answers)
    requires Sound(db) && pc.Finish? && Informed(db, pc) && Single(db, pc.job.windowEnd, pc.job.envelope, pc)
    ensures var (after, next) := FinishStep(db, pc, answers); Single(after, pc.job.windowEnd, pc.job.envelope, next)
  {
    AtMostOneOf(CycleApplied(db, pc.job.windowEnd, pc.job.envelope), pc.proposal);
    if pc.deltaUnits != 0 && pc.policyStatus == Some(APPROVED) {
      ApplyStepSingle(db, pc.job, pc.snapshot, pc.proposal, answers);
    }
  }

  lemma WriteSingle(db: Db, pc: Pc)
    requires pc.WritePolicy? && PolicyState(pc.state) && Single(db, pc.job.windowEnd, pc.job.envelope, pc)
    ensures Single(D.WritePolicy(db, pc.proposal, pc.policy, pc.state, pc.job.capturedAt), pc.job.windowEnd,
      pc.job.envelope, AfterPolicy(pc.job, pc.snapshot, pc.proposal, pc.state))
  {
    var after := D.WritePolicy(db, pc.proposal, pc.policy, pc.state, pc.job.capturedAt);
    NothingNewApplied(db, after, pc.job.windowEnd, pc.job.envelope);
    AtMostOneOf(CycleApplied(after, pc.job.windowEnd, pc.job.envelope), pc.proposal);
  }

  lemma ReadTipSingle(db: Db, job: Job)
    requires CycleApplied(db, job.windowEnd, job.envelope) == {}
    ensures Single(db, job.windowEnd, job.envelope, ReadTipStep(db, job))
  {
  }

  lemma EarlyStepSingle(db: Db, windowEnd: int, e: Envelope, pc: Pc, answers: Answers)
    requires Sound(db) && Informed(db, pc) && Single(db, windowEnd, e, pc) && Remaining(pc) > 4
    ensures var (after, next) := Step(db, pc, answers); Single(after, windowEnd, e, next)
  {
    match pc
    case LookUp(job) => LookUpSingle(db, job);
    case ReadSelection(job, s) => ReadSelectionSingle(db, job, s);
    case ReadTip(job) => ReadTipSingle(db, job);
    case SaveSnapshot(job, current) => SaveSnapshotSingle(db, job, current, answers);
    case SaveCandidates(job, s) => SaveCandidatesSingle(db, job, s);
  }

  lemma StepSingle(db: Db, windowEnd: int, e: Envelope, pc: Pc, answers: Answers)
    requires Sound(db) && Informed(db, pc) && Single(db, windowEnd, e, pc)
    ensures var (after, next) := Step(db, pc, answers); Single(after, windowEnd, e, next)
  {
    match pc
    case Select(job, s, cs) => SelectSingle(db, job, s, cs, answers);
    case Finish(_, _, _, _, _) => FinishSingle(db, pc, answers);
    case WritePolicy(_, _, _, _, _) => WriteSingle(db, pc);
    case Apply(job, s, p) => ApplyStepSingle(db, job, s, p, answers);
    case _ => if !Ended(pc) { EarlyStepSingle(db, windowEnd, e, pc, answers); }
  }

  ghost predicate Attempting(windowEnd: int, e: Envelope, x: (Db, Pc)) {
    Sound(x.0) && Informed(x.0, x.1) && Single(x.0, windowEnd, e, x.1)
  }

  lemma StepKeepsAttempting(windowEnd: int, e: Envelope, x: (Db, Pc), answers: Answers)
    requires Attempting(windowEnd, e, x)
    ensures Attempting(windowEnd, e, Step(x.0, x.1, answers))
  {
    StepSound(x.0, x.1, answers);
    StepSingle(x.0, windowEnd, e, x.1, answers);
  }

  lemma SingleBoundsApplied(db: Db, windowEnd: int, e: Envelope, pc: Pc)
    requires Single(db, windowEnd, e, pc)
    ensures |CycleApplied(db, windowEnd, e)| <= 1
  {
    if pc.Finish? || pc.WritePolicy? || pc.Apply? {
      AtMostOneOf(CycleApplied(db, windowEnd, e), pc.proposal);
    }
  }

  lemma RunForKeepsAttempting(db: Db, windowEnd: int, e: Envelope, pc: Pc, answers: Answers, calls: nat)
    requires Attempting(windowEnd, e, (db, pc))
    ensures Attempting(windowEnd, e, RunFor(db, pc, answers, calls))
  {
    var inv := x => Attempting(windowEnd, e, x);
    forall x | inv(x) ensures inv(NextCall(answers)(x)) {
      StepKeepsAttempting(windowEnd, e, x, answers);
    }
    IterateKeeps(NextCall(answers), inv, (db, pc), calls);
  }

  /** However often a cycle is attempted, wherever each attempt crashes and whatever it is answered, the
      attempts together commit at most one allocation change. */
  lemma {:induction false} AttemptsCommitAtMostOnce(db: Db, windowEnd: int, e: Envelope, attempts: seq<Attempt>)
    requires Sound(db) && |CycleApplied(db, windowEnd, e)| <= 1
    ensures var after := AfterAttempts(db, windowEnd, e, attempts);
      Sound(after) && |CycleApplied(after, windowEnd, e)| <= 1
  {
    if attempts != [] {
      var before := AfterAttempts(db, windowEnd, e, attempts[..|attempts| - 1]);
      var a := attempts[|attempts| - 1];
      AttemptsCommitAtMostOnce(db, windowEnd, e, attempts[..|attempts| - 1]);
      var start := Begin(windowEnd, a.capturedAt, Some(e));
      RunForKeepsAttempting(before, windowEnd, e, start, a.answers, a.calls);
      var (after, stop) := RunFor(before, start, a.answers, a.calls);
      SingleBoundsApplied(after, windowEnd, e, stop);
    }
  }

  // ---------- a crash that blocks a cycle ----------

  ghost function FirstSnapshot(windowEnd: int, at: int, e: Envelope, metrics: seq<CellMetrics>): SnapshotRef {
    SnapshotFacts(Job(windowEnd, at, e), Current(Initial(e), InitialAllocation(e)), metrics)
  }

  lemma NothingAppliedMeansInitial(db: Db, e: Envelope)
    requires db.rows == map[]
    ensures D.ResolveCurrent(db, e) == Success(Current(Initial(e), InitialAllocation(e)))
  {
    assert Successors(db.rows, e, AuthorityOf(e, None)) == {};
  }

  /** An attempt that crashes right after saving its snapshot leaves that snapshot and nothing else. */
  lemma CrashAfterSnapshot(windowEnd: int, at: int, e: Envelope, answers: Answers)
    requires windowEnd <= at && e.validFrom <= at < e.validUntil
    ensures var s := FirstSnapshot(windowEnd, at, e, answers.metrics);
      RunFor(EMPTY_DB, Begin(windowEnd, at, Some(e)), answers, 3).0 == Db(map[s := Snapshot(s, s, at)], map[])
  {
    var job := Job(windowEnd, at, e);
    var current := Current(Initial(e), InitialAllocation(e));
    var s := SnapshotFacts(job, current, answers.metrics);
    NothingAppliedMeansInitial(EMPTY_DB, e);
    InitialAllocationIsValid(e);
    assert CycleSnapshots(EMPTY_DB, windowEnd, e) == {};
    var call := NextCall(answers);
    assert call((EMPTY_DB, LookUp(job))) == (EMPTY_DB, ReadTip(job));
    assert call((EMPTY_DB, ReadTip(job))) == (EMPTY_DB, Pc.SaveSnapshot(job, current));
    var x := call((EMPTY_DB, Pc.SaveSnapshot(job, current)));
    assert x.0 == Db(map[s := Snapshot(s, s, at)], map[]);
    assert x == Iterate(call, x, 0) == Iterate(call, (EMPTY_DB, Pc.SaveSnapshot(job, current)), 1)
      == Iterate(call, (EMPTY_DB, ReadTip(job)), 2);
  }

  lemma OneScoreMeansNoMove(e: Envelope, a: Allocation, scores: seq<EconomicScore>)
    requires |scores| == 1 && C.Compatible(e, a)
    ensures C.BestMoves(e, a, scores) == []
  {
    forall m ensures !C.LegalMove(e, a, scores, m) {
      assert forall x :: x in scores ==> x == scores[0];
    }
    C.NoMovesMeansNoLegalMove(e, a, scores);
  }

  lemma OneMetricMeansNoShift(s: SnapshotRef)
    requires |s.metrics| == 1 && C.Compatible(s.envelope, s.current)
    ensures Generated(s) == Success([C.NoChangeCandidate(s, s.current, BaselineOf(s))])
  {
    OneScoreMeansNoMove(s.envelope, s.current, Scores(s.metrics));
    var c, none := C.NoChangeCandidate(s, s.current, BaselineOf(s)), C.ShiftCandidates(s, s.current, BaselineOf(s), []);
    assert none == [] && [c] + none == [c];
    assert C.Generate(s, s.envelope, Scores(s.metrics), BaselineOf(s), s.current) == Success([c] + none);
  }

  lemma SelectedNoChangeReturns(db: Db, job: Job, s: SnapshotRef, c: Candidate, answers: Answers)
    requires db.rows == map[c.ref := NewRow(c, job.envelope, job.capturedAt)]
    requires c == C.NoChangeCandidate(s, s.current, BaselineOf(s))
    requires answers.selection.snapshot == s && answers.selection.proposal == c.ref
    ensures var (after, end) := RunToEnd(db, Pc.Select(job, s, [c]), answers);
      end == End(RunNoChange, s, c.ref) && after.snapshots == db.snapshots
  {
    assert c in [c];
    assert SelectedOf(db.rows, s) == {};
    var (after, next) := SelectStep(db, job, s, [c], answers);
    assert next == Finish(job, s, c.ref, 0, None);
    RunUnfolds(db, Pc.Select(job, s, [c]), answers, after, next);
    RunUnfolds(after, next, answers, after, End(RunNoChange, s, c.ref));
  }

  /** With one metric there is nothing to move units to, so an attempt in a store without proposals saves the
      unchanged allocation, and when that is selected it returns NO_CHANGE. */
  lemma LoneCandidateReturns(db: Db, job: Job, s: SnapshotRef, answers: Answers)
    requires db.rows == map[] && s in db.snapshots && |s.metrics| == 1 && C.Compatible(s.envelope, s.current)
    requires answers.selection.snapshot == s
    requires answers.selection.proposal == C.NoChangeCandidate(s, s.current, BaselineOf(s)).ref
    ensures var (after, end) := RunToEnd(db, Pc.SaveCandidates(job, s), answers);
      end == End(RunNoChange, s, answers.selection.proposal) && after.snapshots == db.snapshots
  {
    var c := C.NoChangeCandidate(s, s.current, BaselineOf(s));
    OneMetricMeansNoShift(s);
    var rows := map[c.ref := NewRow(c, job.envelope, job.capturedAt)];
    assert InsertAll(db, [], job.envelope, job.capturedAt) == Success(map[]);
    assert [c][..0] == [];
    assert InsertAll(db, [c], job.envelope, job.capturedAt) == Success(rows);
    RunUnfolds(db, Pc.SaveCandidates(job, s), answers, db.(rows := rows), Pc.Select(job, s, [c]));
    SelectedNoChangeReturns(db.(rows := rows), job, s, c, answers);
  }

  lemma SavesNewSnapshot(db: Db, job: Job, current: Current, s: SnapshotRef, answers: Answers)
    requires D.ResolveCurrent(db, job.envelope) == Success(current) && C.Compatible(job.envelope, current.allocation)
    requires s == SnapshotFacts(job, current, answers.metrics) && s !in db.snapshots
    ensures RunToEnd(db, ReadTip(job), answers)
      == RunToEnd(db.(snapshots := db.snapshots[s := Snapshot(s, s, job.capturedAt)]), Pc.SaveCandidates(job, s), answers)
  {
    RunUnfolds(db, ReadTip(job), answers, db, Pc.SaveSnapshot(job, current));
    var saved := db.(snapshots := db.snapshots[s := Snapshot(s, s, job.capturedAt)]);
    RunUnfolds(db, Pc.SaveSnapshot(job, current), answers, saved, Pc.SaveCandidates(job, s));
  }

  lemma FindsNoSelection(db: Db, job: Job, s: SnapshotRef)
    requires db.rows == map[] && CycleSnapshots(db, job.windowEnd, job.envelope) == {s}
    ensures WholeLookUp(db, job) == ReadTip(job)
  {
    assert SelectedOf(db.rows, s) == {};
  }

  /** A crashed attempt's snapshot does not stop one with different metrics from saving its own. */
  lemma OtherMetricsSaveAnotherSnapshot(windowEnd: int, at: int, e: Envelope, s1: SnapshotRef, answers: Answers)
    requires windowEnd <= at && e.validFrom <= at < e.validUntil
    requires s1.windowEnd == windowEnd && s1.envelope == e && FirstSnapshot(windowEnd, at, e, answers.metrics) != s1
    ensures var db := Db(map[s1 := Snapshot(s1, s1, at)], map[]);
      var s2 := FirstSnapshot(windowEnd, at, e, answers.metrics);
      C.Compatible(e, s2.current)
      && RunToEnd(db, Begin(windowEnd, at, Some(e)), answers)
        == RunToEnd(db.(snapshots := db.snapshots[s2 := Snapshot(s2, s2, at)]), Pc.SaveCandidates(Job(windowEnd, at, e), s2), answers)
  {
    var job, current := Job(windowEnd, at, e), Current(Initial(e), InitialAllocation(e));
    var db, s2 := Db(map[s1 := Snapshot(s1, s1, at)], map[]), FirstSnapshot(windowEnd, at, e, answers.metrics);
    NothingAppliedMeansInitial(db, e);
    InitialAllocationIsValid(e);
    FindsNoSelection(db, job, s1);
    LookUpRunsBothReads(db, job, answers);
    SavesNewSnapshot(db, job, current, s2, answers);
  }

  /** Why the single snapshot is needed: a cycle crashes after saving its snapshot; when it is tried again the
      metrics have changed, so the retry saves a second snapshot and returns NO_CHANGE; and from then on every
      run of the cycle fails. */
  lemma SecondSnapshotBlocksCycle(
    windowEnd: int, at: int, e: Envelope, first: Answers, second: Answers, later: int, third: Answers)
    requires windowEnd <= at && e.validFrom <= at < e.validUntil
    requires windowEnd <= later && e.validFrom <= later < e.validUntil
    requires first.metrics == [] && |second.metrics| == 1
    requires second.selection.snapshot == FirstSnapshot(windowEnd, at, e, second.metrics)
    requires var s := second.selection.snapshot;
      second.selection.proposal == C.NoChangeCandidate(s, s.current, BaselineOf(s)).ref
    ensures var crashed := RunFor(EMPTY_DB, Begin(windowEnd, at, Some(e)), first, 3).0;
      var (after, end) := RunToEnd(crashed, Begin(windowEnd, at, Some(e)), second);
      && end == End(RunNoChange, second.selection.snapshot, second.selection.proposal)
      && RunToEnd(after, Begin(windowEnd, later, Some(e)), third) == (after, Failed(MultipleRows))
  {
    var s1, s2 := FirstSnapshot(windowEnd, at, e, first.metrics), second.selection.snapshot;
    CrashAfterSnapshot(windowEnd, at, e, first);
    var crashed := RunFor(EMPTY_DB, Begin(windowEnd, at, Some(e)), first, 3).0;
    SortKeeps(second.metrics, MetricLeq);
    assert s1 != s2;
    OtherMetricsSaveAnotherSnapshot(windowEnd, at, e, s1, second);
    var saved := crashed.(snapshots := crashed.snapshots[s2 := Snapshot(s2, s2, at)]);
    LoneCandidateReturns(saved, Job(windowEnd, at, e), s2, second);
    var (after, end) := RunToEnd(crashed, Begin(windowEnd, at, Some(e)), second);
    TwoSnapshotsFail(after, windowEnd, later, e, s1, s2, third);
  }

  lemma TwoSnapshotsFail(db: Db, windowEnd: int, later: int, e: Envelope, s1: SnapshotRef, s2: SnapshotRef, answers: Answers)
    requires windowEnd <= later && e.validFrom <= later < e.validUntil
    requires s1 != s2 && {s1, s2} <= CycleSnapshots(db, windowEnd, e)
    ensures RunToEnd(db, Begin(windowEnd, later, Some(e)), answers) == (db, Failed(MultipleRows))
  {
    OneOfMany(CycleSnapshots(db, windowEnd, e), s2);
    RunUnfolds(db, LookUp(Job(windowEnd, later, e)), answers, db, Failed(MultipleRows));
  }
}
