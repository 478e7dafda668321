/** What the reports of workers are worth in any run: other workers, other cycles and crashes may come between a
    report and every later look at the store. */
module CycleReports {
  import opened Wrappers
  import opened LearningContracts
  import D = LearningDb
  import opened LearningDb
  import opened AuthorityChain
  import opened LearningWorker
  import opened LearningRuns
  import opened CycleReplay

  // ---------- a worker stays on the cycle it was started for ----------

  ghost predicate InCycle(windowEnd: int, e: Option<Envelope>, s: SnapshotRef) {
    s.windowEnd == windowEnd && e == Some(s.envelope)
  }

  ghost predicate OnCycle(db: Db, windowEnd: int, e: Option<Envelope>, pc: Pc) {
    match pc
    case Failed(_) => true
    case Returned(result) => result.snapshot.Some? ==> InCycle(windowEnd, e, result.snapshot.value)
    case LookUp(job) => HasJob(windowEnd, e, job)
    case ReadSelection(job, s) => HasJob(windowEnd, e, job) && InCycle(windowEnd, e, s)
    case ReadTip(job) => HasJob(windowEnd, e, job)
    case SaveSnapshot(job, _) => HasJob(windowEnd, e, job)
    case SaveCandidates(job, s) => HasJob(windowEnd, e, job) && InCycle(windowEnd, e, s)
    case Select(job, s, cs) => HasJob(windowEnd, e, job) && KnownSnapshot(db, job, s) && AllOf(s, cs)
    case Finish(job, s, _, _, _) => HasJob(windowEnd, e, job) && InCycle(windowEnd, e, s)
    case WritePolicy(job, s, _, _, _) => HasJob(windowEnd, e, job) && InCycle(windowEnd, e, s)
    case Apply(job, s, _) => HasJob(windowEnd, e, job) && InCycle(windowEnd, e, s)
  }

  ghost predicate HasJob(windowEnd: int, e: Option<Envelope>, job: Job) {
    job.windowEnd == windowEnd && e == Some(job.envelope)
  }

  ghost predicate AllOf(s: SnapshotRef, cs: seq<Candidate>) {
    forall c :: c in cs ==> c.snapshot == s
  }

  lemma CycleNeverChanges(before: Db, after: Db, windowEnd: int, e: Option<Envelope>, pc: Pc)
    requires Persists(before, after) && OnCycle(before, windowEnd, e, pc)
    ensures OnCycle(after, windowEnd, e, pc)
  {
    if pc.Select? { BaseNeverExpires(before, after, pc.snapshot.envelope, BaselineOf(pc.snapshot), pc.snapshot.current); }
  }

  lemma LookUpStaysOnCycle(db: Db, windowEnd: int, e: Option<Envelope>, job: Job)
    requires GenuineSnapshots(db) && HasJob(windowEnd, e, job)
    ensures OnCycle(db, windowEnd, e, LookUpStep(db, job))
  {
    var found := D.FindSnapshot(db, job.windowEnd, job.envelope);
    if found.Success? && found.value.Some? {
      assert found.value.value in CycleSnapshots(db, job.windowEnd, job.envelope);
    }
  }

  lemma SaveCandidatesStaysOnCycle(db: Db, windowEnd: int, e: Option<Envelope>, job: Job, s: SnapshotRef)
    requires Sound(db) && KnownSnapshot(db, job, s) && HasJob(windowEnd, e, job)
    ensures var (after, next) := SaveCandidatesStep(db, job, s); OnCycle(after, windowEnd, e, next)
  {
    SaveCandidatesSound(db, job, s);
    var (after, next) := SaveCandidatesStep(db, job, s);
    if next.Select? {
      BaseNeverExpires(db, after, s.envelope, BaselineOf(s), s.current);
      forall c | c in next.candidates ensures c.snapshot == s {
        GeneratedIsGenuine(db, job, s, c);
      }
    }
  }

  lemma SelectionStaysInSnapshot(db: Db, p: ProposalRef, s: Selection, at: int)
    requires D.RecordSelection(db, p, s, at).1.Success?
    ensures var (after, r) := D.RecordSelection(db, p, s, at);
      r.value in after.rows && after.rows[r.value].candidate.snapshot == db.rows[p].candidate.snapshot
  {
    var winners := SelectedOf(db.rows, db.rows[p].candidate.snapshot);
    if db.rows[p].selection == None && |winners| == 1 { assert Only(winners) in winners; }
  }

  lemma SelectStaysOnCycle(db: Db, windowEnd: int, e: Option<Envelope>, job: Job, s: SnapshotRef, cs: seq<Candidate>, answers: Answers)
    requires OnCycle(db, windowEnd, e, Pc.Select(job, s, cs)) && Stored(db, job.envelope, cs)
    ensures var (after, next) := SelectStep(db, job, s, cs, answers); OnCycle(after, windowEnd, e, next)
  {
    if ValidSelection(answers.selection, s, cs) {
      var p := answers.selection.proposal;
      var c :| c in cs && c.ref == p;
      assert db.rows[p].candidate == c;
      var made := Selection(SourceOf(p), answers.selection.confidence, answers.selection.reasons);
      if D.RecordSelection(db, p, made, job.capturedAt).1.Success? {
        SelectionStaysInSnapshot(db, p, made, job.capturedAt);
      }
    }
  }

  lemma ApplyStaysOnCycle(db: Db, windowEnd: int, e: Option<Envelope>, job: Job, s: SnapshotRef, p: ProposalRef, answers: Answers)
    requires InCycle(windowEnd, e, s)
    ensures var (after, next) := ApplyStep(db, job, s, p, answers); OnCycle(after, windowEnd, e, next)
  {
  }

  lemma FinishStaysOnCycle(db: Db, windowEnd: int, e: Option<Envelope>, pc: Pc, answers: Answers)
    requires pc.Finish? && OnCycle(db, windowEnd, e, pc)
    ensures var (after, next) := FinishStep(db, pc, answers); OnCycle(after, windowEnd, e, next)
  {
    if pc.deltaUnits != 0 && pc.policyStatus == Some(APPROVED) {
      ApplyStaysOnCycle(db, windowEnd, e, pc.job, pc.snapshot, pc.proposal, answers);
    }
  }

  lemma ReadSelectionStaysOnCycle(db: Db, windowEnd: int, e: Option<Envelope>, job: Job, s: SnapshotRef)
    requires HasJob(windowEnd, e, job) && InCycle(windowEnd, e, s)
    ensures OnCycle(db, windowEnd, e, ReadSelectionStep(db, job, s))
  {
  }

  lemma SaveSnapshotStaysOnCycle(db: Db, windowEnd: int, e: Option<Envelope>, job: Job, current: Current, answers: Answers)
    requires HasJob(windowEnd, e, job)
    ensures var (after, next) := SaveSnapshotStep(db, job, current, answers); OnCycle(after, windowEnd, e, next)
  {
  }

  lemma WriteStaysOnCycle(db: Db, windowEnd: int, e: Option<Envelope>, job: Job, s: SnapshotRef, p: ProposalRef, state: ProposalState)
    requires HasJob(windowEnd, e, job) && InCycle(windowEnd, e, s)
    ensures OnCycle(db, windowEnd, e, AfterPolicy(job, s, p, state))
  {
  }

  lemma StepStaysOnCycle(db: Db, windowEnd: int, e: Option<Envelope>, pc: Pc, answers: Answers)
    requires Sound(db) && Informed(db, pc) && OnCycle(db, windowEnd, e, pc)
    ensures var (after, next) := Step(db, pc, answers); OnCycle(after, windowEnd, e, next)
  {
    match pc
    case LookUp(job) => LookUpStaysOnCycle(db, windowEnd, e, job);
    case ReadSelection(job, s) => ReadSelectionStaysOnCycle(db, windowEnd, e, job, s);
    case ReadTip(job) =>
    case SaveSnapshot(job, current) => SaveSnapshotStaysOnCycle(db, windowEnd, e, job, current, answers);
    case SaveCandidates(job, s) => SaveCandidatesStaysOnCycle(db, windowEnd, e, job, s);
    case Select(job, s, cs) => SelectStaysOnCycle(db, windowEnd, e, job, s, cs, answers);
    case Finish(_, _, _, _, _) => FinishStaysOnCycle(db, windowEnd, e, pc, answers);
    case WritePolicy(job, s, p, policy, state) =>
      WriteStaysOnCycle(D.WritePolicy(db, p, policy, state, job.capturedAt), windowEnd, e, job, s, p, state);
    case Apply(job, s, p) => ApplyStaysOnCycle(db, windowEnd, e, job, s, p, answers);
    case _ =>
  }

  // ---------- over every run ----------

  ghost predicate WorkerOnCycle(db: Db, x: Worker) {
    OnCycle(db, x.windowEnd, x.envelope, x.pc)
  }

  ghost predicate AllOnCycle(s: System) {
    forall w :: w in s.workers ==> WorkerOnCycle(s.db, s.workers[w])
  }

  lemma EventKeepsOnCycle(s: System, event: Event)
    requires SystemSound(s) && AllOnCycle(s)
    ensures AllOnCycle(Next(s, event)) && Persists(s.db, Next(s, event).db)
  {
    match event
    case Advance(w, answers) =>
      if w in s.workers {
        var x := s.workers[w];
        var after := Step(s.db, x.pc, answers).0;
        assert Informed(s.db, x.pc) && WorkerOnCycle(s.db, x);
        StepSound(s.db, x.pc, answers);
        StepStaysOnCycle(s.db, x.windowEnd, x.envelope, x.pc, answers);
        forall v | v in s.workers ensures WorkerOnCycle(after, s.workers[v]) {
          CycleNeverChanges(s.db, after, s.workers[v].windowEnd, s.workers[v].envelope, s.workers[v].pc);
        }
      }
    case _ =>
  }

  lemma {:induction false} ExecutionOnCycle(events: seq<Event>)
    ensures SystemSound(Execution(events)) && AllOnCycle(Execution(events))
  {
    ExecutionSound(events);
    if events != [] {
      ExecutionOnCycle(events[..|events| - 1]);
      EventKeepsOnCycle(Execution(events[..|events| - 1]), events[|events| - 1]);
    }
  }

  lemma ExecutionStep(events: seq<Event>, event: Event)
    ensures Execution(events + [event]) == Next(Execution(events), event)
  {
    assert (events + [event])[..|events|] == events;
  }

  /** Nothing that may not be undone is undone by any later events. */
  lemma {:induction false} ExecutionPersists(events: seq<Event>, later: seq<Event>)
    ensures Persists(Execution(events).db, Execution(events + later).db)
  {
    if later == [] {
      assert events + later == events;
    } else {
      var init, last := later[..|later| - 1], later[|later| - 1];
      assert events + later == events + init + [last];
      ExecutionPersists(events, init);
      ExecutionStep(events + init, last);
      ExecutionOnCycle(events + init);
      EventKeepsOnCycle(Execution(events + init), last);
      PersistsTransitive(Execution(events).db, Execution(events + init).db, Execution(events + later).db);
    }
  }

  // ---------- reports ----------

  predicate PolicyReport(status: RunStatus) {
    status == RunShadowOnly || status == RunPolicyDenied
  }

  /** The selected proposal is in the state that was reported. */
  ghost predicate Stands(db: Db, result: RunResult) {
    && result.proposal.Some? && result.proposal.value in db.rows
    && StateReported(result.status) == Some(db.rows[result.proposal.value].state)
  }

  lemma NoChangeStaysProposed(db: Db, p: ProposalRef)
    requires GenuineRows(db) && p in db.rows && db.rows[p].candidate.deltaUnits == 0
    ensures db.rows[p].state == PROPOSED
  {
    assert GenuineRow(db, db.rows[p]);
  }

  lemma ReportIsSettled(db: Db, windowEnd: int, e: Envelope, result: RunResult)
    requires Sound(db) && ReportHolds(db, result) && FinalStatus(result.status)
    requires InCycle(windowEnd, Some(e), result.snapshot.value)
    ensures !PolicyReport(result.status) || Stands(db, result) ==> Settled(db, windowEnd, e, result)
  {
    if result.status == RunNoChange { NoChangeStaysProposed(db, result.proposal.value); }
  }

  /** In any run, whatever happens later: a report of APPLIED, REJECTED or NO_CHANGE agrees with the store for ever. */
  lemma ReportsHoldForEver(events: seq<Event>, later: seq<Event>, w: nat)
    requires w in Execution(events).workers && Execution(events).workers[w].pc.Returned?
    requires Execution(events).workers[w].pc.result.status in {RunApplied, RunRejected, RunNoChange}
    ensures var x := Execution(events).workers[w];
      x.envelope.Some? && Settled(Execution(events + later).db, x.windowEnd, x.envelope.value, x.pc.result)
  {
    var x, end := Execution(events).workers[w], Execution(events + later).db;
    ReportInRun(events, later, w);
    ReportIsSettled(end, x.windowEnd, x.envelope.value, x.pc.result);
  }

  lemma ReportInRun(events: seq<Event>, later: seq<Event>, w: nat)
    requires w in Execution(events).workers && Execution(events).workers[w].pc.Returned?
    requires FinalStatus(Execution(events).workers[w].pc.result.status)
    ensures var x, end := Execution(events).workers[w], Execution(events + later).db;
      && Sound(end) && x.envelope.Some? && ReportHolds(end, x.pc.result)
      && InCycle(x.windowEnd, x.envelope, x.pc.result.snapshot.value)
  {
    var s, x := Execution(events), Execution(events).workers[w];
    ExecutionOnCycle(events);
    ExecutionSound(events + later);
    ExecutionPersists(events, later);
    assert Informed(s.db, x.pc) && WorkerOnCycle(s.db, x);
    ReportNeverExpires(s.db, Execution(events + later).db, x.pc.result);
  }

  /** A later run of the cycle gets another result when the proposal is in another state than was reported. */
  lemma FallenReportIsNotReplayed(db: Db, windowEnd: int, e: Envelope, result: RunResult, at: int, answers: Answers)
    requires Sound(db) && ReportHolds(db, result) && PolicyReport(result.status) && !Stands(db, result)
    requires InCycle(windowEnd, Some(e), result.snapshot.value)
    requires windowEnd <= at && e.validFrom <= at < e.validUntil
    ensures RunToEnd(db, Begin(windowEnd, at, Some(e)), answers) != (db, Returned(result))
  {
    var row := db.rows[result.proposal.value];
    var actual := RunResult(StatusOfState(row.state).value, result.snapshot, result.proposal);
    SettledCyclesReplay(db, windowEnd, e, actual, at, answers);
  }

  /** In any run, at any later point: running the cycle again returns a final report and changes nothing if and
      only if the cycle then has a single snapshot and, for SHADOW_ONLY and POLICY_DENIED, the report stands. */
  lemma ReportsReplayIff(events: seq<Event>, later: seq<Event>, w: nat, at: int, answers: Answers)
    requires w in Execution(events).workers && Execution(events).workers[w].pc.Returned?
    requires FinalStatus(Execution(events).workers[w].pc.result.status)
    requires Execution(events).workers[w].windowEnd <= at && Execution(events).workers[w].envelope.Some?
    requires var e := Execution(events).workers[w].envelope.value; e.validFrom <= at < e.validUntil
    ensures var x, end := Execution(events).workers[w], Execution(events + later).db;
      && x.pc.result.snapshot.Some?
      && (RunToEnd(end, Begin(x.windowEnd, at, x.envelope), answers) == (end, x.pc)
          <==> CycleSnapshots(end, x.windowEnd, x.envelope.value) == {x.pc.result.snapshot.value}
               && (PolicyReport(x.pc.result.status) ==> Stands(end, x.pc.result)))
  {
    var x, end := Execution(events).workers[w], Execution(events + later).db;
    var result, e := x.pc.result, x.envelope.value;
    ReportInRun(events, later, w);
    if PolicyReport(result.status) && !Stands(end, result) {
      FallenReportIsNotReplayed(end, x.windowEnd, e, result, at, answers);
    } else {
      ReportIsSettled(end, x.windowEnd, e, result);
      SettledCyclesReplay(end, x.windowEnd, e, result, at, answers);
    }
  }

  /** A SHADOW_ONLY or POLICY_DENIED report stands, and then for ever, if and only if it was not given after a
      guarded write, or the proposal was at that write still PROPOSED or already in the state to be written. */
  lemma PolicyReportStandsIff(events: seq<Event>, w: nat, answers: Answers, later: seq<Event>)
    requires w in Execution(events).workers && !Ended(Execution(events).workers[w].pc)
    requires var next := Step(Execution(events).db, Execution(events).workers[w].pc, answers).1;
      next.Returned? && PolicyReport(next.result.status)
    ensures var s, pc := Execution(events), Execution(events).workers[w].pc;
      var result := Step(s.db, pc, answers).1.result;
      && Execution(events + [Advance(w, answers)]).workers[w].pc == Returned(result)
      && (pc.WritePolicy? ==> pc.proposal in s.db.rows)
      && (Stands(Execution(events + [Advance(w, answers)] + later).db, result)
          <==> (pc.WritePolicy? ==> s.db.rows[pc.proposal].state in {PROPOSED, pc.state}))
  {
    var s, pc := Execution(events), Execution(events).workers[w].pc;
    var (after, next) := Step(s.db, pc, answers);
    ExecutionSound(events);
    ExecutionStep(events, Advance(w, answers));
    ExecutionPersists(events + [Advance(w, answers)], later);
    assert Informed(s.db, pc);
    StepSound(s.db, pc, answers);
    PolicyReportAtStep(s.db, pc, answers, after, next);
    StandsForEver(after, Execution(events + [Advance(w, answers)] + later).db, next.result);
  }

  lemma StandsForEver(before: Db, after: Db, result: RunResult)
    requires Persists(before, after) && ReportHolds(before, result) && PolicyReport(result.status)
    ensures Stands(after, result) <==> Stands(before, result)
  {
    assert RowPersists(before.rows[result.proposal.value], after.rows[result.proposal.value]);
  }

  lemma PolicyReportAtStep(db: Db, pc: Pc, answers: Answers, after: Db, next: Pc)
    requires Sound(db) && Informed(db, pc) && !Ended(pc) && Step(db, pc, answers) == (after, next)
    requires next.Returned? && PolicyReport(next.result.status)
    ensures pc.WritePolicy? ==> pc.proposal in db.rows
    ensures Stands(after, next.result) <==> (pc.WritePolicy? ==> db.rows[pc.proposal].state in {PROPOSED, pc.state})
  {
    match pc
    case ReadSelection(job, s) => FoundReportStands(db, job, s);
    case Finish(_, _, _, _, _) => ReplayedReportStands(db, pc, answers, after, next);
    case WritePolicy(_, _, _, _, _) => WrittenReportStands(db, pc, answers, after, next);
    case _ =>
  }

  lemma ReplayedReportStands(db: Db, pc: Pc, answers: Answers, after: Db, next: Pc)
    requires pc.Finish? && Informed(db, pc) && Step(db, pc, answers) == (after, next)
    requires next.Returned? && PolicyReport(next.result.status)
    ensures Stands(after, next.result)
  {
  }

  lemma WrittenReportStands(db: Db, pc: Pc, answers: Answers, after: Db, next: Pc)
    requires pc.WritePolicy? && Informed(db, pc) && Step(db, pc, answers) == (after, next)
    requires next.Returned? && PolicyReport(next.result.status)
    ensures Stands(after, next.result) <==> db.rows[pc.proposal].state in {PROPOSED, pc.state}
  {
  }

  lemma FoundReportStands(db: Db, job: Job, s: SnapshotRef)
    requires ReadSelectionStep(db, job, s).Returned?
    ensures Stands(db, ReadSelectionStep(db, job, s).result)
  {
    FoundIsSelected(db, s, ReadSelectionStep(db, job, s).result.proposal.value);
  }
}
