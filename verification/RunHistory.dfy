/** Where every value in the store comes from: in any run, each column of a row or a snapshot was given by an answer
    to some earlier call, and says what was done. */
module RunHistory {
  import opened Wrappers
  import opened Ordering
  import opened LearningContracts
  import D = LearningDb
  import opened LearningDb
  import opened AuthorityChain
  import opened LearningWorker
  import opened LearningRuns
  import opened CycleReports
  import opened CycleRaces

  // ---------- what was answered ----------

  ghost predicate AnsweredMetrics(events: seq<Event>, metrics: seq<CellMetrics>) {
    exists i :: 0 <= i < |events| && events[i].Advance? && multiset(events[i].answers.metrics) == multiset(metrics)
  }

  ghost predicate NamesSelection(answers: Answers, c: Candidate, s: Selection) {
    && answers.selection.snapshot == c.snapshot && answers.selection.proposal == c.ref
    && answers.selection.confidence == s.confidence && answers.selection.reasons == s.reasons
  }

  /** The selector named this candidate, for its own snapshot. */
  ghost predicate AnsweredSelection(events: seq<Event>, c: Candidate, s: Selection) {
    exists i :: 0 <= i < |events| && events[i].Advance? && NamesSelection(events[i].answers, c, s)
  }

  /** The gateway gave this decision: one that may be executed for PROPOSED, and otherwise one that would have been
      approved for SHADOW_ONLY and one that would not for POLICY_DENIED. */
  ghost predicate GivesPolicy(answers: Answers, p: Policy, state: ProposalState) {
    && answers.authorization.Some?
    && var a := answers.authorization.value;
       && p.evaluationId == a.evaluationId && p.actionFingerprint == a.actionFingerprint
       && p.status == a.status && p.counterfactual == a.counterfactual
       && match state
          case PROPOSED => a.allowed && a.executable
          case SHADOW_ONLY => !(a.allowed && a.executable) && a.counterfactual == Some("APPROVED")
          case POLICY_DENIED => !(a.allowed && a.executable) && a.counterfactual != Some("APPROVED")
          case _ => false
  }

  ghost predicate AnsweredPolicy(events: seq<Event>, p: Policy, state: ProposalState) {
    exists i :: 0 <= i < |events| && events[i].Advance? && GivesPolicy(events[i].answers, p, state)
  }

  // ---------- what rows, snapshots and workers tell ----------

  ghost predicate Timely(windowEnd: int, e: Envelope, at: int) {
    windowEnd <= at && e.validFrom <= at < e.validUntil
  }

  /** The columns that later calls fill in. */
  ghost predicate Told(row: Row) {
    && (row.appliedAt.Some? <==> row.state == APPLIED)
    && (row.appliedAt.Some? ==> row.appliedAt == row.decidedAt)
    && row.decisionReason == (if row.state == APPLIED then Some("POLICY_APPROVED_APPLICATION")
         else if row.state == REJECTED then Some("STALE_ALLOCATION_BASELINE") else None)
    && (row.decidedAt.Some? <==> row.selection.Some?)
    && (row.policy.Some? ==> row.selection.Some?)
    && (row.state != PROPOSED ==> row.policy.Some?)
    && (row.state in {APPLIED, REJECTED} ==> row.policy.value.status == "APPROVED")
    && (row.decidedAt.Some? ==> Timely(row.candidate.snapshot.windowEnd, row.envelope, row.decidedAt.value))
    && (row.selection.Some? ==>
          row.selection.value.source == if row.candidate.kind == NoChange then "KIVOU_NO_CHANGE" else "HERMES")
  }

  /** The state its policy was recorded with. */
  function RecordedWith(state: ProposalState): ProposalState {
    if state == SHADOW_ONLY || state == POLICY_DENIED then state else PROPOSED
  }

  ghost predicate RowHistory(events: seq<Event>, row: Row) {
    && Told(row) && Timely(row.candidate.snapshot.windowEnd, row.envelope, row.createdAt)
    && (row.selection.Some? ==> AnsweredSelection(events, row.candidate, row.selection.value))
    && (row.policy.Some? ==> AnsweredPolicy(events, row.policy.value, RecordedWith(row.state)))
  }

  ghost predicate InKeyOrder(metrics: seq<CellMetrics>) {
    forall i, j :: 0 <= i < j < |metrics| ==> StringLeq(metrics[i].cell.Key(), metrics[j].cell.Key())
  }

  ghost predicate SnapshotHistory(events: seq<Event>, s: Snapshot) {
    && s.ref == s.facts && Timely(s.facts.windowEnd, s.facts.envelope, s.capturedAt)
    && AnsweredMetrics(events, s.facts.metrics) && InKeyOrder(s.facts.metrics)
  }

  ghost predicate WorkerHistory(events: seq<Event>, pc: Pc) {
    && (!Ended(pc) ==> Timely(pc.job.windowEnd, pc.job.envelope, pc.job.capturedAt))
    && (pc.WritePolicy? ==> AnsweredPolicy(events, pc.policy, pc.state))
  }

  ghost predicate RowsHistory(events: seq<Event>, rows: Rows) {
    forall r {:trigger RowHistory(events, rows[r])} :: r in rows ==> RowHistory(events, rows[r])
  }

  ghost predicate SnapshotsHistory(events: seq<Event>, snapshots: map<SnapshotRef, Snapshot>) {
    forall s {:trigger SnapshotHistory(events, snapshots[s])} :: s in snapshots ==> SnapshotHistory(events, snapshots[s])
  }

  ghost predicate WorkersHistory(events: seq<Event>, workers: map<nat, Worker>) {
    forall w {:trigger WorkerHistory(events, workers[w].pc)} :: w in workers ==> WorkerHistory(events, workers[w].pc)
  }

  ghost predicate History(events: seq<Event>, s: System) {
    RowsHistory(events, s.db.rows) && SnapshotsHistory(events, s.db.snapshots) && WorkersHistory(events, s.workers)
  }

  // ---------- history only grows ----------

  lemma MetricsStayAnswered(events: seq<Event>, event: Event, metrics: seq<CellMetrics>)
    ensures AnsweredMetrics(events, metrics) ==> AnsweredMetrics(events + [event], metrics)
    ensures event.Advance? && multiset(event.answers.metrics) == multiset(metrics) ==> AnsweredMetrics(events + [event], metrics)
  {
    var all := events + [event];
    assert all[|events|] == event;
    if i :| 0 <= i < |events| && events[i].Advance? && multiset(events[i].answers.metrics) == multiset(metrics) {
      assert all[i] == events[i];
    }
  }

  lemma SelectionStaysAnswered(events: seq<Event>, event: Event, c: Candidate, s: Selection)
    ensures AnsweredSelection(events, c, s) ==> AnsweredSelection(events + [event], c, s)
    ensures event.Advance? && NamesSelection(event.answers, c, s) ==> AnsweredSelection(events + [event], c, s)
  {
    var all := events + [event];
    assert all[|events|] == event;
    if i :| 0 <= i < |events| && events[i].Advance? && NamesSelection(events[i].answers, c, s) {
      assert all[i] == events[i];
    }
  }

  lemma PolicyStaysAnswered(events: seq<Event>, event: Event, p: Policy, state: ProposalState)
    ensures AnsweredPolicy(events, p, state) ==> AnsweredPolicy(events + [event], p, state)
    ensures event.Advance? && GivesPolicy(event.answers, p, state) ==> AnsweredPolicy(events + [event], p, state)
  {
    var all := events + [event];
    assert all[|events|] == event;
    if i :| 0 <= i < |events| && events[i].Advance? && GivesPolicy(events[i].answers, p, state) {
      assert all[i] == events[i];
    }
  }

  lemma RowStays(events: seq<Event>, event: Event, row: Row)
    requires RowHistory(events, row)
    ensures RowHistory(events + [event], row)
  {
    if row.selection.Some? { SelectionStaysAnswered(events, event, row.candidate, row.selection.value); }
    if row.policy.Some? { PolicyStaysAnswered(events, event, row.policy.value, RecordedWith(row.state)); }
  }

  lemma RowsStay(events: seq<Event>, event: Event, rows: Rows)
    requires RowsHistory(events, rows)
    ensures RowsHistory(events + [event], rows)
  {
    forall r | r in rows ensures RowHistory(events + [event], rows[r]) { RowStays(events, event, rows[r]); }
  }

  lemma SnapshotsStay(events: seq<Event>, event: Event, snapshots: map<SnapshotRef, Snapshot>)
    requires SnapshotsHistory(events, snapshots)
    ensures SnapshotsHistory(events + [event], snapshots)
  {
    forall s | s in snapshots ensures SnapshotHistory(events + [event], snapshots[s]) {
      assert SnapshotHistory(events, snapshots[s]);
      MetricsStayAnswered(events, event, snapshots[s].facts.metrics);
    }
  }

  lemma WorkerStays(events: seq<Event>, event: Event, pc: Pc)
    requires WorkerHistory(events, pc)
    ensures WorkerHistory(events + [event], pc)
  {
    if pc.WritePolicy? { PolicyStaysAnswered(events, event, pc.policy, pc.state); }
  }

  lemma OneRowChanged(events: seq<Event>, rows: Rows, p: ProposalRef, row: Row)
    requires RowsHistory(events, rows) && RowHistory(events, row)
    ensures RowsHistory(events, rows[p := row])
  {
    var after := rows[p := row];
    forall r | r in after ensures RowHistory(events, after[r]) {
      if r != p { assert RowHistory(events, rows[r]); }
    }
  }

  // ---------- one step ----------

  /** The step with the event that made it. */
  ghost predicate StepHistory(events: seq<Event>, after: Db, next: Pc) {
    RowsHistory(events, after.rows) && SnapshotsHistory(events, after.snapshots) && WorkerHistory(events, next)
  }

  lemma MetricOrder()
    ensures IsPreorder(MetricLeq)
  {
    forall x, y ensures MetricLeq(x, y) || MetricLeq(y, x) {
      StringLeqTotal(x.cell.Key(), y.cell.Key());
    }
    forall x, y, z | MetricLeq(x, y) && MetricLeq(y, z) ensures MetricLeq(x, z) {
      StringLeqTransitive(x.cell.Key(), y.cell.Key(), z.cell.Key());
    }
  }

  lemma SavedSnapshotHistory(events: seq<Event>, db: Db, job: Job, current: Current, w: nat, answers: Answers)
    requires RowsHistory(events, db.rows) && SnapshotsHistory(events, db.snapshots)
    requires Timely(job.windowEnd, job.envelope, job.capturedAt)
    ensures var (after, next) := SaveSnapshotStep(db, job, current, answers);
      StepHistory(events + [Advance(w, answers)], after, next)
  {
    var event := Advance(w, answers);
    var s := SnapshotFacts(job, current, answers.metrics);
    RowsStay(events, event, db.rows);
    SnapshotsStay(events, event, db.snapshots);
    MetricOrder();
    SortSorts(answers.metrics, MetricLeq);
    SortKeeps(answers.metrics, MetricLeq);
    MetricsStayAnswered(events, event, s.metrics);
    assert SnapshotHistory(events + [event], Snapshot(s, s, job.capturedAt));
  }

  lemma NewRowsHistory(events: seq<Event>, db: Db, cs: seq<Candidate>, e: Envelope, at: int, after: Rows)
    requires RowsHistory(events, db.rows) && RowsKept(db.rows, after)
    requires forall c :: c in cs ==> Timely(c.snapshot.windowEnd, e, at)
    requires forall r :: r in after && r !in db.rows ==> NewFrom(db, cs, e, at, r, after[r])
    ensures RowsHistory(events, after)
  {
    forall r | r in after ensures RowHistory(events, after[r]) {
      if r in db.rows {
        assert RowHistory(events, db.rows[r]);
      } else {
        var c :| c in cs && c.ref == r && c.snapshot in db.snapshots && after[r] == NewRow(c, e, at);
      }
    }
  }

  lemma SavedCandidatesHistory(events: seq<Event>, db: Db, job: Job, s: SnapshotRef)
    requires RowsHistory(events, db.rows) && SnapshotsHistory(events, db.snapshots)
    requires Sound(db) && KnownSnapshot(db, job, s) && Timely(job.windowEnd, job.envelope, job.capturedAt)
    ensures var (after, next) := SaveCandidatesStep(db, job, s); StepHistory(events, after, next)
  {
    if Generated(s).Success? {
      var cs := Generated(s).value;
      var (after, r) := D.SaveCandidates(db, cs, job.envelope, job.capturedAt);
      if r.Success? {
        InsertedRows(db, cs, job.envelope, job.capturedAt);
        forall c | c in cs ensures Timely(c.snapshot.windowEnd, job.envelope, job.capturedAt) {
          GeneratedIsGenuine(db, job, s, c);
        }
        NewRowsHistory(events, db, cs, job.envelope, job.capturedAt, after.rows);
      }
    }
  }

  lemma RecordedSelectionHistory(events: seq<Event>, db: Db, p: ProposalRef, made: Selection, at: int, answers: Answers)
    requires RowsHistory(events, db.rows) && p in db.rows && Disciplined(db.rows[p])
    requires Timely(db.rows[p].candidate.snapshot.windowEnd, db.rows[p].envelope, at)
    requires AnsweredSelection(events, db.rows[p].candidate, made)
    requires made.source == SourceOf(p) && p.kind == db.rows[p].candidate.kind
    ensures RowsHistory(events, D.RecordSelection(db, p, made, at).0.rows)
  {
    var after := D.RecordSelection(db, p, made, at).0;
    var row := db.rows[p];
    assert RowHistory(events, row);
    if after != db {
      assert after.rows == db.rows[p := row.(selection := Some(made), decidedAt := Some(at))];
      assert RowHistory(events, after.rows[p]);
      OneRowChanged(events, db.rows, p, after.rows[p]);
    }
  }

  lemma RefsAreTheirCandidates(db: Db, p: ProposalRef)
    requires Sound(db) && p in db.rows
    ensures db.rows[p].candidate.ref == p
  {
  }

  lemma GeneratedKind(s: SnapshotRef, c: Candidate)
    requires Generated(s).Success? && c in Generated(s).value
    ensures c.ref.kind == c.kind
  {
  }

  lemma SelectedHistory(events: seq<Event>, db: Db, job: Job, s: SnapshotRef, cs: seq<Candidate>, w: nat, answers: Answers)
    requires RowsHistory(events, db.rows) && SnapshotsHistory(events, db.snapshots) && Sound(db)
    requires Stored(db, job.envelope, cs) && AllOf(s, cs) && s.windowEnd == job.windowEnd
    requires Timely(job.windowEnd, job.envelope, job.capturedAt)
    ensures var (after, next) := SelectStep(db, job, s, cs, answers);
      StepHistory(events + [Advance(w, answers)], after, next)
  {
    var event := Advance(w, answers);
    RowsStay(events, event, db.rows);
    SnapshotsStay(events, event, db.snapshots);
    if ValidSelection(answers.selection, s, cs) {
      var p := answers.selection.proposal;
      var c :| c in cs && c.ref == p;
      var made := Selection(SourceOf(p), answers.selection.confidence, answers.selection.reasons);
      assert db.rows[p].candidate == c && GenuineRow(db, db.rows[p]);
      GeneratedKind(c.snapshot, c);
      assert NamesSelection(answers, c, made);
      SelectionStaysAnswered(events, event, c, made);
      RecordedSelectionHistory(events + [event], db, p, made, job.capturedAt, answers);
      RecordingChangesRowsOnly(db, p, made, job.capturedAt);
    }
  }

  lemma RecordingChangesRowsOnly(db: Db, p: ProposalRef, s: Selection, at: int)
    ensures D.RecordSelection(db, p, s, at).0.snapshots == db.snapshots
  {
  }

  lemma AuthorizedHistory(events: seq<Event>, db: Db, job: Job, s: SnapshotRef, p: ProposalRef, w: nat, answers: Answers)
    requires Timely(job.windowEnd, job.envelope, job.capturedAt)
    ensures WorkerHistory(events + [Advance(w, answers)], AuthorizeStep(db, job, s, p, answers))
  {
    if answers.authorization.Some? {
      var a := answers.authorization.value;
      assert GivesPolicy(answers, PolicyOf(a), StateOf(a));
      PolicyStaysAnswered(events, Advance(w, answers), PolicyOf(a), StateOf(a));
    }
  }

  lemma WrittenHistory(events: seq<Event>, db: Db, p: ProposalRef, policy: Policy, state: ProposalState, at: int)
    requires RowsHistory(events, db.rows) && p in db.rows && db.rows[p].selection.Some? && PolicyState(state)
    requires Timely(db.rows[p].candidate.snapshot.windowEnd, db.rows[p].envelope, at) && AnsweredPolicy(events, policy, state)
    ensures RowsHistory(events, D.WritePolicy(db, p, policy, state, at).rows)
  {
    var after := D.WritePolicy(db, p, policy, state, at);
    assert RowHistory(events, db.rows[p]);
    if db.rows[p].state == PROPOSED {
      assert RowHistory(events, after.rows[p]);
      OneRowChanged(events, db.rows, p, after.rows[p]);
    }
  }

  lemma AppliedHistory(events: seq<Event>, db: Db, p: ProposalRef, closed: bool, at: int)
    requires RowsHistory(events, db.rows) && StoreInvariant(db) && p in db.rows && db.rows[p].selection.Some?
    requires Timely(db.rows[p].candidate.snapshot.windowEnd, db.rows[p].envelope, at)
    ensures RowsHistory(events, D.Apply(db, p, closed, at).0.rows)
  {
    var after := D.Apply(db, p, closed, at).0;
    ApplyChangesOneRow(db, p, closed, at);
    assert RowHistory(events, db.rows[p]);
    if after != db {
      assert RowHistory(events, after.rows[p]);
      OneRowChanged(events, db.rows, p, after.rows[p]);
    }
  }

  /** The job of a worker at its proposal is timely for that proposal. */
  lemma TimelyForRow(db: Db, windowEnd: int, e: Option<Envelope>, pc: Pc)
    requires Sound(db) && OnCycle(db, windowEnd, e, pc) && WorkerHistoryTime(pc)
    requires (pc.Finish? || pc.WritePolicy? || pc.Apply?) && SelectedRow(db, pc.snapshot, pc.proposal)
    ensures Timely(db.rows[pc.proposal].candidate.snapshot.windowEnd, db.rows[pc.proposal].envelope, pc.job.capturedAt)
  {
    SelectedRestsOnSnapshot(db, pc.snapshot, pc.proposal);
  }

  ghost predicate WorkerHistoryTime(pc: Pc) {
    !Ended(pc) ==> Timely(pc.job.windowEnd, pc.job.envelope, pc.job.capturedAt)
  }

  lemma ApplyingHistory(events: seq<Event>, db: Db, pc: Pc, w: nat, answers: Answers)
    requires RowsHistory(events, db.rows) && SnapshotsHistory(events, db.snapshots) && StoreInvariant(db)
    requires (pc.Finish? || pc.Apply?) && SelectedRow(db, pc.snapshot, pc.proposal)
    requires Timely(db.rows[pc.proposal].candidate.snapshot.windowEnd, db.rows[pc.proposal].envelope, pc.job.capturedAt)
    ensures var (after, next) := ApplyStep(db, pc.job, pc.snapshot, pc.proposal, answers);
      StepHistory(events + [Advance(w, answers)], after, next)
  {
    RowsStay(events, Advance(w, answers), db.rows);
    SnapshotsStay(events, Advance(w, answers), db.snapshots);
    ApplyChangesOneRow(db, pc.proposal, answers.circuitClosed, pc.job.capturedAt);
    AppliedHistory(events + [Advance(w, answers)], db, pc.proposal, answers.circuitClosed, pc.job.capturedAt);
  }

  lemma FinishedHistory(events: seq<Event>, db: Db, pc: Pc, w: nat, answers: Answers)
    requires RowsHistory(events, db.rows) && SnapshotsHistory(events, db.snapshots) && StoreInvariant(db)
    requires pc.Finish? && SelectedRow(db, pc.snapshot, pc.proposal) && WorkerHistoryTime(pc)
    requires Timely(db.rows[pc.proposal].candidate.snapshot.windowEnd, db.rows[pc.proposal].envelope, pc.job.capturedAt)
    ensures var (after, next) := FinishStep(db, pc, answers); StepHistory(events + [Advance(w, answers)], after, next)
  {
    RowsStay(events, Advance(w, answers), db.rows);
    SnapshotsStay(events, Advance(w, answers), db.snapshots);
    if pc.deltaUnits != 0 && pc.policyStatus == Some(APPROVED) {
      ApplyingHistory(events, db, pc, w, answers);
    } else if pc.deltaUnits != 0 {
      AuthorizedHistory(events, db, pc.job, pc.snapshot, pc.proposal, w, answers);
    }
  }

  lemma WritingHistory(events: seq<Event>, db: Db, pc: Pc, w: nat, answers: Answers)
    requires RowsHistory(events, db.rows) && SnapshotsHistory(events, db.snapshots)
    requires pc.WritePolicy? && SelectedRow(db, pc.snapshot, pc.proposal) && WorkerHistory(events, pc) && PolicyState(pc.state)
    requires Timely(db.rows[pc.proposal].candidate.snapshot.windowEnd, db.rows[pc.proposal].envelope, pc.job.capturedAt)
    ensures StepHistory(events + [Advance(w, answers)],
      D.WritePolicy(db, pc.proposal, pc.policy, pc.state, pc.job.capturedAt),
      AfterPolicy(pc.job, pc.snapshot, pc.proposal, pc.state))
  {
    RowsStay(events, Advance(w, answers), db.rows);
    SnapshotsStay(events, Advance(w, answers), db.snapshots);
    PolicyStaysAnswered(events, Advance(w, answers), pc.policy, pc.state);
    WrittenHistory(events + [Advance(w, answers)], db, pc.proposal, pc.policy, pc.state, pc.job.capturedAt);
  }

  lemma ReadingHistory(events: seq<Event>, db: Db, pc: Pc, w: nat, answers: Answers)
    requires RowsHistory(events, db.rows) && SnapshotsHistory(events, db.snapshots) && WorkerHistoryTime(pc)
    requires pc.LookUp? || pc.ReadSelection? || pc.ReadTip?
    ensures var (after, next) := Step(db, pc, answers); StepHistory(events + [Advance(w, answers)], after, next)
  {
    RowsStay(events, Advance(w, answers), db.rows);
    SnapshotsStay(events, Advance(w, answers), db.snapshots);
  }

  lemma EarlyStepHistory(events: seq<Event>, db: Db, x: Worker, w: nat, answers: Answers)
    requires RowsHistory(events, db.rows) && SnapshotsHistory(events, db.snapshots)
    requires Sound(db) && Informed(db, x.pc) && WorkerOnCycle(db, x) && WorkerHistory(events, x.pc)
    requires x.pc.SaveSnapshot? || x.pc.SaveCandidates? || x.pc.Select?
    ensures var (after, next) := Step(db, x.pc, answers); StepHistory(events + [Advance(w, answers)], after, next)
  {
    RowsStay(events, Advance(w, answers), db.rows);
    SnapshotsStay(events, Advance(w, answers), db.snapshots);
    match x.pc
    case SaveSnapshot(job, current) => SavedSnapshotHistory(events, db, job, current, w, answers);
    case SaveCandidates(job, s) => SavedCandidatesHistory(events + [Advance(w, answers)], db, job, s);
    case Select(job, s, cs) => SelectedHistory(events, db, job, s, cs, w, answers);
  }

  lemma LateStepHistory(events: seq<Event>, db: Db, x: Worker, w: nat, answers: Answers)
    requires RowsHistory(events, db.rows) && SnapshotsHistory(events, db.snapshots)
    requires Sound(db) && Informed(db, x.pc) && WorkerOnCycle(db, x) && WorkerHistory(events, x.pc)
    requires x.pc.Finish? || x.pc.WritePolicy? || x.pc.Apply?
    ensures var (after, next) := Step(db, x.pc, answers); StepHistory(events + [Advance(w, answers)], after, next)
  {
    TimelyForRow(db, x.windowEnd, x.envelope, x.pc);
    match x.pc
    case Finish(_, _, _, _, _) => FinishedHistory(events, db, x.pc, w, answers);
    case WritePolicy(_, _, _, _, _) => WritingHistory(events, db, x.pc, w, answers);
    case Apply(_, _, _) => ApplyingHistory(events, db, x.pc, w, answers);
  }

  lemma StepKeepsHistory(events: seq<Event>, db: Db, x: Worker, w: nat, answers: Answers)
    requires RowsHistory(events, db.rows) && SnapshotsHistory(events, db.snapshots)
    requires Sound(db) && Informed(db, x.pc) && WorkerOnCycle(db, x) && WorkerHistory(events, x.pc)
    ensures var (after, next) := Step(db, x.pc, answers); StepHistory(events + [Advance(w, answers)], after, next)
  {
    if Ended(x.pc) {
      RowsStay(events, Advance(w, answers), db.rows);
      SnapshotsStay(events, Advance(w, answers), db.snapshots);
    } else if x.pc.LookUp? || x.pc.ReadSelection? || x.pc.ReadTip? {
      ReadingHistory(events, db, x.pc, w, answers);
    } else if x.pc.Finish? || x.pc.WritePolicy? || x.pc.Apply? {
      LateStepHistory(events, db, x, w, answers);
    } else {
      EarlyStepHistory(events, db, x, w, answers);
    }
  }

  // ---------- every run ----------

  lemma WorkersStay(events: seq<Event>, event: Event, workers: map<nat, Worker>)
    requires WorkersHistory(events, workers)
    ensures WorkersHistory(events + [event], workers)
  {
    forall w | w in workers ensures WorkerHistory(events + [event], workers[w].pc) {
      WorkerStays(events, event, workers[w].pc);
    }
  }

  lemma OneWorkerChanged(events: seq<Event>, workers: map<nat, Worker>, w: nat, x: Worker)
    requires WorkersHistory(events, workers) && WorkerHistory(events, x.pc)
    ensures WorkersHistory(events, workers[w := x])
  {
    var after := workers[w := x];
    forall v | v in after ensures WorkerHistory(events, after[v].pc) {
      if v != w { assert WorkerHistory(events, workers[v].pc); }
    }
  }

  lemma EventKeepsHistory(events: seq<Event>, s: System, event: Event)
    requires SystemSound(s) && AllOnCycle(s) && History(events, s)
    ensures History(events + [event], Next(s, event))
  {
    RowsStay(events, event, s.db.rows);
    SnapshotsStay(events, event, s.db.snapshots);
    WorkersStay(events, event, s.workers);
    match event
    case Start(w, windowEnd, at, e) => OneWorkerChanged(events + [event], s.workers, w, Worker(windowEnd, e, Begin(windowEnd, at, e)));
    case Advance(w, answers) =>
      if w in s.workers {
        var x := s.workers[w];
        assert Informed(s.db, x.pc) && WorkerOnCycle(s.db, x) && WorkerHistory(events, x.pc);
        StepKeepsHistory(events, s.db, x, w, answers);
        OneWorkerChanged(events + [event], s.workers, w, x.(pc := Step(s.db, x.pc, answers).1));
      }
    case Crash(w) =>
      forall v | v in s.workers - {w} ensures WorkerHistory(events + [event], (s.workers - {w})[v].pc) {
        assert WorkerHistory(events + [event], s.workers[v].pc);
      }
  }

  /** In every run: whatever a snapshot or a row says was answered to an earlier call, its times lie within the
      validity of its envelope and not before its window ends, and its columns tell what was done with it. */
  lemma {:induction false} EveryColumnHasItsHistory(events: seq<Event>)
    ensures History(events, Execution(events))
  {
    if events != [] {
      var init, last := events[..|events| - 1], events[|events| - 1];
      EveryColumnHasItsHistory(init);
      ExecutionOnCycle(init);
      EventKeepsHistory(init, Execution(init), last);
      assert init + [last] == events;
    }
  }

  /** In every run nothing is applied, or even rejected as stale, without an earlier authorization that was allowed,
      executable and approved, given for exactly the recorded policy. */
  lemma NothingAppliedUnauthorized(events: seq<Event>, r: ProposalRef) returns (i: nat)
    requires r in Execution(events).db.rows && Execution(events).db.rows[r].state in {APPLIED, REJECTED}
    ensures i < |events| && events[i].Advance? && events[i].answers.authorization.Some?
    ensures var (a, p) := (events[i].answers.authorization.value, Execution(events).db.rows[r].policy);
      && a.allowed && a.executable && a.status == "APPROVED"
      && p == Some(Policy(a.evaluationId, a.actionFingerprint, a.status, a.counterfactual))
  {
    var row := Execution(events).db.rows[r];
    EveryColumnHasItsHistory(events);
    ExecutionSound(events);
    assert RowHistory(events, row) && GenuineRow(Execution(events).db, row);
    i :| 0 <= i < |events| && events[i].Advance? && GivesPolicy(events[i].answers, row.policy.value, PROPOSED);
  }
}
