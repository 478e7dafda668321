/** Every run of any number of workers over one store: cycles start at any time, advance one store call at a
    time in any order, get any answers from outside, and may crash between any two calls. */
module LearningRuns {
  import opened Wrappers
  import opened LearningContracts
  import C = Candidates
  import D = LearningDb
  import opened LearningDb
  import opened AuthorityChain
  import opened LearningWorker

  /** A worker, what it was started for, and where it stands. */
  datatype Worker = Worker(windowEnd: int, envelope: Option<Envelope>, pc: Pc)

  datatype System = System(db: Db, workers: map<nat, Worker>)

  datatype Event =
    | Start(worker: nat, windowEnd: int, capturedAt: int, envelope: Option<Envelope>)
    | Advance(worker: nat, answers: Answers)
    | Crash(worker: nat)

  ghost function Next(s: System, event: Event): System {
    match event
    case Start(w, windowEnd, capturedAt, envelope) =>
      s.(workers := s.workers[w := Worker(windowEnd, envelope, Begin(windowEnd, capturedAt, envelope))])
    case Advance(w, answers) =>
      if w in s.workers
      then var (db, pc) := Step(s.db, s.workers[w].pc, answers); System(db, s.workers[w := s.workers[w].(pc := pc)])
      else s
    case Crash(w) => s.(workers := s.workers - {w})
  }

  ghost function Execution(events: seq<Event>): System {
    if events == [] then System(EMPTY_DB, map[])
    else Next(Execution(events[..|events| - 1]), events[|events| - 1])
  }

  // ---------- what workers know, and what they put into the store ----------

  /** A worker may build on the envelope's own allocation, or on what an applied proposal proposed. Either
      was current once; it need not be current any more. */
  ghost predicate KnownBase(db: Db, e: Envelope, authority: Authority, a: Allocation) {
    match authority
    case Initial(x) => x == e && a == InitialAllocation(e)
    case Applied(p) =>
      p in db.rows && db.rows[p].state == APPLIED && db.rows[p].envelope == e && db.rows[p].candidate.proposed == a
  }

  ghost predicate IsGenerated(c: Candidate) {
    Generated(c.snapshot).Success? && c in Generated(c.snapshot).value
  }

  ghost predicate GenuineCandidate(db: Db, e: Envelope, c: Candidate) {
    && c.snapshot in db.snapshots && c.snapshot.envelope == e
    && c.baseline == BaselineOf(c.snapshot) && c.current == c.snapshot.current
    && c.deltaUnits == (if c.kind == ShiftOneUnit then 1 else 0)
    && IsGenerated(c)
    && KnownBase(db, e, c.baseline, c.current)
    && ValidAllocation(e, c.current) && ValidAllocation(e, c.proposed)
  }

  /** Only selected shifts get a policy decision, and without one a proposal stays PROPOSED. */
  ghost predicate Disciplined(row: Row) {
    && (row.policy.Some? ==> row.candidate.deltaUnits == 1 && row.selection.Some?)
    && (row.state != PROPOSED ==> row.policy.Some?)
  }

  ghost predicate GenuineRow(db: Db, row: Row) {
    GenuineCandidate(db, row.envelope, row.candidate) && Disciplined(row)
  }

  ghost predicate GenuineRows(db: Db) {
    forall r {:trigger GenuineRow(db, db.rows[r])} :: r in db.rows ==> GenuineRow(db, db.rows[r])
  }

  ghost predicate GenuineSnapshots(db: Db) {
    forall s :: s in db.snapshots ==> db.snapshots[s].ref == s && db.snapshots[s].facts == s
  }

  ghost predicate Genuine(db: Db) {
    GenuineRows(db) && GenuineSnapshots(db)
  }

  ghost predicate KnownSnapshot(db: Db, job: Job, s: SnapshotRef) {
    && s in db.snapshots && s.envelope == job.envelope && s.windowEnd == job.windowEnd
    && KnownBase(db, s.envelope, BaselineOf(s), s.current)
  }

  ghost predicate Stored(db: Db, e: Envelope, cs: seq<Candidate>) {
    forall c :: c in cs ==> c.ref in db.rows && db.rows[c.ref].candidate == c && db.rows[c.ref].envelope == e
  }

  ghost predicate SelectedRow(db: Db, s: SnapshotRef, p: ProposalRef) {
    p in db.rows && db.rows[p].selection.Some? && db.rows[p].candidate.snapshot == s
  }

  ghost predicate Decidable(db: Db, s: SnapshotRef, p: ProposalRef) {
    SelectedRow(db, s, p) && db.rows[p].candidate.deltaUnits == 1
  }

  /** The failures a cycle can end with. */
  const POSSIBLE_ERRORS := {InvalidWindow, InvalidSelection, Conflict, CircuitOpen, MultipleRows}

  ghost predicate Informed(db: Db, pc: Pc) {
    match pc
    case LookUp(_) => true
    case ReadSelection(_, s) => s in db.snapshots
    case ReadTip(_) => true
    case SaveSnapshot(job, current) => KnownBase(db, job.envelope, current.authority, current.allocation)
    case SaveCandidates(job, s) => KnownSnapshot(db, job, s)
    case Select(job, s, cs) => Stored(db, job.envelope, cs)
    case Finish(_, s, p, delta, _) => SelectedRow(db, s, p) && db.rows[p].candidate.deltaUnits == delta <= 1
    case WritePolicy(_, s, p, _, state) => Decidable(db, s, p) && PolicyState(state)
    case Apply(_, s, p) => Decidable(db, s, p)
    case Returned(result) => ReportHolds(db, result)
    case Failed(error) => error in POSSIBLE_ERRORS
  }

  predicate FinalStatus(status: RunStatus) {
    status in {RunApplied, RunRejected, RunShadowOnly, RunPolicyDenied, RunNoChange}
  }

  /** A final report names the selected proposal. One of APPLIED, REJECTED or NO_CHANGE is what that proposal
      says; one of SHADOW_ONLY or POLICY_DENIED is about a proposal that is decided in some way. */
  ghost predicate ReportHolds(db: Db, result: RunResult) {
    FinalStatus(result.status) ==>
      && result.snapshot.Some? && result.proposal.Some? && result.snapshot.value in db.snapshots
      && SelectedRow(db, result.snapshot.value, result.proposal.value)
      && DecidedAs(db.rows[result.proposal.value], result.status)
  }

  ghost predicate DecidedAs(row: Row, status: RunStatus) {
    match status
    case RunNoChange => row.candidate.deltaUnits == 0
    case RunShadowOnly => row.state != PROPOSED
    case RunPolicyDenied => row.state != PROPOSED
    case _ => StateReported(status) == Some(row.state)
  }

  /** The state of the proposal that a status reports. */
  function StateReported(status: RunStatus): Option<ProposalState> {
    match status
    case RunApplied => Some(APPLIED)
    case RunRejected => Some(REJECTED)
    case RunShadowOnly => Some(SHADOW_ONLY)
    case RunPolicyDenied => Some(POLICY_DENIED)
    case _ => None
  }

  ghost predicate Sound(db: Db) {
    StoreInvariant(db) && Genuine(db)
  }

  // ---------- this knowledge never expires ----------

  lemma BaseNeverExpires(before: Db, after: Db, e: Envelope, authority: Authority, a: Allocation)
    requires Persists(before, after) && KnownBase(before, e, authority, a)
    ensures KnownBase(after, e, authority, a)
  {
    if authority.Applied? {
      assert RowPersists(before.rows[authority.proposal], after.rows[authority.proposal]);
    }
  }

  lemma CandidateStaysGenuine(before: Db, after: Db, e: Envelope, c: Candidate)
    requires Persists(before, after) && GenuineCandidate(before, e, c)
    ensures GenuineCandidate(after, e, c)
  {
    BaseNeverExpires(before, after, e, c.baseline, c.current);
  }

  lemma KnowledgeNeverExpires(before: Db, after: Db, pc: Pc)
    requires Persists(before, after) && Informed(before, pc)
    ensures Informed(after, pc)
  {
    match pc
    case SaveSnapshot(job, current) => BaseNeverExpires(before, after, job.envelope, current.authority, current.allocation);
    case SaveCandidates(job, s) => BaseNeverExpires(before, after, s.envelope, BaselineOf(s), s.current);
    case Select(job, s, cs) =>
      forall c | c in cs ensures c.ref in after.rows && after.rows[c.ref].candidate == c && after.rows[c.ref].envelope == job.envelope {
        assert RowPersists(before.rows[c.ref], after.rows[c.ref]);
      }
    case Finish(_, s, p, _, _) => assert RowPersists(before.rows[p], after.rows[p]);
    case WritePolicy(_, s, p, _, _) => assert RowPersists(before.rows[p], after.rows[p]);
    case Apply(_, s, p) => assert RowPersists(before.rows[p], after.rows[p]);
    case Returned(result) => ReportNeverExpires(before, after, result);
    case _ =>
  }

  lemma ReportNeverExpires(before: Db, after: Db, result: RunResult)
    requires Persists(before, after) && ReportHolds(before, result)
    ensures ReportHolds(after, result)
  {
    if FinalStatus(result.status) {
      var p := result.proposal.value;
      assert RowPersists(before.rows[p], after.rows[p]);
    }
  }

  lemma RowUpdateStaysGenuine(db: Db, r: ProposalRef, row: Row)
    requires Genuine(db) && r in db.rows && RowPersists(db.rows[r], row) && Disciplined(row)
    ensures Genuine(db.(rows := db.rows[r := row]))
  {
    var after := db.(rows := db.rows[r := row]);
    RowUpdatePersists(db.rows, r, row);
    forall x | x in after.rows ensures GenuineRow(after, after.rows[x]) {
      assert GenuineRow(db, db.rows[x]);
      CandidateStaysGenuine(db, after, db.rows[x].envelope, db.rows[x].candidate);
    }
  }

  lemma KnownBaseIsValid(db: Db, e: Envelope, authority: Authority, a: Allocation)
    requires Genuine(db) && KnownBase(db, e, authority, a)
    ensures ValidAllocation(e, a)
  {
    match authority
    case Initial(_) => InitialAllocationIsValid(e);
    case Applied(p) => assert GenuineRow(db, db.rows[p]);
  }

  // ---------- one step ----------

  lemma TipIsKnown(db: Db, e: Envelope)
    requires Sound(db)
    ensures D.ResolveCurrent(db, e).Success?
    ensures var current := D.ResolveCurrent(db, e).value; KnownBase(db, e, current.authority, current.allocation)
  {
    assert HasChain(db.rows, e);
    var chain :| IsChain(db.rows, e, chain);
    WalkFindsTheTip(db.rows, e, chain);
    if chain != [] {
      assert chain[|chain| - 1] in chain && chain[|chain| - 1] in AppliedRefs(db.rows, e);
    }
  }

  lemma MovesAtMostOneUnit(db: Db, p: ProposalRef)
    requires GenuineRows(db) && p in db.rows
    ensures db.rows[p].candidate.deltaUnits <= 1
  {
    assert GenuineRow(db, db.rows[p]);
  }

  lemma FoundIsSelected(db: Db, s: SnapshotRef, p: ProposalRef)
    requires D.FindSelected(db, s) == Success(Some(p))
    ensures SelectedRow(db, s, p)
  {
    assert p in SelectedOf(db.rows, s);
  }

  lemma StoredStateIsReported(db: Db, s: SnapshotRef, p: ProposalRef)
    requires SelectedRow(db, s, p) && s in db.snapshots && StatusOfState(db.rows[p].state).Some?
    ensures Informed(db, End(StatusOfState(db.rows[p].state).value, s, p))
  {
  }

  lemma ReadSelectionInformed(db: Db, job: Job, s: SnapshotRef)
    requires Sound(db) && s in db.snapshots
    ensures Informed(db, ReadSelectionStep(db, job, s))
  {
    var found := D.FindSelected(db, s);
    if found.Success? && found.value.Some? {
      var p := found.value.value;
      FoundIsSelected(db, s, p);
      MovesAtMostOneUnit(db, p);
      if db.rows[p].state != PROPOSED { StoredStateIsReported(db, s, p); }
    }
  }

  lemma LookUpInformed(db: Db, job: Job)
    ensures Informed(db, LookUpStep(db, job))
  {
    var found := D.FindSnapshot(db, job.windowEnd, job.envelope);
    if found.Success? && found.value.Some? {
      assert found.value.value in CycleSnapshots(db, job.windowEnd, job.envelope);
    }
  }

  lemma SavedSnapshotStaysGenuine(db: Db, s: SnapshotRef, at: int)
    requires Genuine(db) && s !in db.snapshots
    ensures Genuine(db.(snapshots := db.snapshots[s := Snapshot(s, s, at)]))
  {
    var after := db.(snapshots := db.snapshots[s := Snapshot(s, s, at)]);
    forall r | r in after.rows ensures GenuineRow(after, after.rows[r]) {
      assert GenuineRow(db, db.rows[r]);
      CandidateStaysGenuine(db, after, db.rows[r].envelope, db.rows[r].candidate);
    }
  }

  lemma SaveSnapshotCallSound(db: Db, s: SnapshotRef, at: int)
    requires Sound(db)
    ensures var (after, r) := D.SaveSnapshot(db, Snapshot(s, s, at));
      Sound(after) && Persists(db, after) && r.Success? && s in after.snapshots
  {
    SavedSnapshotKeepsInvariant(db, Snapshot(s, s, at));
    if s !in db.snapshots { SavedSnapshotStaysGenuine(db, s, at); }
  }

  lemma SaveSnapshotSound(db: Db, job: Job, current: Current, answers: Answers)
    requires Sound(db) && KnownBase(db, job.envelope, current.authority, current.allocation)
    ensures var (after, next) := SaveSnapshotStep(db, job, current, answers);
      Sound(after) && Persists(db, after) && Informed(after, next)
  {
    var s := SnapshotFacts(job, current, answers.metrics);
    var after := D.SaveSnapshot(db, Snapshot(s, s, job.capturedAt)).0;
    KnownBaseIsValid(db, job.envelope, current.authority, current.allocation);
    SaveSnapshotCallSound(db, s, job.capturedAt);
    BaseNeverExpires(db, after, job.envelope, current.authority, current.allocation);
    assert BaselineOf(s) == current.authority;
  }

  lemma GeneratedIsGenuine(db: Db, job: Job, s: SnapshotRef, c: Candidate)
    requires Genuine(db) && KnownSnapshot(db, job, s)
    ensures Generated(s).Success?
    ensures c in Generated(s).value ==> c.snapshot == s && c.ref.snapshot == s && GenuineCandidate(db, job.envelope, c)
  {
    KnownBaseIsValid(db, s.envelope, BaselineOf(s), s.current);
    if c in Generated(s).value {
      C.GeneratedCandidatesAreValid(s, s.envelope, Scores(s.metrics), BaselineOf(s), s.current, c);
    }
  }

  lemma KeptRowStaysGenuine(db: Db, after: Db, row: Row)
    requires Persists(db, after)
    ensures GenuineRow(db, row) ==> GenuineRow(after, row)
  {
    if GenuineRow(db, row) { CandidateStaysGenuine(db, after, row.envelope, row.candidate); }
  }

  lemma NewRowIsGenuine(db: Db, after: Db, cs: seq<Candidate>, e: Envelope, at: int, r: ProposalRef, row: Row)
    requires Persists(db, after) && NewFrom(db, cs, e, at, r, row)
    ensures GenuineCandidate(db, e, row.candidate) ==> GenuineRow(after, row)
  {
    if GenuineCandidate(db, e, row.candidate) { CandidateStaysGenuine(db, after, e, row.candidate); }
  }

  /** Rows inserted for generated candidates are genuine, and the old ones stay so. */
  lemma SavedCandidatesStayGenuine(db: Db, job: Job, cs: seq<Candidate>, after: Db)
    requires Genuine(db) && Persists(db, after) && after.snapshots == db.snapshots && RowsKept(db.rows, after.rows)
    requires forall c :: c in cs ==> GenuineCandidate(db, job.envelope, c)
    requires forall x :: x in after.rows && x !in db.rows ==> NewFrom(db, cs, job.envelope, job.capturedAt, x, after.rows[x])
    ensures Genuine(after)
  {
    forall x | x in after.rows ensures GenuineRow(after, after.rows[x]) {
      if x in db.rows {
        assert GenuineRow(db, db.rows[x]);
        KeptRowStaysGenuine(db, after, db.rows[x]);
      } else {
        NewRowIsGenuine(db, after, cs, job.envelope, job.capturedAt, x, after.rows[x]);
      }
    }
  }

  lemma SaveCandidatesSound(db: Db, job: Job, s: SnapshotRef)
    requires Sound(db) && KnownSnapshot(db, job, s)
    ensures var (after, next) := SaveCandidatesStep(db, job, s);
      Sound(after) && Persists(db, after) && Informed(after, next)
  {
    GeneratedIsGenuine(db, job, s, C.NoChangeCandidate(s, s.current, BaselineOf(s)));
    var cs := Generated(s).value;
    var (after, r) := D.SaveCandidates(db, cs, job.envelope, job.capturedAt);
    SavedCandidatesKeepInvariant(db, cs, job.envelope, job.capturedAt);
    if r.Success? {
      InsertedRows(db, cs, job.envelope, job.capturedAt);
      forall c | c in cs ensures GenuineCandidate(db, job.envelope, c) { GeneratedIsGenuine(db, job, s, c); }
      SavedCandidatesStayGenuine(db, job, cs, after);
      assert Stored(after, job.envelope, cs);
    } else {
      forall c | c in cs ensures c.snapshot == s { GeneratedIsGenuine(db, job, s, c); }
      NoIntegrityViolation(db, cs, job.envelope, job.capturedAt, s);
    }
  }

  lemma {:induction false} NoIntegrityViolation(db: Db, cs: seq<Candidate>, e: Envelope, at: int, s: SnapshotRef)
    requires s in db.snapshots && forall c :: c in cs ==> c.snapshot == s
    ensures InsertAll(db, cs, e, at).Failure? ==> InsertAll(db, cs, e, at).error == Conflict
  {
    if cs != [] {
      NoIntegrityViolation(db, cs[..|cs| - 1], e, at, s);
    }
  }

  lemma SelectionReturnsSelected(db: Db, p: ProposalRef, s: Selection, at: int)
    requires D.RecordSelection(db, p, s, at).1.Success?
    ensures var (after, r) := D.RecordSelection(db, p, s, at);
      r.value in after.rows && SelectedRow(after, after.rows[r.value].candidate.snapshot, r.value)
  {
    var winners := SelectedOf(db.rows, db.rows[p].candidate.snapshot);
    if db.rows[p].selection == None && |winners| == 1 {
      assert Only(winners) in winners;
    }
  }

  lemma SelectionCallSound(db: Db, p: ProposalRef, s: Selection, at: int)
    requires Sound(db) && p in db.rows && s.source in SOURCES
    ensures var (after, r) := D.RecordSelection(db, p, s, at);
      Sound(after) && Persists(db, after) && (r.Failure? ==> r.error == Conflict)
  {
    var after := D.RecordSelection(db, p, s, at).0;
    RecordedSelectionKeepsInvariant(db, p, s, at);
    AtMostOneSelected(db, db.rows[p].candidate.snapshot);
    if after != db {
      RowIsDisciplined(db, p);
      RowUpdateStaysGenuine(db, p, after.rows[p]);
    }
  }

  lemma RowIsDisciplined(db: Db, p: ProposalRef)
    requires GenuineRows(db) && p in db.rows
    ensures Disciplined(db.rows[p])
  {
    assert GenuineRow(db, db.rows[p]);
  }

  lemma SelectionInformed(db: Db, job: Job, p: ProposalRef, s: Selection, after: Db, selected: ProposalRef)
    requires Genuine(after) && D.RecordSelection(db, p, s, job.capturedAt) == (after, Success(selected))
    ensures selected in after.rows
    ensures var row := after.rows[selected];
      Informed(after, Finish(job, row.candidate.snapshot, selected, row.candidate.deltaUnits, PolicyStatusOf(row)))
  {
    SelectionReturnsSelected(db, p, s, job.capturedAt);
    MovesAtMostOneUnit(after, selected);
  }

  lemma SelectSound(db: Db, job: Job, s: SnapshotRef, cs: seq<Candidate>, answers: Answers)
    requires Sound(db) && Stored(db, job.envelope, cs)
    ensures var (after, next) := SelectStep(db, job, s, cs, answers);
      Sound(after) && Persists(db, after) && Informed(after, next)
  {
    if ValidSelection(answers.selection, s, cs) {
      var p := answers.selection.proposal;
      assert p in db.rows;
      var made := Selection(SourceOf(p), answers.selection.confidence, answers.selection.reasons);
      var (after, r) := D.RecordSelection(db, p, made, job.capturedAt);
      SelectionCallSound(db, p, made, job.capturedAt);
      if r.Success? { SelectionInformed(db, job, p, made, after, r.value); }
    }
  }

  lemma ApplyChangesOneRow(db: Db, p: ProposalRef, closed: bool, at: int)
    requires StoreInvariant(db) && p in db.rows
    ensures var (after, r) := D.Apply(db, p, closed, at);
      && (r.Failure? ==> after == db && r.error in {Conflict, CircuitOpen})
      && (after == db || (Executable(db.rows[p]) &&
           (after.rows == db.rows[p := AppliedRow(db.rows[p], at)] || after.rows == db.rows[p := RejectedRow(db.rows[p], at)])))
      && after.snapshots == db.snapshots
  {
    if Executable(db.rows[p]) {
      assert HasChain(db.rows, db.rows[p].envelope);
      var chain :| IsChain(db.rows, db.rows[p].envelope, chain);
      ApplyFollowsTheChain(db, p, at, chain);
    }
  }

  lemma AppliedOrRejectedStaysGenuine(db: Db, after: Db, s: SnapshotRef, p: ProposalRef, at: int)
    requires Genuine(db) && Decidable(db, s, p) && Executable(db.rows[p]) && after.snapshots == db.snapshots
    requires after.rows == db.rows[p := AppliedRow(db.rows[p], at)] || after.rows == db.rows[p := RejectedRow(db.rows[p], at)]
    ensures Genuine(after)
  {
    assert after == db.(rows := db.rows[p := after.rows[p]]);
    RowUpdateStaysGenuine(db, p, after.rows[p]);
  }

  lemma ApplyCallSound(db: Db, s: SnapshotRef, p: ProposalRef, closed: bool, at: int, after: Db, r: Result<ApplyOutcome, LearningError>)
    requires Sound(db) && Decidable(db, s, p) && (after, r) == D.Apply(db, p, closed, at)
    ensures Sound(after) && Persists(db, after) && (r.Failure? ==> r.error in {Conflict, CircuitOpen})
  {
    ApplyChangesOneRow(db, p, closed, at);
    if after != db {
      AppliedOrRejectedStaysGenuine(db, after, s, p, at);
    }
    AppliedKeepsInvariant(db, p, closed, at);
  }

  lemma ApplyDecides(db: Db, p: ProposalRef, closed: bool, at: int, after: Db, r: Result<ApplyOutcome, LearningError>)
    requires StoreInvariant(db) && p in db.rows && db.rows[p].state == PROPOSED && (after, r) == D.Apply(db, p, closed, at)
    ensures r.Success? ==> (!r.value.replayed
      && after == db.(rows := db.rows[p := if r.value.applied then AppliedRow(db.rows[p], at) else RejectedRow(db.rows[p], at)]))
  {
    if r.Success? {
      assert HasChain(db.rows, db.rows[p].envelope);
      var chain :| IsChain(db.rows, db.rows[p].envelope, chain);
      ApplyFollowsTheChain(db, p, at, chain);
    }
  }

  lemma SelectedSnapshotIsStored(db: Db, s: SnapshotRef, p: ProposalRef)
    requires GenuineRows(db) && SelectedRow(db, s, p)
    ensures s in db.snapshots
  {
    assert GenuineRow(db, db.rows[p]);
  }

  lemma DecisionReports(db: Db, s: SnapshotRef, p: ProposalRef, row: Row, after: Db, applied: bool)
    requires SelectedRow(db, s, p) && s in db.snapshots && after == db.(rows := db.rows[p := row])
    requires row.candidate == db.rows[p].candidate && row.selection == db.rows[p].selection
    requires row.state == if applied then APPLIED else REJECTED
    ensures ReportHolds(after, RunResult(if applied then RunApplied else RunRejected, Some(s), Some(p)))
  {
  }

  /** A decided row is replayed, or refused, and stays as it is. */
  lemma DecidedRowStays(db: Db, p: ProposalRef, closed: bool, at: int)
    requires p in db.rows && db.rows[p].state != PROPOSED
    ensures var (after, r) := D.Apply(db, p, closed, at);
      after == db && (r.Success? ==> r.value.replayed && db.rows[p].state == APPLIED)
  {
  }

  lemma ApplyReports(db: Db, s: SnapshotRef, p: ProposalRef, closed: bool, at: int, after: Db, r: Result<ApplyOutcome, LearningError>)
    requires StoreInvariant(db) && SelectedRow(db, s, p) && s in db.snapshots && (after, r) == D.Apply(db, p, closed, at)
    ensures r.Success? ==>
      ReportHolds(after, RunResult(if r.value.applied || r.value.replayed then RunApplied else RunRejected, Some(s), Some(p)))
  {
    if db.rows[p].state == PROPOSED {
      ApplyDecides(db, p, closed, at, after, r);
      if r.Success? { DecisionReports(db, s, p, after.rows[p], after, r.value.applied); }
    } else {
      DecidedRowStays(db, p, closed, at);
    }
  }

  lemma ApplyStepSound(db: Db, job: Job, s: SnapshotRef, p: ProposalRef, answers: Answers)
    requires Sound(db) && Decidable(db, s, p)
    ensures var (after, next) := ApplyStep(db, job, s, p, answers);
      Sound(after) && Persists(db, after) && Informed(after, next)
  {
    var (after, r) := D.Apply(db, p, answers.circuitClosed, job.capturedAt);
    ApplyCallSound(db, s, p, answers.circuitClosed, job.capturedAt, after, r);
    SelectedSnapshotIsStored(db, s, p);
    ApplyReports(db, s, p, answers.circuitClosed, job.capturedAt, after, r);
  }

  lemma FinishStepSound(db: Db, pc: Pc, answers: Answers)
    requires Sound(db) && pc.Finish? && Informed(db, pc)
    ensures var (after, next) := FinishStep(db, pc, answers);
      Sound(after) && Persists(db, after) && Informed(after, next)
  {
    var Finish(job, s, p, delta, status) := pc;
    SelectedSnapshotIsStored(db, s, p);
    if delta != 0 && status == Some(APPROVED) {
      ApplyStepSound(db, job, s, p, answers);
    } else {
      FinishedWithoutCall(db, pc, answers);
    }
  }

  lemma AuthorizedInformed(db: Db, job: Job, s: SnapshotRef, p: ProposalRef, answers: Answers)
    requires Decidable(db, s, p) && s in db.snapshots
    ensures Informed(db, AuthorizeStep(db, job, s, p, answers))
  {
  }

  lemma FinishedWithoutCall(db: Db, pc: Pc, answers: Answers)
    requires pc.Finish? && Informed(db, pc) && pc.snapshot in db.snapshots
    requires pc.deltaUnits == 0 || pc.policyStatus != Some(APPROVED)
    ensures FinishStep(db, pc, answers).0 == db && Informed(db, FinishStep(db, pc, answers).1)
  {
    if pc.deltaUnits != 0 { AuthorizedInformed(db, pc.job, pc.snapshot, pc.proposal, answers); }
  }

  lemma WriteStaysGenuine(db: Db, s: SnapshotRef, p: ProposalRef, policy: Policy, state: ProposalState, at: int)
    requires Genuine(db) && Decidable(db, s, p) && PolicyState(state)
    ensures Genuine(D.WritePolicy(db, p, policy, state, at))
  {
    if db.rows[p].state == PROPOSED {
      RowUpdateStaysGenuine(db, p, D.WritePolicy(db, p, policy, state, at).rows[p]);
    }
  }

  lemma WriteCallSound(db: Db, s: SnapshotRef, p: ProposalRef, policy: Policy, state: ProposalState, at: int)
    requires Sound(db) && Decidable(db, s, p) && PolicyState(state)
    ensures var after := D.WritePolicy(db, p, policy, state, at); Sound(after) && Persists(db, after)
  {
    WrittenPolicyKeepsInvariant(db, p, policy, state, at);
    WriteStaysGenuine(db, s, p, policy, state, at);
  }

  lemma WriteKeepsSelection(db: Db, s: SnapshotRef, p: ProposalRef, policy: Policy, state: ProposalState, at: int)
    requires Decidable(db, s, p)
    ensures var after := D.WritePolicy(db, p, policy, state, at);
      && Decidable(after, s, p) && after.snapshots == db.snapshots
      && (after.rows[p].state == PROPOSED ==> state == PROPOSED)
  {
  }

  lemma WriteStepInformed(db: Db, job: Job, s: SnapshotRef, p: ProposalRef, policy: Policy, state: ProposalState)
    requires Sound(db) && Decidable(db, s, p) && PolicyState(state)
    ensures Informed(D.WritePolicy(db, p, policy, state, job.capturedAt), AfterPolicy(job, s, p, state))
  {
    SelectedSnapshotIsStored(db, s, p);
    WriteKeepsSelection(db, s, p, policy, state, job.capturedAt);
  }

  lemma StepSound(db: Db, pc: Pc, answers: Answers)
    requires Sound(db) && Informed(db, pc)
    ensures var (after, next) := Step(db, pc, answers);
      Sound(after) && Persists(db, after) && Informed(after, next)
  {
    match pc
    case LookUp(job) => LookUpInformed(db, job);
    case ReadSelection(job, s) => ReadSelectionInformed(db, job, s);
    case ReadTip(job) => TipIsKnown(db, job.envelope);
    case SaveSnapshot(job, current) => SaveSnapshotSound(db, job, current, answers);
    case SaveCandidates(job, s) => SaveCandidatesSound(db, job, s);
    case Select(job, s, cs) => SelectSound(db, job, s, cs, answers);
    case Finish(_, _, _, _, _) => FinishStepSound(db, pc, answers);
    case WritePolicy(job, s, p, policy, state) =>
      WriteCallSound(db, s, p, policy, state, job.capturedAt);
      WriteStepInformed(db, job, s, p, policy, state);
    case Apply(job, s, p) => ApplyStepSound(db, job, s, p, answers);
    case _ =>
  }

  // ---------- every run ----------

  ghost predicate AllInformed(db: Db, workers: map<nat, Worker>) {
    forall w :: w in workers ==> Informed(db, workers[w].pc)
  }

  ghost predicate SystemSound(s: System) {
    Sound(s.db) && AllInformed(s.db, s.workers)
  }

  lemma AllKnowledgeNeverExpires(before: Db, after: Db, workers: map<nat, Worker>)
    requires Persists(before, after) && AllInformed(before, workers)
    ensures AllInformed(after, workers)
  {
    forall w | w in workers ensures Informed(after, workers[w].pc) {
      KnowledgeNeverExpires(before, after, workers[w].pc);
    }
  }

  lemma EventKeepsSound(s: System, event: Event)
    requires SystemSound(s)
    ensures SystemSound(Next(s, event))
  {
    match event
    case Advance(w, answers) =>
      if w in s.workers {
        StepSound(s.db, s.workers[w].pc, answers);
        AllKnowledgeNeverExpires(s.db, Step(s.db, s.workers[w].pc, answers).0, s.workers);
      }
    case _ =>
  }

  lemma {:induction false} ExecutionSound(events: seq<Event>)
    ensures SystemSound(Execution(events))
  {
    if events == [] {
      EmptyDbKeepsInvariant();
    } else {
      ExecutionSound(events[..|events| - 1]);
      EventKeepsSound(Execution(events[..|events| - 1]), events[|events| - 1]);
    }
  }

  /** In every run, the applied allocations of an envelope keep its cells, its total and its bounds; the first
      one starts from the envelope's own allocation, each later one from its predecessor's, and each moves
      exactly one unit. */
  lemma AppliedAllocationsAreValidAndContiguous(events: seq<Event>, e: Envelope, chain: seq<ProposalRef>, i: nat)
    requires IsChain(Execution(events).db.rows, e, chain) && i < |chain|
    ensures var rows := Execution(events).db.rows;
      && chain[i] in rows
      && ValidAllocation(e, rows[chain[i]].candidate.proposed)
      && (if i == 0 then rows[chain[0]].candidate.current == InitialAllocation(e)
          else chain[i - 1] in rows && rows[chain[i]].candidate.current == rows[chain[i - 1]].candidate.proposed)
      && rows[chain[i]].candidate.kind == ShiftOneUnit && ValidMove(rows[chain[i]].candidate)
  {
    var db := Execution(events).db;
    ExecutionSound(events);
    assert LinkedAt(db.rows, e, chain, i);
    assert chain[i] in chain && chain[i] in AppliedRefs(db.rows, e);
    var row := db.rows[chain[i]];
    assert GenuineRow(db, row) && Approved(row);
    var s := row.candidate.snapshot;
    C.GeneratedCandidatesAreValid(s, s.envelope, Scores(s.metrics), BaselineOf(s), s.current, row.candidate);
  }

  /** In every run at most one proposal of a snapshot is ever applied, although applying never looks at which
      one was selected. */
  lemma AtMostOneAppliedPerSnapshot(events: seq<Event>, a: ProposalRef, b: ProposalRef)
    requires var rows := Execution(events).db.rows;
      && a in rows && b in rows && rows[a].state == APPLIED && rows[b].state == APPLIED
      && rows[a].candidate.snapshot == rows[b].candidate.snapshot
    ensures a == b
  {
    ExecutionSound(events);
    AppliedOfSnapshotIsUnique(Execution(events).db, a, b);
  }

  lemma AppliedOfSnapshotIsUnique(db: Db, a: ProposalRef, b: ProposalRef)
    requires Sound(db)
    requires a in db.rows && b in db.rows && db.rows[a].state == APPLIED && db.rows[b].state == APPLIED
    requires db.rows[a].candidate.snapshot == db.rows[b].candidate.snapshot
    ensures a == b
  {
    var e := db.rows[a].envelope;
    assert GenuineRow(db, db.rows[a]) && GenuineRow(db, db.rows[b]);
    assert HasChain(db.rows, e);
    var chain :| IsChain(db.rows, e, chain);
    assert a in AppliedRefs(db.rows, e) && b in AppliedRefs(db.rows, e);
    var i :| 0 <= i < |chain| && chain[i] == a;
    var j :| 0 <= j < |chain| && chain[j] == b;
    assert LinkedAt(db.rows, e, chain, i) && LinkedAt(db.rows, e, chain, j);
    assert AuthorityAt(e, chain, i) == AuthorityAt(e, chain, j);
  }

  /** No run ends with an incompatible allocation, a broken chain, a missing row or a violated index. */
  lemma CyclesFailOnlyForStatedReasons(events: seq<Event>, w: nat)
    requires w in Execution(events).workers && Execution(events).workers[w].pc.Failed?
    ensures Execution(events).workers[w].pc.error in
      {InvalidWindow, InvalidSelection, Conflict, CircuitOpen, MultipleRows}
  {
    var s := Execution(events);
    ExecutionSound(events);
    assert AllInformed(s.db, s.workers);
    assert Informed(s.db, s.workers[w].pc);
  }
}
