/** One cycle of the learning loop: an ordered list of store calls with local work between them. The cycle
    is a machine that makes one store call per step, so that it can be interleaved with others or stopped
    after any step; the worker object runs that machine to its end. */
module LearningWorker {
  import opened Wrappers
  import opened Ordering
  import opened LearningContracts
  import opened Economics
  import C = Candidates
  import D = LearningDb
  import opened LearningDb
  import S = LearningStore

  // ---------- the answers of the outside world ----------

  datatype LearningSelection = LearningSelection(
    snapshot: SnapshotRef, proposal: ProposalRef, reasons: seq<string>, confidence: real)

  datatype Authorization = Authorization(
    allowed: bool, executable: bool, evaluationId: string, actionFingerprint: string, status: string,
    counterfactual: Option<string>)

  /** Metrics source, selector, policy gateway (which may be unavailable) and circuit breaker. */
  datatype Answers = Answers(
    metrics: seq<CellMetrics>, selection: LearningSelection, authorization: Option<Authorization>, circuitClosed: bool)

  // ---------- results ----------

  datatype RunStatus =
    | RunUnconfigured | RunNoChange | RunShadowOnly | RunPolicyDenied | RunPolicyUnavailable | RunRejected | RunApplied

  datatype RunResult = RunResult(status: RunStatus, snapshot: Option<SnapshotRef>, proposal: Option<ProposalRef>)

  datatype Job = Job(windowEnd: int, capturedAt: int, envelope: Envelope)

  /** Where a cycle stands: each constructor names the store call it makes next. */
  datatype Pc =
    | LookUp(job: Job)
    | ReadSelection(job: Job, snapshot: SnapshotRef)
    | ReadTip(job: Job)
    | SaveSnapshot(job: Job, current: Current)
    | SaveCandidates(job: Job, snapshot: SnapshotRef)
    | Select(job: Job, snapshot: SnapshotRef, candidates: seq<Candidate>)
    | Finish(job: Job, snapshot: SnapshotRef, proposal: ProposalRef, deltaUnits: nat, policyStatus: Option<string>)
    | WritePolicy(job: Job, snapshot: SnapshotRef, proposal: ProposalRef, policy: Policy, state: ProposalState)
    | Apply(job: Job, snapshot: SnapshotRef, proposal: ProposalRef)
    | Returned(result: RunResult)
    | Failed(error: LearningError)

  predicate Ended(pc: Pc) {
    pc.Returned? || pc.Failed?
  }

  function Begin(windowEnd: int, capturedAt: int, envelope: Option<Envelope>): Pc {
    if capturedAt < windowEnd then Failed(InvalidWindow)
    else if envelope == None || !(envelope.value.validFrom <= capturedAt < envelope.value.validUntil)
    then Returned(RunResult(RunUnconfigured, None, None))
    else LookUp(Job(windowEnd, capturedAt, envelope.value))
  }

  // ---------- local work ----------

  predicate MetricLeq(a: CellMetrics, b: CellMetrics) {
    StringLeq(a.cell.Key(), b.cell.Key())
  }

  function Previous(authority: Authority): Option<ProposalRef> {
    match authority
    case Initial(_) => None
    case Applied(p) => Some(p)
  }

  function SnapshotFacts(job: Job, current: Current, metrics: seq<CellMetrics>): SnapshotRef {
    SnapshotRef(job.windowEnd, Sort(metrics, MetricLeq), job.envelope, current.allocation, Previous(current.authority))
  }

  function Scores(metrics: seq<CellMetrics>): seq<EconomicScore> {
    seq(|metrics|, i requires 0 <= i < |metrics| => ScoreCell(metrics[i]))
  }

  ghost function Generated(s: SnapshotRef): Result<seq<Candidate>, LearningError> {
    C.Generate(s, s.envelope, Scores(s.metrics), BaselineOf(s), s.current)
  }

  /** The selector may only name a supplied candidate of this snapshot. */
  predicate ValidSelection(selection: LearningSelection, s: SnapshotRef, cs: seq<Candidate>) {
    selection.snapshot == s && exists c :: c in cs && c.ref == selection.proposal
  }

  function SourceOf(p: ProposalRef): string {
    if p.kind == NoChange then "KIVOU_NO_CHANGE" else "HERMES"
  }

  function PolicyStatusOf(row: Row): Option<string> {
    match row.policy
    case None => None
    case Some(p) => Some(p.status)
  }

  function StatusOfState(state: ProposalState): Option<RunStatus> {
    match state
    case APPLIED => Some(RunApplied)
    case SHADOW_ONLY => Some(RunShadowOnly)
    case POLICY_DENIED => Some(RunPolicyDenied)
    case REJECTED => Some(RunRejected)
    case PROPOSED => None
  }

  function PolicyOf(a: Authorization): Policy {
    Policy(a.evaluationId, a.actionFingerprint, a.status, a.counterfactual)
  }

  /** A decision that is not executable is shadowed if it would have been approved, otherwise denied. */
  function StateOf(a: Authorization): ProposalState {
    if a.executable && a.allowed then PROPOSED
    else if a.counterfactual == Some(APPROVED) then SHADOW_ONLY else POLICY_DENIED
  }

  function End(status: RunStatus, s: SnapshotRef, p: ProposalRef): Pc {
    Returned(RunResult(status, Some(s), Some(p)))
  }

  // ---------- one step: one store call ----------

  ghost function LookUpStep(db: Db, job: Job): Pc {
    match D.FindSnapshot(db, job.windowEnd, job.envelope)
    case Failure(error) => Failed(error)
    case Success(None) => ReadTip(job)
    case Success(Some(s)) => ReadSelection(job, s)
  }

  ghost function ReadSelectionStep(db: Db, job: Job, s: SnapshotRef): Pc {
    match D.FindSelected(db, s)
    case Failure(error) => Failed(error)
    case Success(None) => ReadTip(job)
    case Success(Some(p)) =>
      assert p in SelectedOf(db.rows, s);
      Found(job, s, p, db.rows[p])
  }

  /** A selected proposal that has been decided ends the cycle, one that has not is finished. */
  function Found(job: Job, s: SnapshotRef, p: ProposalRef, row: Row): Pc {
    match StatusOfState(row.state)
    case Some(status) => End(status, s, p)
    case None => Finish(job, s, p, row.candidate.deltaUnits, PolicyStatusOf(row))
  }

  /** Both reads of the look-up without another worker between them. */
  ghost function WholeLookUp(db: Db, job: Job): Pc {
    match LookUpStep(db, job)
    case ReadSelection(_, s) => ReadSelectionStep(db, job, s)
    case next => next
  }

  lemma LookUpRunsBothReads(db: Db, job: Job, answers: Answers)
    ensures RunToEnd(db, LookUp(job), answers) == RunToEnd(db, WholeLookUp(db, job), answers)
  {
    var next := LookUpStep(db, job);
    assert RunToEnd(db, LookUp(job), answers) == RunToEnd(db, next, answers);
    if next.ReadSelection? {
      assert RunToEnd(db, next, answers) == RunToEnd(db, ReadSelectionStep(db, job, next.snapshot), answers);
    }
  }

  ghost function ReadTipStep(db: Db, job: Job): Pc {
    match D.ResolveCurrent(db, job.envelope)
    case Failure(error) => Failed(error)
    case Success(current) => SaveSnapshot(job, current)
  }

  ghost function SaveSnapshotStep(db: Db, job: Job, current: Current, answers: Answers): (Db, Pc) {
    if !C.Compatible(job.envelope, current.allocation) then (db, Failed(IncompatibleAllocation))
    else
      var s := SnapshotFacts(job, current, answers.metrics);
      var (after, r) := D.SaveSnapshot(db, Snapshot(s, s, job.capturedAt));
      (after, match r case Failure(error) => Failed(error) case Success(_) => SaveCandidates(job, s))
  }

  ghost function SaveCandidatesStep(db: Db, job: Job, s: SnapshotRef): (Db, Pc) {
    match Generated(s)
    case Failure(error) => (db, Failed(error))
    case Success(cs) =>
      var (after, r) := D.SaveCandidates(db, cs, job.envelope, job.capturedAt);
      (after, match r case Failure(error) => Failed(error) case Success(_) => Select(job, s, cs))
  }

  ghost function SelectStep(db: Db, job: Job, s: SnapshotRef, cs: seq<Candidate>, answers: Answers): (Db, Pc) {
    var selection := answers.selection;
    if !ValidSelection(selection, s, cs) then (db, Failed(InvalidSelection))
    else
      var (after, r) := D.RecordSelection(db, selection.proposal,
        Selection(SourceOf(selection.proposal), selection.confidence, selection.reasons), job.capturedAt);
      (after,
       match r
       case Failure(error) => Failed(error)
       case Success(p) =>
         if p !in after.rows then Failed(UnknownProposal)
         else
           var row := after.rows[p];
           Finish(job, row.candidate.snapshot, p, row.candidate.deltaUnits, PolicyStatusOf(row)))
  }

  function AfterPolicy(job: Job, s: SnapshotRef, p: ProposalRef, state: ProposalState): Pc {
    match state
    case SHADOW_ONLY => End(RunShadowOnly, s, p)
    case POLICY_DENIED => End(RunPolicyDenied, s, p)
    case _ => Apply(job, s, p)
  }

  ghost function ApplyStep(db: Db, job: Job, s: SnapshotRef, p: ProposalRef, answers: Answers): (Db, Pc) {
    var (after, r) := D.Apply(db, p, answers.circuitClosed, job.capturedAt);
    (after,
     match r
     case Failure(error) => Failed(error)
     case Success(outcome) => End(if outcome.applied || outcome.replayed then RunApplied else RunRejected, s, p))
  }

  /** The policy gateway is asked, and what is recorded for the proposal is read. */
  ghost function AuthorizeStep(db: Db, job: Job, s: SnapshotRef, p: ProposalRef, answers: Answers): Pc {
    match answers.authorization
    case None => End(RunPolicyUnavailable, s, p)
    case Some(a) =>
      match D.ReadPolicy(db, p, PolicyOf(a), StateOf(a), job.capturedAt)
      case Failure(error) => Failed(error)
      case Success(recorded) =>
        if recorded then AfterPolicy(job, s, p, StateOf(a)) else WritePolicy(job, s, p, PolicyOf(a), StateOf(a))
  }

  ghost function FinishStep(db: Db, pc: Pc, answers: Answers): (Db, Pc)
    requires pc.Finish?
  {
    var Finish(job, s, p, delta, status) := pc;
    if delta == 0 then (db, End(RunNoChange, s, p))
    else if status == Some(APPROVED) then ApplyStep(db, job, s, p, answers)
    else (db, AuthorizeStep(db, job, s, p, answers))
  }

  ghost function Step(db: Db, pc: Pc, answers: Answers): (Db, Pc) {
    match pc
    case LookUp(job) => (db, LookUpStep(db, job))
    case ReadSelection(job, s) => (db, ReadSelectionStep(db, job, s))
    case ReadTip(job) => (db, ReadTipStep(db, job))
    case SaveSnapshot(job, current) => SaveSnapshotStep(db, job, current, answers)
    case SaveCandidates(job, s) => SaveCandidatesStep(db, job, s)
    case Select(job, s, cs) => SelectStep(db, job, s, cs, answers)
    case Finish(_, _, _, _, _) => FinishStep(db, pc, answers)
    case WritePolicy(job, s, p, policy, state) =>
      (D.WritePolicy(db, p, policy, state, job.capturedAt), AfterPolicy(job, s, p, state))
    case Apply(job, s, p) => ApplyStep(db, job, s, p, answers)
    case Returned(_) => (db, pc)
    case Failed(_) => (db, pc)
  }

  // ---------- a whole cycle ----------

  function Remaining(pc: Pc): nat {
    match pc
    case LookUp(_) => 9
    case ReadSelection(_, _) => 8
    case ReadTip(_) => 7
    case SaveSnapshot(_, _) => 6
    case SaveCandidates(_, _) => 5
    case Select(_, _, _) => 4
    case Finish(_, _, _, _, _) => 3
    case WritePolicy(_, _, _, _, _) => 2
    case Apply(_, _, _) => 1
    case Returned(_) => 0
    case Failed(_) => 0
  }

  lemma AuthorizeLeadsOn(db: Db, job: Job, s: SnapshotRef, p: ProposalRef, answers: Answers)
    ensures var next := AuthorizeStep(db, job, s, p, answers);
      Ended(next) || next == Apply(job, s, p) || (exists policy, state :: next == WritePolicy(job, s, p, policy, state))
  {
  }

  lemma StepsRunOut(db: Db, pc: Pc, answers: Answers)
    requires !Ended(pc)
    ensures Remaining(Step(db, pc, answers).1) < Remaining(pc)
  {
    if pc.Finish? { AuthorizeLeadsOn(db, pc.job, pc.snapshot, pc.proposal, answers); }
  }

  /** A recorded approval is not asked for again: whatever the gateway would say now, the proposal is applied or
      refused as the circuit and the authority decide. And a proposal of no change needs nobody's answer. */
  lemma ApprovalIsNotAskedForAgain(db: Db, pc: Pc, answers: Answers, others: Answers)
    requires pc.Finish? && (pc.policyStatus == Some("APPROVED") || pc.deltaUnits == 0)
    requires pc.deltaUnits == 0 || answers.circuitClosed == others.circuitClosed
    ensures Step(db, pc, answers) == Step(db, pc, others)
    ensures pc.deltaUnits == 0 ==> Step(db, pc, answers).0 == db
    ensures pc.deltaUnits != 0 ==> Step(db, pc, answers).0 == D.Apply(db, pc.proposal, answers.circuitClosed, pc.job.capturedAt).0
  {
  }

  ghost function RunToEnd(db: Db, pc: Pc, answers: Answers): (Db, Pc)
    decreases Remaining(pc)
  {
    if Ended(pc) then (db, pc) else
      StepsRunOut(db, pc, answers);
      var (after, next) := Step(db, pc, answers);
      RunToEnd(after, next, answers)
  }

  function Stopped(r: Result<RunResult, LearningError>): Pc {
    match r
    case Success(result) => Returned(result)
    case Failure(error) => Failed(error)
  }

  // ---------- the worker ----------

  class LearningLoopWorker {
    const store: S.LearningStore

    constructor (store: S.LearningStore)
      ensures this.store == store
    {
      this.store := store;
    }

    method Run(windowEnd: int, capturedAt: int, envelope: Option<Envelope>, answers: Answers)
      returns (r: Result<RunResult, LearningError>)
      modifies store
      ensures (store.Contents(), Stopped(r)) == RunToEnd(old(store.Contents()), Begin(windowEnd, capturedAt, envelope), answers)
    {
      if capturedAt < windowEnd { return Failure(InvalidWindow); }
      if envelope == None || !(envelope.value.validFrom <= capturedAt < envelope.value.validUntil) {
        return Success(RunResult(RunUnconfigured, None, None));
      }
      var job := Job(windowEnd, capturedAt, envelope.value);
      var existing := store.ExistingCycle(windowEnd, job.envelope);
      LookUpRunsBothReads(store.Contents(), job, answers);
      if existing.Failure? { return Failure(existing.error); }
      if existing.value.Some? && existing.value.value.selected.Some? {
        var s, p := existing.value.value.snapshot, existing.value.value.selected.value;
        assert p in SelectedOf(store.rows, s);
        var row := store.rows[p];
        var status := StatusOfState(row.state);
        if status.Some? { return Success(RunResult(status.value, Some(s), Some(p))); }
        r := FinishSelected(job, s, p, row.candidate.deltaUnits, PolicyStatusOf(row), answers);
      } else {
        r := RunFresh(job, answers);
      }
    }

    /** The cycle when nothing has been selected for it yet. */
    method RunFresh(job: Job, answers: Answers) returns (r: Result<RunResult, LearningError>)
      modifies store
      ensures (store.Contents(), Stopped(r)) == RunToEnd(old(store.Contents()), ReadTip(job), answers)
    {
      var resolved := store.ResolveCurrent(job.envelope);
      if resolved.Failure? { return Failure(resolved.error); }
      var current := resolved.value;
      assert RunToEnd(store.Contents(), ReadTip(job), answers)
        == RunToEnd(store.Contents(), SaveSnapshot(job, current), answers);
      if !C.Compatible(job.envelope, current.allocation) { return Failure(IncompatibleAllocation); }
      var s := SnapshotFacts(job, current, answers.metrics);
      ghost var db0 := store.Contents();
      var saved := store.SaveSnapshot(Snapshot(s, s, job.capturedAt));
      assert D.SaveSnapshot(db0, Snapshot(s, s, job.capturedAt)) == (store.Contents(), saved);
      if saved.Failure? { return Failure(saved.error); }
      r := Propose(job, s, answers);
    }

    method Propose(job: Job, s: SnapshotRef, answers: Answers) returns (r: Result<RunResult, LearningError>)
      modifies store
      ensures (store.Contents(), Stopped(r)) == RunToEnd(old(store.Contents()), SaveCandidates(job, s), answers)
    {
      var generated := C.GenerateCandidates(s, s.envelope, Scores(s.metrics), BaselineOf(s), s.current);
      if generated.Failure? { return Failure(generated.error); }
      var cs := generated.value;
      var saved := store.SaveCandidates(cs, job.envelope, job.capturedAt);
      if saved.Failure? { return Failure(saved.error); }
      r := SelectAndFinish(job, s, cs, answers);
    }

    method SelectAndFinish(job: Job, s: SnapshotRef, cs: seq<Candidate>, answers: Answers)
      returns (r: Result<RunResult, LearningError>)
      modifies store
      ensures (store.Contents(), Stopped(r)) == RunToEnd(old(store.Contents()), Select(job, s, cs), answers)
    {
      var selection := answers.selection;
      if !ValidSelection(selection, s, cs) { return Failure(InvalidSelection); }
      var recorded := store.RecordSelection(selection.proposal,
        Selection(SourceOf(selection.proposal), selection.confidence, selection.reasons), job.capturedAt);
      if recorded.Failure? { return Failure(recorded.error); }
      var p := recorded.value;
      if p !in store.rows { return Failure(UnknownProposal); }
      var row := store.rows[p];
      r := FinishSelected(job, row.candidate.snapshot, p, row.candidate.deltaUnits, PolicyStatusOf(row), answers);
    }

    method FinishSelected(job: Job, s: SnapshotRef, p: ProposalRef, deltaUnits: nat, policyStatus: Option<string>, answers: Answers)
      returns (r: Result<RunResult, LearningError>)
      modifies store
      ensures (store.Contents(), Stopped(r))
        == RunToEnd(old(store.Contents()), Finish(job, s, p, deltaUnits, policyStatus), answers)
    {
      if deltaUnits == 0 { return Success(RunResult(RunNoChange, Some(s), Some(p))); }
      if policyStatus == Some(APPROVED) {
        r := ApplySelected(job, s, p, answers);
        return;
      }
      if answers.authorization == None { return Success(RunResult(RunPolicyUnavailable, Some(s), Some(p))); }
      var a := answers.authorization.value;
      var state := StateOf(a);
      ghost var db0, start := store.Contents(), Finish(job, s, p, deltaUnits, policyStatus);
      var recorded := store.ReadPolicy(p, PolicyOf(a), state, job.capturedAt);
      if recorded.Failure? { return Failure(recorded.error); }
      if !recorded.value {
        assert RunToEnd(db0, start, answers) == RunToEnd(db0, WritePolicy(job, s, p, PolicyOf(a), state), answers);
        store.WritePolicy(p, PolicyOf(a), state, job.capturedAt);
      }
      assert RunToEnd(db0, start, answers) == RunToEnd(store.Contents(), AfterPolicy(job, s, p, state), answers);
      if state == SHADOW_ONLY { return Success(RunResult(RunShadowOnly, Some(s), Some(p))); }
      if state == POLICY_DENIED { return Success(RunResult(RunPolicyDenied, Some(s), Some(p))); }
      r := ApplySelected(job, s, p, answers);
    }

    method ApplySelected(job: Job, s: SnapshotRef, p: ProposalRef, answers: Answers)
      returns (r: Result<RunResult, LearningError>)
      modifies store
      ensures (store.Contents(), Stopped(r)) == RunToEnd(old(store.Contents()), Apply(job, s, p), answers)
      ensures (store.Contents(), Stopped(r)) == ApplyStep(old(store.Contents()), job, s, p, answers)
    {
      var applied := store.Apply(p, answers.circuitClosed, job.capturedAt);
      if applied.Failure? { return Failure(applied.error); }
      var status := if applied.value.applied || applied.value.replayed then RunApplied else RunRejected;
      r := Success(RunResult(status, Some(s), Some(p)));
    }
  }
}
