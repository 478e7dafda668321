/** The two tables of the learning loop and what each store call does to them, as functions of their
    contents. The class in LearningStore is proved against these functions, and the claims about runs
    are proved about them. */
module LearningDb {
  import opened Wrappers
  import opened LearningContracts

  datatype ProposalState = PROPOSED | SHADOW_ONLY | POLICY_DENIED | APPLIED | REJECTED

  datatype Selection = Selection(source: string, confidence: real, reasons: seq<string>)

  datatype Policy = Policy(
    evaluationId: string, actionFingerprint: string, status: string, counterfactual: Option<string>)

  /** The columns a proposal is inserted with, and those later calls fill in. */
  datatype Row = Row(
    candidate: Candidate, envelope: Envelope, createdAt: int,
    selection: Option<Selection>, policy: Option<Policy>, state: ProposalState,
    decisionReason: Option<string>, decidedAt: Option<int>, appliedAt: Option<int>)

  /** `facts` are the columns that carry authority; a snapshot is stored under the reference of its facts. */
  datatype Snapshot = Snapshot(ref: SnapshotRef, facts: SnapshotRef, capturedAt: int)

  type Rows = map<ProposalRef, Row>

  datatype Db = Db(snapshots: map<SnapshotRef, Snapshot>, rows: Rows)

  const EMPTY_DB := Db(map[], map[])

  ghost function Only<T>(s: set<T>): T
    requires |s| == 1
    ensures s == {Only(s)}
  {
    var x :| x in s;
    assert |s - {x}| == 0;
    x
  }

  // ---------- snapshots ----------

  ghost function SaveSnapshot(db: Db, s: Snapshot): (Db, Result<bool, LearningError>) {
    if s.ref !in db.snapshots then (db.(snapshots := db.snapshots[s.ref := s]), Success(false))
    else if db.snapshots[s.ref].facts != s.facts then (db, Failure(Conflict))
    else (db, Success(true))
  }

  // ---------- candidates ----------

  function NewRow(c: Candidate, e: Envelope, at: int): Row {
    Row(c, e, at, None, None, PROPOSED, None, None, None)
  }

  /** A replayed insert must find every inserted column as it was written, the state included. */
  predicate ExactReplay(row: Row, c: Candidate, e: Envelope, at: int) {
    row.candidate == c && row.envelope == e && row.createdAt == at && row.state == PROPOSED
  }

  function InsertOne(db: Db, rows: Rows, c: Candidate, e: Envelope, at: int): Result<Rows, LearningError> {
    if c.ref in rows then if ExactReplay(rows[c.ref], c, e, at) then Success(rows) else Failure(Conflict)
    else if c.snapshot !in db.snapshots then Failure(IntegrityViolation)
    else Success(rows[c.ref := NewRow(c, e, at)])
  }

  ghost function InsertAll(db: Db, cs: seq<Candidate>, e: Envelope, at: int): Result<Rows, LearningError> {
    if cs == [] then Success(db.rows) else
      match InsertAll(db, cs[..|cs| - 1], e, at)
      case Failure(error) => Failure(error)
      case Success(rows) => InsertOne(db, rows, cs[|cs| - 1], e, at)
  }

  /** All candidates are saved in one transaction, or none. */
  ghost function SaveCandidates(db: Db, cs: seq<Candidate>, e: Envelope, at: int): (Db, Result<(), LearningError>) {
    match InsertAll(db, cs, e, at)
    case Failure(error) => (db, Failure(error))
    case Success(rows) => (db.(rows := rows), Success(()))
  }

  // ---------- selection ----------

  function SelectedOf(rows: Rows, snapshot: SnapshotRef): set<ProposalRef> {
    set r | r in rows && rows[r].candidate.snapshot == snapshot && rows[r].selection.Some?
  }

  const SOURCES := {"KIVOU_NO_CHANGE", "HERMES"}

  ghost function RecordSelection(db: Db, ref: ProposalRef, s: Selection, at: int)
    : (Db, Result<ProposalRef, LearningError>)
  {
    if s.source !in SOURCES then (db, Failure(InvalidArgument))
    else if ref !in db.rows then (db, Failure(UnknownProposal))
    else if db.rows[ref].selection.Some? then
      (db, if db.rows[ref].selection == Some(s) then Success(ref) else Failure(Conflict))
    else
      var winners := SelectedOf(db.rows, db.rows[ref].candidate.snapshot);
      if |winners| > 1 then (db, Failure(MultipleRows))
      else if |winners| == 1 then (db, Success(Only(winners)))
      else (db.(rows := db.rows[ref := db.rows[ref].(selection := Some(s), decidedAt := Some(at))]), Success(ref))
  }

  // ---------- policy: an unlocked read, then a guarded write ----------

  predicate PolicyState(state: ProposalState) {
    state == PROPOSED || state == SHADOW_ONLY || state == POLICY_DENIED
  }

  /** `Success(true)` is a finished replay; after `Success(false)` the write follows. */
  function ReadPolicy(db: Db, ref: ProposalRef, p: Policy, state: ProposalState, at: int): Result<bool, LearningError> {
    if !PolicyState(state) then Failure(InvalidArgument)
    else if ref !in db.rows then Failure(UnknownProposal)
    else if db.rows[ref].policy == None then Success(false)
    else if db.rows[ref].policy == Some(p) && db.rows[ref].state == state && db.rows[ref].decidedAt == Some(at)
    then Success(true)
    else Failure(Conflict)
  }

  function WritePolicy(db: Db, ref: ProposalRef, p: Policy, state: ProposalState, at: int): Db {
    if ref in db.rows && db.rows[ref].state == PROPOSED
    then db.(rows := db.rows[ref := db.rows[ref].(policy := Some(p), state := state, decidedAt := Some(at))])
    else db
  }

  // ---------- the authority chain ----------

  function AppliedRefs(rows: Rows, e: Envelope): set<ProposalRef> {
    set r | r in rows && rows[r].envelope == e && rows[r].state == APPLIED
  }

  function Successors(rows: Rows, e: Envelope, authority: Authority): set<ProposalRef> {
    set r | r in rows && rows[r].envelope == e && rows[r].state == APPLIED && rows[r].candidate.baseline == authority
  }

  function AuthorityOf(e: Envelope, tip: Option<ProposalRef>): Authority {
    match tip
    case None => Initial(e)
    case Some(p) => Applied(p)
  }

  /** The walk from an authority to the last applied proposal that rests on it. */
  ghost function Walk(rows: Rows, e: Envelope, tip: Option<ProposalRef>, visited: set<ProposalRef>)
    : Result<Option<ProposalRef>, LearningError>
    decreases |rows.Keys - visited|
  {
    var next := Successors(rows, e, AuthorityOf(e, tip));
    if |next| > 1 then Failure(MultipleRows)
    else if next == {} then Success(tip)
    else
      var r := Only(next);
      if r in visited then Failure(AuthorityCycle)
      else
        assert rows.Keys - (visited + {r}) < rows.Keys - visited by {
          assert r in next && r in rows.Keys - visited;
        }
        SmallerSubset(rows.Keys - (visited + {r}), rows.Keys - visited);
        Walk(rows, e, Some(r), visited + {r})
  }

  lemma {:induction false} SmallerSubset<T>(a: set<T>, b: set<T>)
    requires a < b
    ensures |a| < |b|
  {
    var x :| x in b && x !in a;
    if a != {} {
      var y :| y in a;
      SmallerSubset(a - {y}, b - {y});
    }
  }

  datatype Current = Current(authority: Authority, allocation: Allocation)

  ghost function CurrentFrom(rows: Rows, e: Envelope, initial: Allocation): Result<Current, LearningError> {
    match Walk(rows, e, None, {})
    case Failure(error) => Failure(error)
    case Success(None) => Success(Current(Initial(e), initial))
    case Success(Some(tip)) =>
      if tip in rows then Success(Current(Applied(tip), rows[tip].candidate.proposed)) else Failure(UnknownProposal)
  }

  ghost function ResolveCurrent(db: Db, e: Envelope): Result<Current, LearningError> {
    CurrentFrom(db.rows, e, InitialAllocation(e))
  }

  // ---------- application ----------

  datatype ApplyOutcome = ApplyOutcome(applied: bool, replayed: bool)

  const APPROVED := "APPROVED"

  predicate Executable(row: Row) {
    row.state == PROPOSED && row.policy.Some? && row.policy.value.status == APPROVED
  }

  function RejectedRow(row: Row, at: int): Row {
    row.(state := REJECTED, decisionReason := Some("STALE_ALLOCATION_BASELINE"), decidedAt := Some(at))
  }

  function AppliedRow(row: Row, at: int): Row {
    row.(state := APPLIED, decisionReason := Some("POLICY_APPROVED_APPLICATION"),
         decidedAt := Some(at), appliedAt := Some(at))
  }

  /** The unique index on applied successors refuses a second applied row with the same baseline. */
  predicate SuccessorIndexAllows(rows: Rows, row: Row) {
    Successors(rows, row.envelope, row.candidate.baseline) == {}
  }

  ghost function Apply(db: Db, ref: ProposalRef, circuitClosed: bool, at: int)
    : (Db, Result<ApplyOutcome, LearningError>)
  {
    if ref !in db.rows then (db, Failure(UnknownProposal))
    else
      var row := db.rows[ref];
      if row.state == APPLIED then (db, Success(ApplyOutcome(false, true)))
      else if !Executable(row) then (db, Failure(Conflict))
      else if !circuitClosed then (db, Failure(CircuitOpen))
      else
        match CurrentFrom(db.rows, row.envelope, row.candidate.current)
        case Failure(error) => (db, Failure(error))
        case Success(current) =>
          if current.authority != row.candidate.baseline || current.allocation != row.candidate.current
          then (db.(rows := db.rows[ref := RejectedRow(row, at)]), Success(ApplyOutcome(false, false)))
          else if !SuccessorIndexAllows(db.rows, row) then (db, Failure(IntegrityViolation))
          else (db.(rows := db.rows[ref := AppliedRow(row, at)]), Success(ApplyOutcome(true, false)))
  }

  // ---------- replay lookup ----------

  function CycleSnapshots(db: Db, windowEnd: int, e: Envelope): set<SnapshotRef> {
    set s | s in db.snapshots && db.snapshots[s].facts.windowEnd == windowEnd && db.snapshots[s].facts.envelope == e
  }

  datatype Cycle = Cycle(snapshot: SnapshotRef, selected: Option<ProposalRef>)

  /** The first read: the one snapshot of the cycle. */
  ghost function FindSnapshot(db: Db, windowEnd: int, e: Envelope): (r: Result<Option<SnapshotRef>, LearningError>)
    ensures r.Success? && r.value.Some? ==> CycleSnapshots(db, windowEnd, e) == {r.value.value}
  {
    var found := CycleSnapshots(db, windowEnd, e);
    if |found| > 1 then Failure(MultipleRows)
    else if found == {} then Success(None)
    else Success(Some(Only(found)))
  }

  /** The second read: the one selected proposal of that snapshot. */
  ghost function FindSelected(db: Db, s: SnapshotRef): (r: Result<Option<ProposalRef>, LearningError>)
    ensures r.Success? && r.value.Some? ==> SelectedOf(db.rows, s) == {r.value.value}
  {
    var selected := SelectedOf(db.rows, s);
    if |selected| > 1 then Failure(MultipleRows)
    else if selected == {} then Success(None)
    else Success(Some(Only(selected)))
  }

  /** Both reads without anything between them. */
  ghost function ExistingCycle(db: Db, windowEnd: int, e: Envelope): (r: Result<Option<Cycle>, LearningError>)
    ensures r.Success? && r.value.Some? && r.value.value.selected.Some? ==>
      SelectedOf(db.rows, r.value.value.snapshot) == {r.value.value.selected.value}
  {
    match FindSnapshot(db, windowEnd, e)
    case Failure(error) => Failure(error)
    case Success(None) => Success(None)
    case Success(Some(s)) =>
      match FindSelected(db, s)
      case Failure(error) => Failure(error)
      case Success(selected) => Success(Some(Cycle(s, selected)))
  }
}
