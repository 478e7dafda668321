/** Who may decide a proposal: what an open circuit leaves untouched, and, for every applied or rejected proposal of
    any run, the event that decided it. */
module DecisionHistory {
  import opened Wrappers
  import opened LearningContracts
  import D = LearningDb
  import opened LearningDb
  import opened AuthorityChain
  import opened LearningWorker
  import opened LearningRuns
  import opened CycleReports
  import opened CycleRaces

  /** With the circuit open nothing is applied and nothing rejected: only an application already made is
      confirmed, and everything else fails, an executable proposal for the circuit alone. */
  lemma OpenCircuitDecidesNothing(db: Db, ref: ProposalRef, at: int)
    ensures D.Apply(db, ref, false, at).0 == db
    ensures D.Apply(db, ref, false, at).1.Success? <==> ref in db.rows && db.rows[ref].state == APPLIED
    ensures D.Apply(db, ref, false, at).1 == Failure(CircuitOpen) <==>
      ref in db.rows && db.rows[ref].state == PROPOSED
      && db.rows[ref].policy.Some? && db.rows[ref].policy.value.status == "APPROVED"
  {
  }

  ghost predicate Decided(db: Db, r: ProposalRef) {
    r in db.rows && db.rows[r].state in {APPLIED, REJECTED}
  }

  /** `r` waits for its application, with an approved policy. */
  ghost predicate Approvable(db: Db, r: ProposalRef) {
    r in db.rows && db.rows[r].state == PROPOSED && db.rows[r].policy.Some? && db.rows[r].policy.value.status == "APPROVED"
  }

  /** `r` rests on the current authority and starts from the current allocation. */
  ghost predicate UpToDate(db: Db, r: ProposalRef)
    requires r in db.rows
  {
    D.ResolveCurrent(db, db.rows[r].envelope) == Success(Current(db.rows[r].candidate.baseline, db.rows[r].candidate.current))
  }

  /** What an application does to its proposal, without reference to how it is looked up. */
  lemma ApplicationDecides(db: Db, p: ProposalRef, closed: bool, at: int, r: ProposalRef)
    requires Sound(db) && p in db.rows && SelectedRow(db, db.rows[p].candidate.snapshot, p)
    requires Decided(D.Apply(db, p, closed, at).0, r) && !Decided(db, r)
    ensures r == p && closed && Approvable(db, p)
    ensures D.Apply(db, p, closed, at).0.rows[p].state == if UpToDate(db, p) then APPLIED else REJECTED
  {
    ApplyChangesOneRow(db, p, closed, at);
    if !closed { OpenCircuitDecidesNothing(db, p, at); }
    var e := db.rows[p].envelope;
    assert HasChain(db.rows, e);
    var chain :| IsChain(db.rows, e, chain);
    CurrentOfChain(db, e, chain);
    ApplyFollowsTheChain(db, p, at, chain);
    FitsIffUpToDate(db, p, chain);
  }

  lemma FitsIffUpToDate(db: Db, p: ProposalRef, chain: seq<ProposalRef>)
    requires Sound(db) && p in db.rows && IsChain(db.rows, db.rows[p].envelope, chain)
    requires SelectedRow(db, db.rows[p].candidate.snapshot, p)
    ensures Fits(db.rows, db.rows[p], chain) <==> UpToDate(db, p)
  {
    CurrentOfChain(db, db.rows[p].envelope, chain);
    SelectedRestsOnSnapshot(db, db.rows[p].candidate.snapshot, p);
  }

  // ---------- no other call decides ----------

  ghost predicate NothingDecided(before: Db, after: Db) {
    forall r :: Decided(after, r) ==> Decided(before, r)
  }

  lemma SavingDecidesNothing(db: Db, job: Job, s: SnapshotRef)
    ensures NothingDecided(db, SaveCandidatesStep(db, job, s).0)
  {
    if Generated(s).Success? && D.SaveCandidates(db, Generated(s).value, job.envelope, job.capturedAt).1.Success? {
      var cs := Generated(s).value;
      var after := D.SaveCandidates(db, cs, job.envelope, job.capturedAt).0;
      InsertedRows(db, cs, job.envelope, job.capturedAt);
      forall r | r in after.rows && r !in db.rows ensures after.rows[r].state == PROPOSED {
        assert NewFrom(db, cs, job.envelope, job.capturedAt, r, after.rows[r]);
      }
    }
  }

  lemma SelectionDecidesNothing(db: Db, p: ProposalRef, s: Selection, at: int)
    ensures NothingDecided(db, D.RecordSelection(db, p, s, at).0)
  {
  }

  lemma SelectingDecidesNothing(db: Db, job: Job, s: SnapshotRef, cs: seq<Candidate>, answers: Answers)
    ensures NothingDecided(db, SelectStep(db, job, s, cs, answers).0)
  {
    var p := answers.selection.proposal;
    SelectionDecidesNothing(db, p, Selection(SourceOf(p), answers.selection.confidence, answers.selection.reasons), job.capturedAt);
  }

  lemma WritingDecidesNothing(db: Db, p: ProposalRef, policy: Policy, state: ProposalState, at: int)
    requires PolicyState(state)
    ensures NothingDecided(db, D.WritePolicy(db, p, policy, state, at))
  {
  }

  lemma QuietStepDecidesNothing(db: Db, pc: Pc, answers: Answers)
    requires Informed(db, pc) && !pc.Finish? && !pc.Apply?
    ensures NothingDecided(db, Step(db, pc, answers).0)
  {
    match pc
    case SaveCandidates(job, s) => SavingDecidesNothing(db, job, s);
    case Select(job, s, cs) => SelectingDecidesNothing(db, job, s, cs, answers);
    case WritePolicy(job, s, p, policy, state) => WritingDecidesNothing(db, p, policy, state, job.capturedAt);
    case _ =>
  }

  /** A step that decides a proposal is an application of it with the circuit closed. */
  lemma DecidingStep(db: Db, pc: Pc, answers: Answers, after: Db, r: ProposalRef)
    requires Sound(db) && Informed(db, pc) && after == Step(db, pc, answers).0
    requires Decided(after, r) && !Decided(db, r)
    ensures answers.circuitClosed && Approvable(db, r)
    ensures after.rows[r].state == if UpToDate(db, r) then APPLIED else REJECTED
  {
    if pc.Finish? || pc.Apply? {
      AppliesOrNothing(db, pc, answers);
      ApplicationDecides(db, pc.proposal, answers.circuitClosed, pc.job.capturedAt, r);
    } else {
      QuietStepDecidesNothing(db, pc, answers);
    }
  }

  // ---------- over every run ----------

  /** The event decided `r`: a call answered with a closed circuit, on a proposal that waited with an approved policy;
      it was applied if it was up to date, and rejected if not. */
  ghost predicate Decides(before: Db, event: Event, after: Db, r: ProposalRef) {
    && event.Advance? && event.answers.circuitClosed
    && Approvable(before, r) && r in after.rows
    && after.rows[r].state == if UpToDate(before, r) then APPLIED else REJECTED
  }

  ghost predicate DecidedBy(events: seq<Event>, i: nat, r: ProposalRef)
    requires i < |events|
  {
    Decides(Execution(events[..i]).db, events[i], Execution(events[..i + 1]).db, r)
  }

  lemma NewlyDecided(s: System, event: Event, after: Db, r: ProposalRef)
    requires SystemSound(s) && after == Next(s, event).db && Decided(after, r) && !Decided(s.db, r)
    ensures Decides(s.db, event, after, r)
  {
    if event.Advance? && event.worker in s.workers {
      assert Informed(s.db, s.workers[event.worker].pc);
      DecidingStep(s.db, s.workers[event.worker].pc, event.answers, after, r);
    }
  }

  lemma DecisionStays(before: Db, after: Db, r: ProposalRef)
    requires Persists(before, after) && Decided(before, r)
    ensures r in after.rows && after.rows[r].state == before.rows[r].state
  {
    assert RowPersists(before.rows[r], after.rows[r]);
  }

  lemma EventAt(events: seq<Event>, n: nat, before: System, after: System)
    requires n < |events| && before == Execution(events[..n]) && after == Execution(events[..n + 1])
    ensures SystemSound(before) && after == Next(before, events[n]) && Persists(before.db, after.db)
  {
    assert events[..n + 1] == events[..n] + [events[n]];
    ExecutionStep(events[..n], events[n]);
    ExecutionOnCycle(events[..n]);
    EventKeepsOnCycle(before, events[n]);
  }

  /** After `n` events `r` is in this state. */
  ghost predicate StateAt(events: seq<Event>, n: nat, r: ProposalRef, state: ProposalState)
    requires n <= |events|
  {
    r in Execution(events[..n]).db.rows && Execution(events[..n]).db.rows[r].state == state
  }

  lemma DecidedBeforeOrNow(events: seq<Event>, n: nat, r: ProposalRef, state: ProposalState)
    requires n < |events| && StateAt(events, n + 1, r, state) && state in {APPLIED, REJECTED}
    ensures DecidedBy(events, n, r) || StateAt(events, n, r, state)
  {
    var before, after := Execution(events[..n]), Execution(events[..n + 1]);
    EventAt(events, n, before, after);
    if Decided(before.db, r) { DecisionStays(before.db, after.db, r); } else { NewlyDecided(before, events[n], after.db, r); }
  }

  lemma NothingAtFirst(events: seq<Event>, r: ProposalRef, state: ProposalState)
    ensures !StateAt(events, 0, r, state)
  {
    assert events[..0] == [];
  }

  lemma {:induction false} DecidedInFirst(events: seq<Event>, n: nat, r: ProposalRef, state: ProposalState) returns (i: nat)
    requires n <= |events| && StateAt(events, n, r, state) && state in {APPLIED, REJECTED}
    ensures i < n && DecidedBy(events, i, r) && StateAt(events, i + 1, r, state)
  {
    NothingAtFirst(events, r, state);
    DecidedBeforeOrNow(events, n - 1, r, state);
    if DecidedBy(events, n - 1, r) { i := n - 1; } else { i := DecidedInFirst(events, n - 1, r, state); }
  }

  /** In every run, every applied or rejected proposal was decided by one event answered with a closed circuit, and
      has been in that state since. */
  lemma EveryDecisionWasAllowed(events: seq<Event>, r: ProposalRef) returns (i: nat)
    requires Decided(Execution(events).db, r)
    ensures i < |events| && DecidedBy(events, i, r) && StateAt(events, i + 1, r, Execution(events).db.rows[r].state)
  {
    assert events[..|events|] == events;
    i := DecidedInFirst(events, |events|, r, Execution(events).db.rows[r].state);
  }
}
