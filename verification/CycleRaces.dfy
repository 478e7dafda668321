/** How many proposals of one cycle concurrent workers can have applied, and which workers can still cause an
    application once there is one. */
module CycleRaces {
  import opened Wrappers
  import opened Ordering
  import opened LearningContracts
  import C = Candidates
  import D = LearningDb
  import opened LearningDb
  import opened AuthorityChain
  import opened LearningWorker
  import opened LearningRuns
  import opened CycleReplay
  import opened CycleReports

  // ---------- at most one for each snapshot of the cycle ----------

  ghost function SnapshotsOf(rows: Rows, applied: set<ProposalRef>): set<SnapshotRef>
    requires applied <= rows.Keys
  {
    set r | r in applied :: rows[r].candidate.snapshot
  }

  lemma SnapshotsOfOneMore(rows: Rows, rest: set<ProposalRef>, r: ProposalRef, all: set<ProposalRef>)
    requires rest <= rows.Keys && r in rows && r !in rest && all == rest + {r} && OnePerSnapshot(rows, all)
    ensures SnapshotsOf(rows, all) == SnapshotsOf(rows, rest) + {rows[r].candidate.snapshot}
    ensures rows[r].candidate.snapshot !in SnapshotsOf(rows, rest)
  {
  }

  /** Different rows come from different snapshots. */
  ghost predicate OnePerSnapshot(rows: Rows, some: set<ProposalRef>) {
    forall a, b ::
      (a in some && b in some && a in rows && b in rows
       && rows[a].candidate.snapshot == rows[b].candidate.snapshot) ==> a == b
  }

  lemma AppliedAreOnePerSnapshot(db: Db, applied: set<ProposalRef>)
    requires Sound(db) && applied <= db.rows.Keys && forall r :: r in applied ==> db.rows[r].state == APPLIED
    ensures OnePerSnapshot(db.rows, applied)
  {
    forall a, b | a in applied && b in applied && db.rows[a].candidate.snapshot == db.rows[b].candidate.snapshot
      ensures a == b
    {
      AppliedOfSnapshotIsUnique(db, a, b);
    }
  }

  lemma {:induction false} SnapshotsAreAsMany(rows: Rows, some: set<ProposalRef>)
    requires some <= rows.Keys && OnePerSnapshot(rows, some)
    ensures |SnapshotsOf(rows, some)| == |some|
  {
    if some != {} {
      var r :| r in some;
      var rest := some - {r};
      SnapshotsAreAsMany(rows, rest);
      SnapshotsOfOneMore(rows, rest, r, some);
    }
  }

  lemma AppliedAreInTheirCycle(db: Db, windowEnd: int, e: Envelope, r: ProposalRef)
    requires Sound(db) && r in CycleApplied(db, windowEnd, e)
    ensures db.rows[r].candidate.snapshot in CycleSnapshots(db, windowEnd, e)
  {
    assert GenuineRow(db, db.rows[r]);
  }

  /** In every run, a cycle has at most as many applied proposals as snapshots; so at most one while its snapshot
      is single. */
  lemma AppliedAreAtMostSnapshots(events: seq<Event>, windowEnd: int, e: Envelope)
    ensures var db := Execution(events).db; |CycleApplied(db, windowEnd, e)| <= |CycleSnapshots(db, windowEnd, e)|
  {
    var db := Execution(events).db;
    ExecutionSound(events);
    var applied := CycleApplied(db, windowEnd, e);
    AppliedAreOnePerSnapshot(db, applied);
    SnapshotsAreAsMany(db.rows, applied);
    forall r | r in applied ensures db.rows[r].candidate.snapshot in CycleSnapshots(db, windowEnd, e) {
      AppliedAreInTheirCycle(db, windowEnd, e, r);
    }
    SubsetCount(SnapshotsOf(db.rows, applied), CycleSnapshots(db, windowEnd, e));
  }

  // ---------- a base that has a successor is of no more use ----------

  ghost predicate Taken(db: Db, e: Envelope, base: Authority) {
    Successors(db.rows, e, base) != {}
  }

  lemma TakenForGood(before: Db, after: Db, e: Envelope, base: Authority)
    requires Persists(before, after) && Taken(before, e, base)
    ensures Taken(after, e, base)
  {
    var r :| r in Successors(before.rows, e, base);
    assert RowPersists(before.rows[r], after.rows[r]);
    assert r in Successors(after.rows, e, base);
  }

  lemma SelectedForGood(before: Db, after: Db, s: SnapshotRef)
    requires Persists(before, after) && SelectedOf(before.rows, s) != {}
    ensures SelectedOf(after.rows, s) != {}
  {
    var r :| r in SelectedOf(before.rows, s);
    assert RowPersists(before.rows[r], after.rows[r]);
    assert r in SelectedOf(after.rows, s);
  }

  /** The worker builds on a base that has a successor, or has nothing to build on any more. */
  ghost predicate Blocked(db: Db, pc: Pc) {
    match pc
    case ReadSelection(_, s) => SelectedOf(db.rows, s) != {} && Taken(db, s.envelope, BaselineOf(s))
    case ReadTip(_) => false
    case SaveSnapshot(job, current) => Taken(db, job.envelope, current.authority)
    case SaveCandidates(_, s) => Taken(db, s.envelope, BaselineOf(s))
    case Select(_, s, _) => Taken(db, s.envelope, BaselineOf(s))
    case Finish(_, s, _, _, _) => Taken(db, s.envelope, BaselineOf(s))
    case WritePolicy(_, s, _, _, _) => Taken(db, s.envelope, BaselineOf(s))
    case Apply(_, s, _) => Taken(db, s.envelope, BaselineOf(s))
    case _ => true
  }

  lemma BlockedForGood(before: Db, after: Db, pc: Pc)
    requires Persists(before, after) && Blocked(before, pc)
    ensures Blocked(after, pc)
  {
    match pc
    case ReadSelection(_, s) =>
      SelectedForGood(before, after, s);
      TakenForGood(before, after, s.envelope, BaselineOf(s));
    case SaveSnapshot(job, current) => TakenForGood(before, after, job.envelope, current.authority);
    case SaveCandidates(_, s) => TakenForGood(before, after, s.envelope, BaselineOf(s));
    case Select(_, s, _) => TakenForGood(before, after, s.envelope, BaselineOf(s));
    case Finish(_, s, _, _, _) => TakenForGood(before, after, s.envelope, BaselineOf(s));
    case WritePolicy(_, s, _, _, _) => TakenForGood(before, after, s.envelope, BaselineOf(s));
    case Apply(_, s, _) => TakenForGood(before, after, s.envelope, BaselineOf(s));
    case _ =>
  }

  /** Applied rows are the same before and after. */
  ghost predicate NothingApplied(before: Db, after: Db) {
    forall r :: r in after.rows && after.rows[r].state == APPLIED ==>
      r in before.rows && before.rows[r].state == APPLIED
  }

  lemma SameCycleApplied(before: Db, after: Db, windowEnd: int, e: Envelope)
    requires Persists(before, after) && NothingApplied(before, after)
    ensures CycleApplied(after, windowEnd, e) == CycleApplied(before, windowEnd, e)
    ensures AppliedRefs(after.rows, e) == AppliedRefs(before.rows, e)
  {
    forall r | r in before.rows ensures r in after.rows && RowPersists(before.rows[r], after.rows[r]) {
    }
  }

  lemma TakenBaseIsRejected(db: Db, p: ProposalRef, closed: bool, at: int)
    requires StoreInvariant(db) && p in db.rows && Taken(db, db.rows[p].envelope, db.rows[p].candidate.baseline)
    ensures NothingApplied(db, D.Apply(db, p, closed, at).0)
  {
    var row := db.rows[p];
    if Executable(row) {
      assert HasChain(db.rows, row.envelope);
      var chain :| IsChain(db.rows, row.envelope, chain);
      ApplyFollowsTheChain(db, p, at, chain);
      SuccessorsOnChain(db.rows, row.envelope, chain, |chain|);
    }
  }

  lemma SelectedRestsOnSnapshot(db: Db, s: SnapshotRef, p: ProposalRef)
    requires GenuineRows(db) && SelectedRow(db, s, p)
    ensures db.rows[p].envelope == s.envelope && db.rows[p].candidate.baseline == BaselineOf(s)
    ensures KnownBase(db, s.envelope, BaselineOf(s), s.current) && db.rows[p].candidate.current == s.current
  {
    assert GenuineRow(db, db.rows[p]);
  }

  /** What a worker at or before its application does to the store is an application or nothing. */
  lemma AppliesOrNothing(db: Db, pc: Pc, answers: Answers)
    requires pc.Finish? || pc.Apply?
    ensures Step(db, pc, answers).0 in {db, D.Apply(db, pc.proposal, answers.circuitClosed, pc.job.capturedAt).0}
  {
  }

  lemma BlockedApplyChangesNothing(db: Db, s: SnapshotRef, p: ProposalRef, closed: bool, at: int)
    requires Sound(db) && SelectedRow(db, s, p) && Taken(db, s.envelope, BaselineOf(s))
    ensures NothingApplied(db, D.Apply(db, p, closed, at).0)
  {
    SelectedRestsOnSnapshot(db, s, p);
    TakenBaseIsRejected(db, p, closed, at);
  }

  lemma SavingAppliesNothing(db: Db, job: Job, s: SnapshotRef)
    ensures NothingApplied(db, SaveCandidatesStep(db, job, s).0)
  {
    if Generated(s).Success? && D.SaveCandidates(db, Generated(s).value, job.envelope, job.capturedAt).1.Success? {
      var cs := Generated(s).value;
      var after := D.SaveCandidates(db, cs, job.envelope, job.capturedAt).0;
      InsertedRows(db, cs, job.envelope, job.capturedAt);
      forall r | r in after.rows && r !in db.rows ensures after.rows[r].state == PROPOSED {
        assert NewFrom(db, cs, job.envelope, job.capturedAt, r, after.rows[r]);
      }
    }
  }

  /** The calls that neither save candidates nor may apply. */
  predicate Quiet(pc: Pc) {
    !pc.SaveCandidates? && !pc.Finish? && !pc.Apply?
  }

  lemma SelectionAppliesNothing(db: Db, p: ProposalRef, s: Selection, at: int)
    ensures NothingApplied(db, D.RecordSelection(db, p, s, at).0)
  {
  }

  lemma SelectingAppliesNothing(db: Db, job: Job, s: SnapshotRef, cs: seq<Candidate>, answers: Answers)
    ensures NothingApplied(db, SelectStep(db, job, s, cs, answers).0)
  {
    var p := answers.selection.proposal;
    SelectionAppliesNothing(db, p, Selection(SourceOf(p), answers.selection.confidence, answers.selection.reasons), job.capturedAt);
  }

  lemma QuietStepAppliesNothing(db: Db, pc: Pc, answers: Answers)
    requires Quiet(pc) && (pc.WritePolicy? ==> PolicyState(pc.state))
    ensures NothingApplied(db, Step(db, pc, answers).0)
  {
    match pc
    case Select(job, s, cs) => SelectingAppliesNothing(db, job, s, cs, answers);
    case _ =>
  }

  lemma BlockedStepAppliesNothing(db: Db, pc: Pc, answers: Answers)
    requires Sound(db) && Informed(db, pc) && (pc.ReadTip? || Blocked(db, pc))
    ensures NothingApplied(db, Step(db, pc, answers).0)
  {
    if Quiet(pc) {
      QuietStepAppliesNothing(db, pc, answers);
    } else if pc.SaveCandidates? {
      SavingAppliesNothing(db, pc.job, pc.snapshot);
    } else {
      AppliesOrNothing(db, pc, answers);
      BlockedApplyChangesNothing(db, pc.snapshot, pc.proposal, answers.circuitClosed, pc.job.capturedAt);
    }
  }

  /** A blocked worker on a cycle that has an application stays blocked: a look-up ends the cycle, and every
      other call keeps the base. */
  lemma BlockedStaysBlocked(db: Db, windowEnd: int, e: Envelope, pc: Pc, answers: Answers)
    requires Sound(db) && Informed(db, pc) && OnCycle(db, windowEnd, Some(e), pc) && Blocked(db, pc)
    requires CycleApplied(db, windowEnd, e) != {}
    ensures Blocked(db, Step(db, pc, answers).1)
  {
    if pc.LookUp? {
      AppliedBlocksLookUp(db, pc.job);
    } else if pc.ReadSelection? {
      ReadSelectionKeepsBase(db, pc.job, pc.snapshot);
    } else if pc.SaveSnapshot? {
      SaveSnapshotKeepsBase(db, pc.job, pc.current, answers);
    } else if pc.SaveCandidates? {
      SaveCandidatesKeepsBase(db, pc.job, pc.snapshot);
    } else if pc.Select? {
      SelectKeepsBase(db, windowEnd, e, pc.job, pc.snapshot, pc.candidates, answers);
    } else if pc.Finish? {
      FinishingKeepsBase(db, pc, answers);
    } else if pc.WritePolicy? {
      WritingKeepsBase(db, pc.job, pc.snapshot, pc.proposal, pc.state);
    } else if pc.Apply? {
      ApplyingKeepsBase(db, pc.job, pc.snapshot, pc.proposal, answers);
    }
  }

  /** With an application in the cycle, a look-up finds the snapshot it was made in, or several. */
  lemma AppliedBlocksLookUp(db: Db, job: Job)
    requires Sound(db) && CycleApplied(db, job.windowEnd, job.envelope) != {}
    ensures Blocked(db, LookUpStep(db, job))
  {
    var r :| r in CycleApplied(db, job.windowEnd, job.envelope);
    var row := db.rows[r];
    RowIsDisciplined(db, r);
    RowIsInItsCycle(db, job, row.candidate.snapshot, r);
    SelectedRestsOnSnapshot(db, row.candidate.snapshot, r);
    assert r in SelectedOf(db.rows, row.candidate.snapshot);
    assert r in Successors(db.rows, job.envelope, row.candidate.baseline);
  }

  lemma ReadSelectionKeepsBase(db: Db, job: Job, s: SnapshotRef)
    requires Blocked(db, ReadSelection(job, s))
    ensures Blocked(db, ReadSelectionStep(db, job, s))
  {
  }

  lemma SaveSnapshotKeepsBase(db: Db, job: Job, current: Current, answers: Answers)
    requires KnownBase(db, job.envelope, current.authority, current.allocation)
    requires Blocked(db, Pc.SaveSnapshot(job, current))
    ensures Blocked(db, SaveSnapshotStep(db, job, current, answers).1)
  {
    assert BaselineOf(SnapshotFacts(job, current, answers.metrics)) == current.authority;
  }

  lemma SaveCandidatesKeepsBase(db: Db, job: Job, s: SnapshotRef)
    requires Blocked(db, Pc.SaveCandidates(job, s))
    ensures Blocked(db, SaveCandidatesStep(db, job, s).1)
  {
  }

  lemma ApplyingKeepsBase(db: Db, job: Job, s: SnapshotRef, p: ProposalRef, answers: Answers)
    ensures Ended(ApplyStep(db, job, s, p, answers).1)
  {
  }

  lemma FinishingKeepsBase(db: Db, pc: Pc, answers: Answers)
    requires pc.Finish? && Blocked(db, pc)
    ensures Blocked(db, FinishStep(db, pc, answers).1)
  {
    ApplyingKeepsBase(db, pc.job, pc.snapshot, pc.proposal, answers);
    AuthorizeLeadsOn(db, pc.job, pc.snapshot, pc.proposal, answers);
  }

  lemma WritingKeepsBase(db: Db, job: Job, s: SnapshotRef, p: ProposalRef, state: ProposalState)
    requires Taken(db, s.envelope, BaselineOf(s))
    ensures Blocked(db, AfterPolicy(job, s, p, state))
  {
  }

  lemma SelectKeepsBase(db: Db, windowEnd: int, e: Envelope, job: Job, s: SnapshotRef, cs: seq<Candidate>, answers: Answers)
    requires Stored(db, job.envelope, cs) && AllOf(s, cs) && Blocked(db, Pc.Select(job, s, cs))
    ensures Blocked(db, SelectStep(db, job, s, cs, answers).1)
  {
    if ValidSelection(answers.selection, s, cs) {
      var p := answers.selection.proposal;
      var c :| c in cs && c.ref == p;
      assert db.rows[p].candidate == c;
      var made := Selection(SourceOf(p), answers.selection.confidence, answers.selection.reasons);
      if D.RecordSelection(db, p, made, job.capturedAt).1.Success? {
        SelectionStaysInSnapshot(db, p, made, job.capturedAt);
      }
    }
  }

  // ---------- a worker of another cycle applies nothing of this one ----------

  lemma AppliesOnlyOwnCycle(db: Db, windowEnd: int, e: Envelope, x: Worker, answers: Answers)
    requires Sound(db) && Informed(db, x.pc) && WorkerOnCycle(db, x)
    requires x.windowEnd != windowEnd || x.envelope != Some(e)
    ensures CycleApplied(Step(db, x.pc, answers).0, windowEnd, e) == CycleApplied(db, windowEnd, e)
  {
    var after := Step(db, x.pc, answers).0;
    StepSound(db, x.pc, answers);
    if Quiet(x.pc) {
      QuietStepAppliesNothing(db, x.pc, answers);
      SameCycleApplied(db, after, windowEnd, e);
    } else if x.pc.SaveCandidates? {
      SavingAppliesNothing(db, x.pc.job, x.pc.snapshot);
      SameCycleApplied(db, after, windowEnd, e);
    } else {
      AppliesOrNothing(db, x.pc, answers);
      AppliesAtMostOwn(db, after, x.pc.job, x.pc.snapshot, x.pc.proposal, windowEnd, e, answers);
    }
  }

  lemma AppliesAtMostOwn(db: Db, after: Db, job: Job, s: SnapshotRef, p: ProposalRef, windowEnd: int, e: Envelope, answers: Answers)
    requires Sound(db) && SelectedRow(db, s, p) && Persists(db, after)
    requires after == db || after == D.Apply(db, p, answers.circuitClosed, job.capturedAt).0
    requires s.windowEnd != windowEnd || s.envelope != e
    ensures CycleApplied(after, windowEnd, e) == CycleApplied(db, windowEnd, e)
  {
    ApplyChangesOneRow(db, p, answers.circuitClosed, job.capturedAt);
    if after != db { OneRowOfAnotherCycle(db, after, p, windowEnd, e); }
  }

  lemma OneRowOfAnotherCycle(db: Db, after: Db, p: ProposalRef, windowEnd: int, e: Envelope)
    requires p in db.rows && p in after.rows && after.rows == db.rows[p := after.rows[p]]
    requires after.rows[p].candidate == db.rows[p].candidate
    requires var s := db.rows[p].candidate.snapshot; s.windowEnd != windowEnd || s.envelope != e
    ensures CycleApplied(after, windowEnd, e) == CycleApplied(db, windowEnd, e)
  {
  }

  // ---------- when a cycle is closed ----------

  ghost predicate OfCycle(x: Worker, windowEnd: int, e: Envelope) {
    x.windowEnd == windowEnd && x.envelope == Some(e)
  }

  ghost predicate AllBlocked(s: System, windowEnd: int, e: Envelope) {
    forall w :: w in s.workers && OfCycle(s.workers[w], windowEnd, e) ==> Blocked(s.db, s.workers[w].pc)
  }

  /** The cycle has an application, and every worker on it is blocked. */
  ghost predicate Closed(s: System, windowEnd: int, e: Envelope) {
    CycleApplied(s.db, windowEnd, e) != {} && AllBlocked(s, windowEnd, e)
  }

  lemma BlockedAdvance(s: System, w: nat, answers: Answers, windowEnd: int, e: Envelope)
    requires SystemSound(s) && AllOnCycle(s) && Closed(s, windowEnd, e) && w in s.workers
    ensures var (after, next) := Step(s.db, s.workers[w].pc, answers);
      && CycleApplied(after, windowEnd, e) == CycleApplied(s.db, windowEnd, e)
      && Persists(s.db, after)
      && (OfCycle(s.workers[w], windowEnd, e) ==> Blocked(after, next))
  {
    var x := s.workers[w];
    var (after, next) := Step(s.db, x.pc, answers);
    assert Informed(s.db, x.pc) && WorkerOnCycle(s.db, x);
    StepSound(s.db, x.pc, answers);
    if OfCycle(x, windowEnd, e) {
      BlockedStepAppliesNothing(s.db, x.pc, answers);
      SameCycleApplied(s.db, after, windowEnd, e);
      BlockedStaysBlocked(s.db, windowEnd, e, x.pc, answers);
      BlockedForGood(s.db, after, next);
    } else {
      AppliesOnlyOwnCycle(s.db, windowEnd, e, x, answers);
    }
  }

  lemma EventKeepsClosed(s: System, event: Event, windowEnd: int, e: Envelope)
    requires SystemSound(s) && AllOnCycle(s) && Closed(s, windowEnd, e)
    ensures Closed(Next(s, event), windowEnd, e)
    ensures CycleApplied(Next(s, event).db, windowEnd, e) == CycleApplied(s.db, windowEnd, e)
  {
    match event
    case Advance(w, answers) =>
      if w in s.workers {
        BlockedAdvance(s, w, answers, windowEnd, e);
        var next := Next(s, event);
        forall v | v in next.workers && OfCycle(next.workers[v], windowEnd, e) ensures Blocked(next.db, next.workers[v].pc) {
          if v != w { BlockedForGood(s.db, next.db, s.workers[v].pc); }
        }
      }
    case _ =>
  }

  /** A closed cycle never gets another application, whatever happens and whoever is started. */
  lemma {:induction false} ClosedForEver(events: seq<Event>, later: seq<Event>, windowEnd: int, e: Envelope)
    requires Closed(Execution(events), windowEnd, e)
    ensures Closed(Execution(events + later), windowEnd, e)
    ensures CycleApplied(Execution(events + later).db, windowEnd, e) == CycleApplied(Execution(events).db, windowEnd, e)
  {
    if later == [] {
      assert events + later == events;
    } else {
      var init, last := later[..|later| - 1], later[|later| - 1];
      assert events + later == events + init + [last];
      ClosedForEver(events, init, windowEnd, e);
      ExecutionStep(events + init, last);
      ExecutionOnCycle(events + init);
      EventKeepsClosed(Execution(events + init), last, windowEnd, e);
    }
  }

  // ---------- an application takes every base that was known before it ----------

  lemma CurrentOfChain(db: Db, e: Envelope, chain: seq<ProposalRef>)
    requires IsChain(db.rows, e, chain)
    ensures chain != [] ==> chain[|chain| - 1] in db.rows
    ensures D.ResolveCurrent(db, e) == Success(Current(AuthorityAt(e, chain, |chain|),
      if chain == [] then InitialAllocation(e) else db.rows[chain[|chain| - 1]].candidate.proposed))
  {
    WalkFindsTheTip(db.rows, e, chain);
    if chain != [] { assert LinkedAt(db.rows, e, chain, |chain| - 1); }
  }

  lemma KnownBaseIsOnChain(db: Db, e: Envelope, base: Authority, a: Allocation, chain: seq<ProposalRef>) returns (i: nat)
    requires KnownBase(db, e, base, a) && IsChain(db.rows, e, chain)
    ensures i <= |chain| && base == AuthorityAt(e, chain, i)
  {
    match base
    case Initial(_) => i := 0;
    case Applied(q) =>
      assert q in AppliedRefs(db.rows, e) && q in chain;
      var k :| 0 <= k < |chain| && chain[k] == q;
      i := k + 1;
  }

  lemma ApplicationGrowsChain(db: Db, after: Db, p: ProposalRef, closed: bool, at: int, chain: seq<ProposalRef>)
    requires Sound(db) && p in db.rows && after == D.Apply(db, p, closed, at).0 && !NothingApplied(db, after)
    requires IsChain(db.rows, db.rows[p].envelope, chain)
    ensures IsChain(after.rows, db.rows[p].envelope, chain + [p])
  {
    ApplyFollowsTheChain(db, p, at, chain);
    AppliedRowExtendsChain(db, p, at, chain);
  }

  lemma BaseBeforeEndIsTaken(db: Db, e: Envelope, chain: seq<ProposalRef>, p: ProposalRef, i: nat)
    requires IsChain(db.rows, e, chain + [p]) && i <= |chain|
    ensures Taken(db, e, AuthorityAt(e, chain, i))
  {
    assert AuthorityAt(e, chain + [p], i) == AuthorityAt(e, chain, i);
    SuccessorsOnChain(db.rows, e, chain + [p], i);
  }

  lemma KnownBasesGetTaken(db: Db, after: Db, p: ProposalRef, closed: bool, at: int, base: Authority, a: Allocation)
    requires Sound(db) && p in db.rows && after == D.Apply(db, p, closed, at).0 && !NothingApplied(db, after)
    requires KnownBase(db, db.rows[p].envelope, base, a)
    ensures Taken(after, db.rows[p].envelope, base)
  {
    var e := db.rows[p].envelope;
    assert HasChain(db.rows, e);
    var chain :| IsChain(db.rows, e, chain);
    ApplicationGrowsChain(db, after, p, closed, at, chain);
    var i := KnownBaseIsOnChain(db, e, base, a, chain);
    BaseBeforeEndIsTaken(after, e, chain, p, i);
  }

  /** The worker is about to read the tip, or to find that its snapshot has no selection yet. */
  ghost predicate Reads(db: Db, pc: Pc) {
    pc.ReadTip? || (pc.ReadSelection? && SelectedOf(db.rows, pc.snapshot) == {})
  }

  /** Whoever is on the cycle and has not yet to read the tip is blocked once all known bases are taken. */
  lemma BlockedOnceTaken(db: Db, after: Db, windowEnd: int, e: Envelope, pc: Pc)
    requires Sound(db) && Informed(db, pc) && OnCycle(db, windowEnd, Some(e), pc) && !Reads(db, pc) && Persists(db, after)
    requires forall base, a :: KnownBase(db, e, base, a) ==> Taken(after, e, base)
    ensures Blocked(after, pc)
  {
    if pc.ReadSelection? {
      var r :| r in SelectedOf(db.rows, pc.snapshot);
      SelectedRestsOnSnapshot(db, pc.snapshot, r);
      SelectedForGood(db, after, pc.snapshot);
    } else if pc.Finish? || pc.WritePolicy? || pc.Apply? { SelectedRestsOnSnapshot(db, pc.snapshot, pc.proposal); }
  }

  /** A step that applies a proposal of the cycle is an application by a worker on it. */
  lemma ApplicationIsByItsCycle(s: System, w: nat, answers: Answers, windowEnd: int, e: Envelope)
    requires SystemSound(s) && AllOnCycle(s)
    requires CycleApplied(Next(s, Advance(w, answers)).db, windowEnd, e) != CycleApplied(s.db, windowEnd, e)
    ensures w in s.workers && OfCycle(s.workers[w], windowEnd, e)
    ensures var pc, after := s.workers[w].pc, Next(s, Advance(w, answers)).db;
      && (pc.Finish? || pc.Apply?) && SelectedRow(s.db, pc.snapshot, pc.proposal) && pc.snapshot.envelope == e
      && after == D.Apply(s.db, pc.proposal, answers.circuitClosed, pc.job.capturedAt).0
      && !NothingApplied(s.db, after)
  {
    var x, after := s.workers[w], Next(s, Advance(w, answers)).db;
    assert Informed(s.db, x.pc) && WorkerOnCycle(s.db, x);
    StepSound(s.db, x.pc, answers);
    if !OfCycle(x, windowEnd, e) { AppliesOnlyOwnCycle(s.db, windowEnd, e, x, answers); }
    if NothingApplied(s.db, after) { SameCycleApplied(s.db, after, windowEnd, e); }
    ApplyingStep(s.db, x.pc, answers);
  }

  lemma ApplyingStep(db: Db, pc: Pc, answers: Answers)
    requires Informed(db, pc)
    ensures NothingApplied(db, Step(db, pc, answers).0) ||
      ((pc.Finish? || pc.Apply?) && Step(db, pc, answers).0 == D.Apply(db, pc.proposal, answers.circuitClosed, pc.job.capturedAt).0)
  {
    if Quiet(pc) {
      QuietStepAppliesNothing(db, pc, answers);
    } else if pc.SaveCandidates? {
      SavingAppliesNothing(db, pc.job, pc.snapshot);
    } else {
      AppliesOrNothing(db, pc, answers);
    }
  }

  /** A worker of the cycle that has yet to read the tip, with a look-up that found no selection or will not. */
  ghost predicate Reader(s: System, windowEnd: int, e: Envelope, w: nat) {
    w in s.workers && Reads(s.db, s.workers[w].pc) && OfCycle(s.workers[w], windowEnd, e)
  }

  /** RIGHT after an application, only such workers are not blocked. */
  lemma ApplicationBlocksAllButReaders(s: System, w: nat, answers: Answers, windowEnd: int, e: Envelope)
    requires SystemSound(s) && AllOnCycle(s)
    requires CycleApplied(Next(s, Advance(w, answers)).db, windowEnd, e) != CycleApplied(s.db, windowEnd, e)
    ensures var next := Next(s, Advance(w, answers));
      && CycleApplied(next.db, windowEnd, e) != {}
      && forall v :: v in next.workers && OfCycle(next.workers[v], windowEnd, e) && !Reader(next, windowEnd, e, v)
           ==> Blocked(next.db, next.workers[v].pc)
  {
    var next := Next(s, Advance(w, answers));
    ApplicationIsByItsCycle(s, w, answers, windowEnd, e);
    var x := s.workers[w];
    SelectedRestsOnSnapshot(s.db, x.pc.snapshot, x.pc.proposal);
    forall base, a | KnownBase(s.db, e, base, a) ensures Taken(next.db, e, base) {
      KnownBasesGetTaken(s.db, next.db, x.pc.proposal, answers.circuitClosed, x.pc.job.capturedAt, base, a);
    }
    AppliedGrew(s, w, answers, windowEnd, e);
    EventKeepsOnCycle(s, Advance(w, answers));
    forall v | v in next.workers && OfCycle(next.workers[v], windowEnd, e) && !Reader(next, windowEnd, e, v)
      ensures Blocked(next.db, next.workers[v].pc)
    {
      if v == w {
        AfterApplicationEnded(s.db, x.pc, answers);
      } else {
        assert Informed(s.db, s.workers[v].pc) && WorkerOnCycle(s.db, s.workers[v]);
        NotReadsBefore(s.db, next.db, x.pc.proposal, answers.circuitClosed, x.pc.job.capturedAt, s.workers[v].pc);
        BlockedOnceTaken(s.db, next.db, windowEnd, e, s.workers[v].pc);
      }
    }
  }

  /** An application selects nothing. */
  lemma NotReadsBefore(db: Db, after: Db, p: ProposalRef, closed: bool, at: int, pc: Pc)
    requires p in db.rows && StoreInvariant(db) && after == D.Apply(db, p, closed, at).0 && !Reads(after, pc)
    ensures !Reads(db, pc)
  {
    ApplyChangesOneRow(db, p, closed, at);
    if pc.ReadSelection? { assert SelectedOf(after.rows, pc.snapshot) <= SelectedOf(db.rows, pc.snapshot); }
  }

  lemma AppliedGrew(s: System, w: nat, answers: Answers, windowEnd: int, e: Envelope)
    requires SystemSound(s) && AllOnCycle(s)
    requires CycleApplied(Next(s, Advance(w, answers)).db, windowEnd, e) != CycleApplied(s.db, windowEnd, e)
    ensures CycleApplied(Next(s, Advance(w, answers)).db, windowEnd, e) != {}
  {
    var after := Next(s, Advance(w, answers)).db;
    EventKeepsOnCycle(s, Advance(w, answers));
    forall r | r in CycleApplied(s.db, windowEnd, e) ensures r in CycleApplied(after, windowEnd, e) {
      assert RowPersists(s.db.rows[r], after.rows[r]);
    }
  }

  lemma AfterApplicationEnded(db: Db, pc: Pc, answers: Answers)
    requires (pc.Finish? || pc.Apply?) && !NothingApplied(db, Step(db, pc, answers).0)
    ensures Ended(Step(db, pc, answers).1)
  {
  }

  // ---------- an allocation that leaves no room is never changed again ----------

  /** A unit could be moved from one cell to another within the bounds. */
  ghost predicate Movable(e: Envelope, a: Allocation, c: Cell, d: Cell) {
    && c != d && c in a && d in a && c in Bounds(e) && d in Bounds(e)
    && Bounds(e)[c].minimumUnits < a[c] && a[d] < Bounds(e)[d].maximumUnits
  }

  ghost predicate HasRoom(e: Envelope, a: Allocation) {
    exists c, d :: Movable(e, a, c, d)
  }

  ghost function CurrentOf(db: Db, e: Envelope): Allocation {
    match D.ResolveCurrent(db, e)
    case Success(current) => current.allocation
    case Failure(_) => map[]
  }

  lemma ShiftNeedsRoom(db: Db, s: SnapshotRef, p: ProposalRef)
    requires Genuine(db) && SelectedRow(db, s, p) && db.rows[p].candidate.deltaUnits == 1
    ensures HasRoom(s.envelope, db.rows[p].candidate.current)
  {
    var row := db.rows[p];
    var c := row.candidate;
    assert GenuineRow(db, row);
    KnownBaseIsValid(db, s.envelope, BaselineOf(s), s.current);
    C.GeneratedCandidatesAreValid(s, s.envelope, Scores(s.metrics), BaselineOf(s), s.current, c);
    var m :| C.LegalMove(s.envelope, s.current, Scores(s.metrics), m);
    var d, r :| d in Scores(s.metrics) && r in Scores(s.metrics) && C.Usable(s.current, d) && C.Usable(s.current, r)
      && C.Admissible(s.envelope, s.current, d, r);
    assert Movable(s.envelope, s.current, d.cell, r.cell);
  }

  lemma ApplyingNeedsRoom(db: Db, s: SnapshotRef, p: ProposalRef, closed: bool, at: int)
    requires Sound(db) && SelectedRow(db, s, p) && !HasRoom(s.envelope, CurrentOf(db, s.envelope))
    ensures NothingApplied(db, D.Apply(db, p, closed, at).0)
  {
    var row := db.rows[p];
    SelectedRestsOnSnapshot(db, s, p);
    if Executable(row) {
      RowIsDisciplined(db, p);
      ShiftNeedsRoom(db, s, p);
      StaleIsRejected(db, s, p, closed, at);
    }
  }

  lemma StaleIsRejected(db: Db, s: SnapshotRef, p: ProposalRef, closed: bool, at: int)
    requires StoreInvariant(db) && p in db.rows && Executable(db.rows[p]) && db.rows[p].envelope == s.envelope
    requires KnownBase(db, s.envelope, db.rows[p].candidate.baseline, db.rows[p].candidate.current)
    requires db.rows[p].candidate.current != CurrentOf(db, s.envelope)
    ensures NothingApplied(db, D.Apply(db, p, closed, at).0)
  {
    assert HasChain(db.rows, s.envelope);
    var chain :| IsChain(db.rows, s.envelope, chain);
    ApplyFollowsTheChain(db, p, at, chain);
    CurrentOfChain(db, s.envelope, chain);
    if !Fits(db.rows, db.rows[p], chain) { RejectionAppliesNothing(db, p, closed, at, chain); }
  }

  lemma RejectionAppliesNothing(db: Db, p: ProposalRef, closed: bool, at: int, chain: seq<ProposalRef>)
    requires p in db.rows && Executable(db.rows[p]) && IsChain(db.rows, db.rows[p].envelope, chain)
    requires !Fits(db.rows, db.rows[p], chain)
    ensures NothingApplied(db, D.Apply(db, p, closed, at).0)
  {
    ApplyFollowsTheChain(db, p, at, chain);
  }

  /** The envelope's applied proposals, its chain and its current allocation are the same. */
  lemma SameCurrent(before: Db, after: Db, e: Envelope, windowEnd: int)
    requires Sound(before) && Sound(after) && Persists(before, after)
    requires AppliedRefs(after.rows, e) == AppliedRefs(before.rows, e)
    ensures D.ResolveCurrent(after, e) == D.ResolveCurrent(before, e)
    ensures CycleApplied(after, windowEnd, e) == CycleApplied(before, windowEnd, e)
  {
    assert HasChain(before.rows, e);
    var chain :| IsChain(before.rows, e, chain);
    forall r | r in AppliedRefs(before.rows, e) ensures after.rows[r].candidate == before.rows[r].candidate {
      assert RowPersists(before.rows[r], after.rows[r]);
    }
    ChainFrame(before.rows, after.rows, e, chain);
    CurrentOfChain(before, e, chain);
    CurrentOfChain(after, e, chain);
    forall r ensures r in CycleApplied(after, windowEnd, e) <==> r in CycleApplied(before, windowEnd, e) {
      CycleAppliedHasEnvelope(before, windowEnd, e, r);
      CycleAppliedHasEnvelope(after, windowEnd, e, r);
      if r in before.rows { assert RowPersists(before.rows[r], after.rows[r]); }
    }
    if chain != [] { assert chain[|chain| - 1] in chain; }
  }

  lemma CycleAppliedHasEnvelope(db: Db, windowEnd: int, e: Envelope, r: ProposalRef)
    requires Sound(db)
    ensures r in CycleApplied(db, windowEnd, e) ==> r in AppliedRefs(db.rows, e)
  {
    if r in CycleApplied(db, windowEnd, e) { assert GenuineRow(db, db.rows[r]); }
  }

  lemma StuckStepAppliesNothing(db: Db, pc: Pc, answers: Answers, e: Envelope)
    requires Sound(db) && Informed(db, pc) && !HasRoom(e, CurrentOf(db, e))
    ensures AppliedRefs(Step(db, pc, answers).0.rows, e) == AppliedRefs(db.rows, e)
  {
    var after := Step(db, pc, answers).0;
    StepSound(db, pc, answers);
    ApplyingStep(db, pc, answers);
    if NothingApplied(db, after) {
      SameCycleApplied(db, after, 0, e);
    } else {
      SelectedRestsOnSnapshot(db, pc.snapshot, pc.proposal);
      if pc.snapshot.envelope == e {
        ApplyingNeedsRoom(db, pc.snapshot, pc.proposal, answers.circuitClosed, pc.job.capturedAt);
      } else {
        OtherEnvelopeUntouched(db, pc.proposal, answers.circuitClosed, pc.job.capturedAt, e);
      }
    }
  }

  lemma OtherEnvelopeUntouched(db: Db, p: ProposalRef, closed: bool, at: int, e: Envelope)
    requires StoreInvariant(db) && p in db.rows && db.rows[p].envelope != e
    ensures AppliedRefs(D.Apply(db, p, closed, at).0.rows, e) == AppliedRefs(db.rows, e)
  {
    ApplyChangesOneRow(db, p, closed, at);
  }

  lemma EventKeepsStuck(s: System, event: Event, windowEnd: int, e: Envelope)
    requires SystemSound(s) && !HasRoom(e, CurrentOf(s.db, e))
    ensures CurrentOf(Next(s, event).db, e) == CurrentOf(s.db, e)
    ensures CycleApplied(Next(s, event).db, windowEnd, e) == CycleApplied(s.db, windowEnd, e)
  {
    match event
    case Advance(w, answers) =>
      if w in s.workers {
        assert Informed(s.db, s.workers[w].pc);
        StepSound(s.db, s.workers[w].pc, answers);
        StuckStepAppliesNothing(s.db, s.workers[w].pc, answers, e);
        SameCurrent(s.db, Next(s, event).db, e, windowEnd);
      }
    case _ =>
  }

  /** Without room the envelope never sees another application. */
  lemma {:induction false} StuckForEver(events: seq<Event>, later: seq<Event>, windowEnd: int, e: Envelope)
    requires !HasRoom(e, CurrentOf(Execution(events).db, e))
    ensures CurrentOf(Execution(events + later).db, e) == CurrentOf(Execution(events).db, e)
    ensures CycleApplied(Execution(events + later).db, windowEnd, e) == CycleApplied(Execution(events).db, windowEnd, e)
  {
    if later == [] {
      assert events + later == events;
    } else {
      var init, last := later[..|later| - 1], later[|later| - 1];
      assert events + later == events + init + [last];
      StuckForEver(events, init, windowEnd, e);
      ExecutionStep(events + init, last);
      ExecutionSound(events + init);
      EventKeepsStuck(Execution(events + init), last, windowEnd, e);
    }
  }

  /** The necessary half: after an application, a further one of the cycle needs a worker that had then yet to read
      the tip, and room in the allocation. */
  lemma FurtherApplicationNeedsReader(events: seq<Event>, w: nat, answers: Answers, later: seq<Event>, windowEnd: int, e: Envelope)
    requires CycleApplied(Execution(events + [Advance(w, answers)]).db, windowEnd, e)
      != CycleApplied(Execution(events).db, windowEnd, e)
    requires CycleApplied(Execution(events + [Advance(w, answers)] + later).db, windowEnd, e)
      != CycleApplied(Execution(events + [Advance(w, answers)]).db, windowEnd, e)
    ensures exists v :: Reader(Execution(events + [Advance(w, answers)]), windowEnd, e, v)
    ensures HasRoom(e, CurrentOf(Execution(events + [Advance(w, answers)]).db, e))
  {
    var now := events + [Advance(w, answers)];
    ExecutionOnCycle(events);
    ExecutionStep(events, Advance(w, answers));
    ApplicationBlocksAllButReaders(Execution(events), w, answers, windowEnd, e);
    if forall v :: !Reader(Execution(now), windowEnd, e, v) {
      ClosedForEver(now, later, windowEnd, e);
    }
    if !HasRoom(e, CurrentOf(Execution(now).db, e)) {
      StuckForEver(now, later, windowEnd, e);
    }
  }
}
