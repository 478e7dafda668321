/** Which reports are repeated for ever: the condition at the time of the report for every continuation of the run. */
module CycleFutures {
  import opened Wrappers
  import opened LearningContracts
  import D = LearningDb
  import opened LearningDb
  import opened AuthorityChain
  import opened LearningWorker
  import opened LearningRuns
  import opened CycleReplay
  import opened CycleReports
  import opened CycleRaces
  import opened CycleScenarios

  /** The worker stands between its look-up and saving a snapshot. */
  ghost predicate MaySave(db: Db, pc: Pc) {
    Reads(db, pc) || pc.SaveSnapshot?
  }

  ghost predicate NoneMaySave(s: System, windowEnd: int, e: Envelope) {
    forall w :: w in s.workers && OfCycle(s.workers[w], windowEnd, e) ==> !MaySave(s.db, s.workers[w].pc)
  }

  /** The cycle has this one snapshot, with a selection, and no worker is on its way to another. */
  ghost predicate Sealed(s: System, windowEnd: int, e: Envelope, snapshot: SnapshotRef) {
    && CycleSnapshots(s.db, windowEnd, e) == {snapshot} && SelectedOf(s.db.rows, snapshot) != {}
    && NoneMaySave(s, windowEnd, e)
  }

  // ---------- a sealed cycle stays sealed ----------

  lemma SavingCandidatesKeepsSnapshots(db: Db, job: Job, s: SnapshotRef)
    ensures SaveCandidatesStep(db, job, s).0.snapshots == db.snapshots
  {
  }

  lemma SelectingKeepsSnapshots(db: Db, job: Job, s: SnapshotRef, cs: seq<Candidate>, answers: Answers)
    ensures SelectStep(db, job, s, cs, answers).0.snapshots == db.snapshots
  {
    var p := answers.selection.proposal;
    RecordingKeepsSnapshots(db, p, Selection(SourceOf(p), answers.selection.confidence, answers.selection.reasons), job.capturedAt);
  }

  lemma RecordingKeepsSnapshots(db: Db, p: ProposalRef, s: Selection, at: int)
    ensures D.RecordSelection(db, p, s, at).0.snapshots == db.snapshots
  {
  }

  lemma OnlySavingAddsSnapshots(db: Db, pc: Pc, answers: Answers)
    requires Sound(db) && Informed(db, pc) && !pc.SaveSnapshot?
    ensures Step(db, pc, answers).0.snapshots == db.snapshots
  {
    if pc.SaveCandidates? {
      SavingCandidatesKeepsSnapshots(db, pc.job, pc.snapshot);
    } else if pc.Select? {
      SelectingKeepsSnapshots(db, pc.job, pc.snapshot, pc.candidates, answers);
    } else if pc.Finish? || pc.Apply? {
      AppliesOrNothing(db, pc, answers);
      ApplyChangesOneRow(db, pc.proposal, answers.circuitClosed, pc.job.capturedAt);
    }
  }

  lemma SavesInOwnCycle(db: Db, job: Job, current: Current, answers: Answers, windowEnd: int, e: Envelope)
    requires GenuineSnapshots(db) && (job.windowEnd != windowEnd || job.envelope != e)
    ensures var after := SaveSnapshotStep(db, job, current, answers).0;
      CycleSnapshots(after, windowEnd, e) == CycleSnapshots(db, windowEnd, e)
  {
  }

  lemma StepKeepsSealed(s: System, w: nat, answers: Answers, windowEnd: int, e: Envelope, snapshot: SnapshotRef)
    requires SystemSound(s) && AllOnCycle(s) && Sealed(s, windowEnd, e, snapshot) && w in s.workers
    ensures var (after, next) := Step(s.db, s.workers[w].pc, answers);
      && CycleSnapshots(after, windowEnd, e) == {snapshot} && Persists(s.db, after)
      && (OfCycle(s.workers[w], windowEnd, e) ==> !MaySave(after, next))
  {
    var x := s.workers[w];
    var (after, next) := Step(s.db, x.pc, answers);
    assert Informed(s.db, x.pc) && WorkerOnCycle(s.db, x);
    StepSound(s.db, x.pc, answers);
    if x.pc.SaveSnapshot? {
      SavesInOwnCycle(s.db, x.pc.job, x.pc.current, answers, windowEnd, e);
    } else {
      OnlySavingAddsSnapshots(s.db, x.pc, answers);
    }
    if OfCycle(x, windowEnd, e) {
      NeverSavesAgain(s.db, x.pc, answers, windowEnd, e, snapshot, next);
      StaysUnableToSave(s.db, after, next);
    }
  }

  /** From saving candidates on, no step leads back before the snapshot. */
  lemma PastSavingStaysPast(db: Db, pc: Pc, answers: Answers)
    requires Remaining(pc) <= 5
    ensures Remaining(Step(db, pc, answers).1) <= 5
  {
    if !Ended(pc) { StepsRunOut(db, pc, answers); }
  }

  lemma FindsTheSnapshot(db: Db, job: Job, s: SnapshotRef)
    requires CycleSnapshots(db, job.windowEnd, job.envelope) == {s}
    ensures LookUpStep(db, job) == ReadSelection(job, s)
  {
    OneOfMany(CycleSnapshots(db, job.windowEnd, job.envelope), s);
  }

  lemma FindsItsSelection(db: Db, job: Job, s: SnapshotRef)
    requires SelectedOf(db.rows, s) != {}
    ensures !MaySave(db, ReadSelectionStep(db, job, s))
  {
  }

  lemma LookUpNeverSaves(db: Db, job: Job, answers: Answers, s: SnapshotRef)
    requires CycleSnapshots(db, job.windowEnd, job.envelope) == {s} && SelectedOf(db.rows, s) != {}
    ensures !MaySave(db, Step(db, LookUp(job), answers).1)
  {
    FindsTheSnapshot(db, job, s);
  }

  lemma ReadSelectionNeverSaves(db: Db, job: Job, answers: Answers, s: SnapshotRef)
    requires SelectedOf(db.rows, s) != {}
    ensures !MaySave(db, Step(db, ReadSelection(job, s), answers).1)
  {
    FindsItsSelection(db, job, s);
  }

  lemma NeverSavesAgain(db: Db, pc: Pc, answers: Answers, windowEnd: int, e: Envelope, snapshot: SnapshotRef, next: Pc)
    requires !MaySave(db, pc) && OnCycle(db, windowEnd, Some(e), pc) && next == Step(db, pc, answers).1
    requires CycleSnapshots(db, windowEnd, e) == {snapshot} && SelectedOf(db.rows, snapshot) != {}
    ensures !MaySave(db, next)
  {
    if pc.LookUp? {
      LookUpNeverSaves(db, pc.job, answers, snapshot);
    } else if pc.ReadSelection? {
      ReadSelectionNeverSaves(db, pc.job, answers, pc.snapshot);
    } else {
      PastSavingStaysPast(db, pc, answers);
    }
  }

  lemma StaysUnableToSave(before: Db, after: Db, pc: Pc)
    requires Persists(before, after) && !MaySave(before, pc)
    ensures !MaySave(after, pc)
  {
    if pc.ReadSelection? { SelectedForGood(before, after, pc.snapshot); }
  }

  lemma StepKeepsNoneSaving(s: System, w: nat, answers: Answers, windowEnd: int, e: Envelope, next: System)
    requires w in s.workers && next == Next(s, Advance(w, answers)) && Persists(s.db, next.db) && NoneMaySave(s, windowEnd, e)
    requires OfCycle(s.workers[w], windowEnd, e) ==> !MaySave(next.db, next.workers[w].pc)
    ensures NoneMaySave(next, windowEnd, e)
  {
    forall v | v in next.workers && OfCycle(next.workers[v], windowEnd, e) ensures !MaySave(next.db, next.workers[v].pc) {
      if v != w { StaysUnableToSave(s.db, next.db, s.workers[v].pc); }
    }
  }

  lemma EventKeepsSealed(s: System, event: Event, windowEnd: int, e: Envelope, snapshot: SnapshotRef)
    requires SystemSound(s) && AllOnCycle(s) && Sealed(s, windowEnd, e, snapshot)
    ensures Sealed(Next(s, event), windowEnd, e, snapshot)
  {
    match event
    case Advance(w, answers) =>
      if w in s.workers {
        StepKeepsSealed(s, w, answers, windowEnd, e, snapshot);
        SelectedForGood(s.db, Next(s, event).db, snapshot);
        StepKeepsNoneSaving(s, w, answers, windowEnd, e, Next(s, event));
      }
    case _ =>
  }

  lemma {:induction false} SealedForEver(events: seq<Event>, later: seq<Event>, windowEnd: int, e: Envelope, snapshot: SnapshotRef)
    requires Sealed(Execution(events), windowEnd, e, snapshot)
    ensures Sealed(Execution(events + later), windowEnd, e, snapshot)
  {
    if later == [] {
      assert events + later == events;
    } else {
      var init, last := later[..|later| - 1], later[|later| - 1];
      assert events + later == events + init + [last];
      SealedForEver(events, init, windowEnd, e, snapshot);
      ExecutionStep(events + init, last);
      ExecutionOnCycle(events + init);
      EventKeepsSealed(Execution(events + init), last, windowEnd, e, snapshot);
    }
  }

  // ---------- a worker that may save can save another snapshot ----------

  /** Any metrics will do; these make the snapshot a new one. */
  lemma SavesAnother(events: seq<Event>, w: nat, windowEnd: int, e: Envelope) returns (more: seq<Event>, s: SnapshotRef)
    requires w in Execution(events).workers && OfCycle(Execution(events).workers[w], windowEnd, e)
    requires Execution(events).workers[w].pc.SaveSnapshot?
    ensures s !in Execution(events).db.snapshots && s in CycleSnapshots(Execution(events + more).db, windowEnd, e)
  {
    var db, x := Execution(events).db, Execution(events).workers[w];
    var job, current := x.pc.job, x.pc.current;
    ExecutionOnCycle(events);
    assert Informed(db, x.pc) && WorkerOnCycle(db, x);
    KnownBaseIsValid(db, job.envelope, current.authority, current.allocation);
    var n := SomeSnapshotIsNew(db, job, current, LEFT, RIGHT);
    s := FactsOf(job, current, LEFT, RIGHT, n);
    var answers := NO_ANSWERS.(metrics := TwoMetrics(LEFT, RIGHT, n));
    more := [Advance(w, answers)];
    ExecutionStep(events, Advance(w, answers));
    assert Step(db, x.pc, answers).0 == db.(snapshots := db.snapshots[s := Snapshot(s, s, job.capturedAt)]);
  }

  lemma TipReaderSavesAnother(events: seq<Event>, w: nat, windowEnd: int, e: Envelope) returns (more: seq<Event>, s: SnapshotRef)
    requires TipReader(Execution(events), windowEnd, e, w)
    ensures s !in Execution(events).db.snapshots && s in CycleSnapshots(Execution(events + more).db, windowEnd, e)
  {
    ReaderHasJob(events, w, windowEnd, e);
    var read := [Advance(w, NO_ANSWERS)];
    ExecutionStep(events, read[0]);
    var rest;
    rest, s := SavesAnother(events + read, w, windowEnd, e);
    ExecutionAssociates(events, read, rest);
    more := read + rest;
  }

  lemma MaySaveAnother(events: seq<Event>, w: nat, windowEnd: int, e: Envelope) returns (more: seq<Event>, s: SnapshotRef)
    requires w in Execution(events).workers && OfCycle(Execution(events).workers[w], windowEnd, e)
    requires MaySave(Execution(events).db, Execution(events).workers[w].pc)
    ensures s !in Execution(events).db.snapshots && s in CycleSnapshots(Execution(events + more).db, windowEnd, e)
  {
    if Execution(events).workers[w].pc.SaveSnapshot? {
      more, s := SavesAnother(events, w, windowEnd, e);
    } else {
      var first := ReaderComesToTip(events, w, windowEnd, e);
      var second;
      second, s := TipReaderSavesAnother(events + first, w, windowEnd, e);
      ExecutionAssociates(events, first, second);
      more := first + second;
    }
  }

  // ---------- for every continuation ----------

  /** Running the cycle again after these later events returns the report and changes nothing. */
  ghost predicate Replays(events: seq<Event>, later: seq<Event>, x: Worker, at: int, answers: Answers) {
    var end := Execution(events + later).db;
    RunToEnd(end, Begin(x.windowEnd, at, x.envelope), answers) == (end, x.pc)
  }

  lemma SealedReplays(events: seq<Event>, later: seq<Event>, w: nat, at: int, answers: Answers)
    requires w in Execution(events).workers && Execution(events).workers[w].pc.Returned?
    requires FinalStatus(Execution(events).workers[w].pc.result.status)
    requires Execution(events).workers[w].windowEnd <= at && Execution(events).workers[w].envelope.Some?
    requires var e := Execution(events).workers[w].envelope.value; e.validFrom <= at < e.validUntil
    requires Execution(events).workers[w].pc.result.snapshot.Some?
    requires var x := Execution(events).workers[w];
      && Sealed(Execution(events), x.windowEnd, x.envelope.value, x.pc.result.snapshot.value)
      && (PolicyReport(x.pc.result.status) ==> Stands(Execution(events).db, x.pc.result))
    ensures Replays(events, later, Execution(events).workers[w], at, answers)
  {
    var s, x := Execution(events), Execution(events).workers[w];
    SealedForEver(events, later, x.windowEnd, x.envelope.value, x.pc.result.snapshot.value);
    ReportsReplayIff(events, later, w, at, answers);
    if PolicyReport(x.pc.result.status) {
      ExecutionPersists(events, later);
      ExecutionOnCycle(events);
      assert Informed(s.db, x.pc);
      StandsForEver(s.db, Execution(events + later).db, x.pc.result);
    }
  }

  lemma AnotherSnapshotEndsReplay(events: seq<Event>, w: nat, v: nat, at: int, answers: Answers) returns (more: seq<Event>)
    requires w in Execution(events).workers && Execution(events).workers[w].pc.Returned?
    requires FinalStatus(Execution(events).workers[w].pc.result.status)
    requires Execution(events).workers[w].windowEnd <= at && Execution(events).workers[w].envelope.Some?
    requires var e := Execution(events).workers[w].envelope.value; e.validFrom <= at < e.validUntil
    requires v in Execution(events).workers && MaySave(Execution(events).db, Execution(events).workers[v].pc)
    requires var x := Execution(events).workers[w]; OfCycle(Execution(events).workers[v], x.windowEnd, x.envelope.value)
    ensures !Replays(events, more, Execution(events).workers[w], at, answers)
  {
    var x := Execution(events).workers[w];
    ReportInRun(events, [], w);
    assert events + [] == events;
    assert x.pc.result.snapshot.value in Execution(events).db.snapshots;
    var s;
    more, s := MaySaveAnother(events, v, x.windowEnd, x.envelope.value);
    ReportsReplayIff(events, more, w, at, answers);
  }

  /** At the time of a final report: every later run of the cycle, whatever happens before it, returns that report
      and changes nothing, if and only if the cycle has a single snapshot, no worker of it stands between its
      look-up and saving a snapshot, and a SHADOW_ONLY or POLICY_DENIED report stands. */
  lemma ReportsReplayForEverIff(events: seq<Event>, w: nat, at: int, answers: Answers)
    requires w in Execution(events).workers && Execution(events).workers[w].pc.Returned?
    requires FinalStatus(Execution(events).workers[w].pc.result.status)
    requires Execution(events).workers[w].windowEnd <= at && Execution(events).workers[w].envelope.Some?
    requires var e := Execution(events).workers[w].envelope.value; e.validFrom <= at < e.validUntil
    ensures var s, x := Execution(events), Execution(events).workers[w];
      && x.pc.result.snapshot.Some?
      && ((forall later: seq<Event> :: Replays(events, later, x, at, answers))
          <==> CycleSnapshots(s.db, x.windowEnd, x.envelope.value) == {x.pc.result.snapshot.value}
               && NoneMaySave(s, x.windowEnd, x.envelope.value)
               && (PolicyReport(x.pc.result.status) ==> Stands(s.db, x.pc.result)))
  {
    var s, x := Execution(events), Execution(events).workers[w];
    var e := x.envelope.value;
    ReportInRun(events, [], w);
    assert events + [] == events;
    var snapshot := x.pc.result.snapshot.value;
    assert x.pc.result.proposal.value in SelectedOf(s.db.rows, snapshot);
    if CycleSnapshots(s.db, x.windowEnd, e) == {snapshot} && NoneMaySave(s, x.windowEnd, e)
      && (PolicyReport(x.pc.result.status) ==> Stands(s.db, x.pc.result))
    {
      forall later: seq<Event> ensures Replays(events, later, x, at, answers) {
        SealedReplays(events, later, w, at, answers);
      }
    }
    if forall later: seq<Event> :: Replays(events, later, x, at, answers) {
      assert Replays(events, [], x, at, answers);
      ReportsReplayIff(events, [], w, at, answers);
      if v :| v in s.workers && OfCycle(s.workers[v], x.windowEnd, e) && MaySave(s.db, s.workers[v].pc) {
        var more := AnotherSnapshotEndsReplay(events, w, v, at, answers);
        assert false;
      }
    }
  }
}
