/** The replay-safe store: one object whose two tables its calls update in place. */
module LearningStore {
  import opened Wrappers
  import opened LearningContracts
  import D = LearningDb
  import opened LearningDb

  class LearningStore {
    var snapshots: map<SnapshotRef, Snapshot>
    var rows: Rows

    ghost function Contents(): Db
      reads this
    {
      Db(snapshots, rows)
    }

    constructor ()
      ensures Contents() == EMPTY_DB
    {
      snapshots, rows := map[], map[];
    }

    method SaveSnapshot(s: Snapshot) returns (r: Result<bool, LearningError>)
      modifies this
      ensures (Contents(), r) == D.SaveSnapshot(old(Contents()), s)
    {
      var inserted := s.ref !in snapshots;
      if inserted {
        snapshots := snapshots[s.ref := s];
      }
      if snapshots[s.ref].facts != s.facts {
        return Failure(Conflict);
      }
      r := Success(!inserted);
    }

    method SaveCandidates(cs: seq<Candidate>, e: Envelope, at: int) returns (r: Result<(), LearningError>)
      modifies this`rows
      ensures (Contents(), r) == D.SaveCandidates(old(Contents()), cs, e, at)
    {
      var begin := rows;
      ghost var db := Contents();
      for i := 0 to |cs|
        invariant begin == db.rows && snapshots == db.snapshots
        invariant InsertAll(db, cs[..i], e, at) == Success(rows)
      {
        var c := cs[i];
        assert cs[..i + 1][..i] == cs[..i];
        if c.ref !in rows {
          if c.snapshot !in snapshots {
            InsertFails(db, cs, i + 1, e, at);
            rows := begin;
            return Failure(IntegrityViolation);
          }
          rows := rows[c.ref := NewRow(c, e, at)];
        }
        if !ExactReplay(rows[c.ref], c, e, at) {
          InsertFails(db, cs, i + 1, e, at);
          rows := begin;
          return Failure(Conflict);
        }
      }
      assert cs[..|cs|] == cs;
      r := Success(());
    }

    method RecordSelection(ref: ProposalRef, s: Selection, at: int) returns (r: Result<ProposalRef, LearningError>)
      modifies this`rows
      ensures (Contents(), r) == D.RecordSelection(old(Contents()), ref, s, at)
    {
      if s.source !in SOURCES { return Failure(InvalidArgument); }
      if ref !in rows { return Failure(UnknownProposal); }
      if rows[ref].selection.Some? {
        if rows[ref].selection != Some(s) { return Failure(Conflict); }
        return Success(ref);
      }
      var winners := SelectedOf(rows, rows[ref].candidate.snapshot);
      if |winners| > 1 { return Failure(MultipleRows); }
      if winners != {} {
        var winner :| winner in winners;
        assert winner == Only(winners);
        return Success(winner);
      }
      rows := rows[ref := rows[ref].(selection := Some(s), decidedAt := Some(at))];
      r := Success(ref);
    }

    /** The read half of the policy record. */
    method ReadPolicy(ref: ProposalRef, p: Policy, state: ProposalState, at: int) returns (r: Result<bool, LearningError>)
      ensures r == D.ReadPolicy(Contents(), ref, p, state, at)
    {
      if !PolicyState(state) { return Failure(InvalidArgument); }
      if ref !in rows { return Failure(UnknownProposal); }
      var row := rows[ref];
      if row.policy.Some? {
        if row.policy != Some(p) || row.state != state || row.decidedAt != Some(at) { return Failure(Conflict); }
        return Success(true);
      }
      r := Success(false);
    }

    /** The write half, guarded by the state and nothing else. */
    method WritePolicy(ref: ProposalRef, p: Policy, state: ProposalState, at: int)
      modifies this`rows
      ensures Contents() == D.WritePolicy(old(Contents()), ref, p, state, at)
    {
      if ref in rows && rows[ref].state == PROPOSED {
        rows := rows[ref := rows[ref].(policy := Some(p), state := state, decidedAt := Some(at))];
      }
    }

    method AppliedChainTip(e: Envelope) returns (r: Result<Option<ProposalRef>, LearningError>)
      ensures r == Walk(rows, e, None, {})
    {
      var authority := Initial(e);
      var tip: Option<ProposalRef> := None;
      var visited: set<ProposalRef> := {};
      while true
        invariant authority == AuthorityOf(e, tip)
        invariant Walk(rows, e, None, {}) == Walk(rows, e, tip, visited)
        invariant visited <= rows.Keys
        decreases rows.Keys - visited
      {
        var next := Successors(rows, e, authority);
        if |next| > 1 { return Failure(MultipleRows); }
        if next == {} { return Success(tip); }
        var successor :| successor in next;
        assert successor == Only(next);
        if successor in visited { return Failure(AuthorityCycle); }
        visited, tip, authority := visited + {successor}, Some(successor), Applied(successor);
      }
    }

    method CurrentFrom(e: Envelope, initial: Allocation) returns (r: Result<Current, LearningError>)
      ensures r == D.CurrentFrom(rows, e, initial)
    {
      var walk := AppliedChainTip(e);
      match walk {
        case Failure(error) => r := Failure(error);
        case Success(None) => r := Success(Current(Initial(e), initial));
        case Success(Some(tip)) =>
          r := if tip in rows then Success(Current(Applied(tip), rows[tip].candidate.proposed))
               else Failure(UnknownProposal);
      }
    }

    method ResolveCurrent(e: Envelope) returns (r: Result<Current, LearningError>)
      ensures r == D.ResolveCurrent(Contents(), e)
    {
      r := CurrentFrom(e, InitialAllocation(e));
    }

    method Apply(ref: ProposalRef, circuitClosed: bool, at: int) returns (r: Result<ApplyOutcome, LearningError>)
      modifies this`rows
      ensures (Contents(), r) == D.Apply(old(Contents()), ref, circuitClosed, at)
    {
      if ref !in rows { return Failure(UnknownProposal); }
      var row := rows[ref];
      if row.state == APPLIED { return Success(ApplyOutcome(false, true)); }
      if !Executable(row) { return Failure(Conflict); }
      if !circuitClosed { return Failure(CircuitOpen); }
      var found := CurrentFrom(row.envelope, row.candidate.current);
      if found.Failure? { return Failure(found.error); }
      var current := found.value;
      if current.authority != row.candidate.baseline || current.allocation != row.candidate.current {
        rows := rows[ref := RejectedRow(row, at)];
        return Success(ApplyOutcome(false, false));
      }
      if !SuccessorIndexAllows(rows, row) { return Failure(IntegrityViolation); }
      rows := rows[ref := AppliedRow(row, at)];
      r := Success(ApplyOutcome(true, false));
    }

    method ExistingCycle(windowEnd: int, e: Envelope) returns (r: Result<Option<Cycle>, LearningError>)
      ensures r == D.ExistingCycle(Contents(), windowEnd, e)
    {
      var found := CycleSnapshots(Db(snapshots, rows), windowEnd, e);
      if |found| > 1 { return Failure(MultipleRows); }
      if found == {} { return Success(None); }
      var s :| s in found;
      assert s == Only(found);
      var selected := SelectedOf(rows, s);
      if |selected| > 1 { return Failure(MultipleRows); }
      if selected == {} { return Success(Some(Cycle(s, None))); }
      var p :| p in selected;
      assert p == Only(selected);
      r := Success(Some(Cycle(s, Some(p))));
    }
  }

  /** A batch fails as soon as one of its prefixes does. */
  lemma {:induction false} InsertFails(db: Db, cs: seq<Candidate>, n: nat, e: Envelope, at: int)
    requires n <= |cs| && InsertAll(db, cs[..n], e, at).Failure?
    ensures InsertAll(db, cs, e, at) == InsertAll(db, cs[..n], e, at)
    decreases |cs| - n
  {
    if n < |cs| {
      assert cs[..n + 1][..n] == cs[..n];
      InsertFails(db, cs, n + 1, e, at);
    } else {
      assert cs[..n] == cs;
    }
  }
}
