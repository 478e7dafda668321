/** What single store calls accept, said by the stored columns alone, and how one call answers for another. */
module StoreMeaning {
  import opened Wrappers
  import opened LearningContracts
  import D = LearningDb
  import opened LearningDb
  import opened AuthorityChain

  // ---------- snapshots ----------

  /** The first snapshot stored under a reference stays for good; saving under that reference again changes nothing,
      and succeeds if and only if every fact that carries authority is the stored one, whatever the capture time. */
  lemma FirstSnapshotWins(calls: seq<StoreCall>, later: seq<StoreCall>, ref: SnapshotRef, s: Snapshot)
    requires ref in AfterAll(EMPTY_DB, calls).snapshots && s.ref == ref
    ensures var db, end := AfterAll(EMPTY_DB, calls), AfterAll(AfterAll(EMPTY_DB, calls), later);
      && ref in end.snapshots && end.snapshots[ref] == db.snapshots[ref]
      && D.SaveSnapshot(end, s).0 == end
      && (D.SaveSnapshot(end, s).1 == Success(true) <==> s.facts == db.snapshots[ref].facts)
      && (D.SaveSnapshot(end, s).1 == Failure(Conflict) <==> s.facts != db.snapshots[ref].facts)
  {
    EmptyDbKeepsInvariant();
    RunKeepsInvariant(EMPTY_DB, calls);
    RunKeepsInvariant(AfterAll(EMPTY_DB, calls), later);
  }

  lemma NewSnapshotIsStored(db: Db, s: Snapshot)
    requires s.ref !in db.snapshots
    ensures var (after, r) := D.SaveSnapshot(db, s);
      r == Success(false) && after.rows == db.rows && after.snapshots == db.snapshots[s.ref := s]
  {
  }

  // ---------- candidates ----------

  /** The stored row is as the candidate was inserted: every column it came with, at the same time, and undecided. */
  ghost predicate AsInserted(row: Row, c: Candidate, e: Envelope, at: int) {
    row.candidate == c && row.envelope == e && row.createdAt == at && row.state == PROPOSED
  }

  ghost predicate Insertable(db: Db, c: Candidate, e: Envelope, at: int) {
    if c.ref in db.rows then AsInserted(db.rows[c.ref], c, e, at) else c.snapshot in db.snapshots
  }

  ghost predicate DistinctRefs(cs: seq<Candidate>) {
    forall i, j :: 0 <= i < j < |cs| ==> cs[i].ref != cs[j].ref
  }

  /** Saving is all or nothing: it succeeds if and only if every candidate is stored as it would be inserted, or is new
      and its snapshot is stored; then exactly the new ones are added, undecided, and otherwise nothing changes. */
  lemma {:induction false} SavingIsAllOrNothing(db: Db, cs: seq<Candidate>, e: Envelope, at: int)
    requires DistinctRefs(cs)
    ensures var (after, r) := D.SaveCandidates(db, cs, e, at);
      && (r.Success? <==> forall c :: c in cs ==> Insertable(db, c, e, at))
      && (r.Failure? ==> after == db)
      && (r.Success? ==> Inserted(db, cs, e, at, after))
  {
    if cs != [] {
      var init, c := cs[..|cs| - 1], cs[|cs| - 1];
      SavingIsAllOrNothing(db, init, e, at);
      assert cs == init + [c];
      NewRef(init, c);
      if InsertAll(db, init, e, at).Success? { LastInserted(db, init, c, e, at); }
    }
  }

  lemma NewRef(init: seq<Candidate>, c: Candidate)
    requires DistinctRefs(init + [c])
    ensures forall x :: x in init ==> x.ref != c.ref
  {
    forall x | x in init ensures x.ref != c.ref {
      var i :| 0 <= i < |init| && init[i] == x;
      assert (init + [c])[i] == x && (init + [c])[|init|] == c;
    }
  }

  /** Old rows are as they were, and every other row is one of the candidates, fresh. */
  ghost predicate Inserted(db: Db, cs: seq<Candidate>, e: Envelope, at: int, after: Db) {
    && after.snapshots == db.snapshots
    && (forall r :: r in db.rows ==> r in after.rows && after.rows[r] == db.rows[r])
    && (forall c :: c in cs ==> c.ref in after.rows && AsInserted(after.rows[c.ref], c, e, at))
    && (forall r :: r in after.rows && r !in db.rows ==> Fresh(after.rows[r]) && exists c :: c in cs && c.ref == r)
  }

  ghost predicate Fresh(row: Row) {
    row.selection == None && row.policy == None && row.decidedAt == None && row.appliedAt == None && row.decisionReason == None
  }

  lemma LastInserted(db: Db, init: seq<Candidate>, c: Candidate, e: Envelope, at: int)
    requires InsertAll(db, init, e, at).Success? && Inserted(db, init, e, at, db.(rows := InsertAll(db, init, e, at).value))
    requires forall x :: x in init ==> x.ref != c.ref
    ensures var rows := InsertAll(db, init, e, at).value;
      && (InsertOne(db, rows, c, e, at).Success? <==> Insertable(db, c, e, at))
      && (InsertOne(db, rows, c, e, at).Success? ==>
            Inserted(db, init + [c], e, at, db.(rows := InsertOne(db, rows, c, e, at).value)))
  {
    var rows := InsertAll(db, init, e, at).value;
    assert c.ref in rows <==> c.ref in db.rows;
    if InsertOne(db, rows, c, e, at).Success? {
      if c.ref in rows {
        KnownInserted(db, init, c, e, at, rows);
      } else {
        FreshInserted(db, init, c, e, at, rows);
      }
    }
  }

  lemma KnownInserted(db: Db, init: seq<Candidate>, c: Candidate, e: Envelope, at: int, rows: Rows)
    requires Inserted(db, init, e, at, db.(rows := rows)) && c.ref in rows && AsInserted(rows[c.ref], c, e, at)
    ensures Inserted(db, init + [c], e, at, db.(rows := rows))
  {
    assert forall x :: x in init + [c] <==> x in init || x == c;
  }

  lemma FreshInserted(db: Db, init: seq<Candidate>, c: Candidate, e: Envelope, at: int, rows: Rows)
    requires Inserted(db, init, e, at, db.(rows := rows)) && c.ref !in rows
    ensures Inserted(db, init + [c], e, at, db.(rows := rows[c.ref := NewRow(c, e, at)]))
  {
    var more := rows[c.ref := NewRow(c, e, at)];
    assert forall x :: x in init + [c] <==> x in init || x == c;
    forall r | r in more && r !in db.rows ensures Fresh(more[r]) && exists x :: x in init + [c] && x.ref == r {
      if r != c.ref {
        var x :| x in init && x.ref == r;
        assert x in init + [c];
      } else {
        assert c in init + [c];
      }
    }
  }

  // ---------- selections ----------

  /** Only the two known sources may select; any other is refused and changes nothing. */
  lemma UnknownSourceIsRefused(db: Db, ref: ProposalRef, s: Selection, at: int)
    ensures s.source != "KIVOU_NO_CHANGE" && s.source != "HERMES" <==>
      D.RecordSelection(db, ref, s, at).1 == Failure(InvalidArgument)
    ensures D.RecordSelection(db, ref, s, at).1 == Failure(InvalidArgument) ==> D.RecordSelection(db, ref, s, at).0 == db
  {
  }

  // ---------- policies ----------

  /** A policy that was written is replayed by the same record, and by that alone: any other decision, state or time
      conflicts. */
  lemma PolicyReplayIsExact(db: Db, ref: ProposalRef, p: Policy, state: ProposalState, at: int,
                            q: Policy, other: ProposalState, later: int)
    requires ref in db.rows && db.rows[ref].state == PROPOSED && PolicyState(other)
    ensures var after := D.WritePolicy(db, ref, p, state, at);
      D.ReadPolicy(after, ref, q, other, later)
        == if q == p && other == state && later == at then Success(true) else Failure(Conflict)
  {
  }

  /** What the read does before anything was written: a missing proposal and a state that is no policy's are refused,
      and otherwise the write follows. */
  lemma FirstPolicyIsWritten(db: Db, ref: ProposalRef, p: Policy, state: ProposalState, at: int)
    requires ref in db.rows ==> db.rows[ref].policy == None
    ensures D.ReadPolicy(db, ref, p, state, at)
      == if state !in {PROPOSED, SHADOW_ONLY, POLICY_DENIED} then Failure(InvalidArgument)
         else if ref in db.rows then Success(false) else Failure(UnknownProposal)
  {
  }
}
