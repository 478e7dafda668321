/** What every run of store calls keeps, whoever makes the calls and however they interleave. The calls
    are atomic except the policy record, whose write may come any time after its read. */
module AuthorityChain {
  import opened Wrappers
  import opened Ordering
  import opened LearningContracts
  import D = LearningDb
  import opened LearningDb

  // ---------- the chain ----------

  ghost function AuthorityAt(e: Envelope, chain: seq<ProposalRef>, i: nat): Authority
    requires i <= |chain|
  {
    if i == 0 then Initial(e) else Applied(chain[i - 1])
  }

  /** The applied proposal at a position rests on the one before it, and starts from what that one proposed. */
  ghost predicate LinkedAt(rows: Rows, e: Envelope, chain: seq<ProposalRef>, i: nat)
    requires i < |chain|
  {
    && chain[i] in rows
    && rows[chain[i]].candidate.baseline == AuthorityAt(e, chain, i)
    && (i > 0 ==> (chain[i - 1] in rows && rows[chain[i]].candidate.current == rows[chain[i - 1]].candidate.proposed))
  }

  /** `chain` lists every applied proposal of the envelope once, each linked to the one before it. */
  ghost predicate IsChain(rows: Rows, e: Envelope, chain: seq<ProposalRef>) {
    && NoDuplicates(chain)
    && (forall r :: r in chain <==> r in AppliedRefs(rows, e))
    && (forall i :: 0 <= i < |chain| ==> LinkedAt(rows, e, chain, i))
  }

  ghost predicate HasChain(rows: Rows, e: Envelope) {
    exists chain :: IsChain(rows, e, chain)
  }

  ghost function TipOf(chain: seq<ProposalRef>): Option<ProposalRef> {
    if chain == [] then None else Some(chain[|chain| - 1])
  }

  lemma SuccessorsOnChain(rows: Rows, e: Envelope, chain: seq<ProposalRef>, i: nat)
    requires IsChain(rows, e, chain) && i <= |chain|
    ensures Successors(rows, e, AuthorityAt(e, chain, i)) == if i < |chain| then {chain[i]} else {}
  {
    var next := Successors(rows, e, AuthorityAt(e, chain, i));
    forall r | r in next ensures i < |chain| && r == chain[i] {
      assert r in AppliedRefs(rows, e) && r in chain;
      var j :| 0 <= j < |chain| && chain[j] == r;
      assert LinkedAt(rows, e, chain, j);
      assert AuthorityAt(e, chain, i) == AuthorityAt(e, chain, j);
    }
    if i < |chain| {
      assert chain[i] in chain && chain[i] in AppliedRefs(rows, e);
      assert LinkedAt(rows, e, chain, i);
      assert chain[i] in next;
    }
  }

  ghost function Elements(s: seq<ProposalRef>): set<ProposalRef> {
    set r | r in s
  }

  lemma WalkStep(rows: Rows, e: Envelope, tip: Option<ProposalRef>, visited: set<ProposalRef>, r: ProposalRef)
    requires Successors(rows, e, AuthorityOf(e, tip)) == {r} && r !in visited
    ensures Walk(rows, e, tip, visited) == Walk(rows, e, Some(r), visited + {r})
  {
    assert r in {Only({r})};
  }

  lemma {:induction false} WalkFromPosition(rows: Rows, e: Envelope, chain: seq<ProposalRef>, i: nat)
    requires IsChain(rows, e, chain) && i <= |chain|
    ensures Walk(rows, e, TipOf(chain[..i]), Elements(chain[..i])) == Success(TipOf(chain))
    decreases |chain| - i
  {
    var tip := TipOf(chain[..i]);
    SuccessorsOnChain(rows, e, chain, i);
    assert AuthorityOf(e, tip) == AuthorityAt(e, chain, i);
    if i < |chain| {
      NextElement(chain, i);
      WalkStep(rows, e, tip, Elements(chain[..i]), chain[i]);
      WalkFromPosition(rows, e, chain, i + 1);
    } else {
      assert chain[..i] == chain;
    }
  }

  lemma NextElement(chain: seq<ProposalRef>, i: nat)
    requires i < |chain| && NoDuplicates(chain)
    ensures chain[i] !in Elements(chain[..i])
    ensures Elements(chain[..i]) + {chain[i]} == Elements(chain[..i + 1])
    ensures TipOf(chain[..i + 1]) == Some(chain[i])
  {
    assert chain[..i + 1] == chain[..i] + [chain[i]];
  }

  /** The walk visits the whole chain and stops at its end: it never meets a cycle nor two successors. */
  lemma WalkFindsTheTip(rows: Rows, e: Envelope, chain: seq<ProposalRef>)
    requires IsChain(rows, e, chain)
    ensures Walk(rows, e, None, {}) == Success(TipOf(chain))
  {
    WalkFromPosition(rows, e, chain, 0);
    assert Elements(chain[..0]) == {};
  }

  lemma ChainFrame(rows: Rows, after: Rows, e: Envelope, chain: seq<ProposalRef>)
    requires IsChain(rows, e, chain) && AppliedRefs(after, e) == AppliedRefs(rows, e)
    requires forall r :: r in AppliedRefs(rows, e) ==> after[r].candidate == rows[r].candidate
    ensures IsChain(after, e, chain)
  {
    forall i | 0 <= i < |chain| ensures LinkedAt(after, e, chain, i) {
      assert LinkedAt(rows, e, chain, i);
      assert chain[i] in chain && (i > 0 ==> chain[i - 1] in chain);
    }
  }

  lemma ChainGrows(rows: Rows, after: Rows, e: Envelope, chain: seq<ProposalRef>, r: ProposalRef)
    requires IsChain(rows, e, chain) && r !in AppliedRefs(rows, e) && r in after
    requires AppliedRefs(after, e) == AppliedRefs(rows, e) + {r}
    requires forall x :: x in AppliedRefs(rows, e) ==> after[x].candidate == rows[x].candidate
    requires after[r].candidate.baseline == AuthorityAt(e, chain, |chain|)
    requires chain != [] ==> chain[|chain| - 1] in rows && after[r].candidate.current == rows[chain[|chain| - 1]].candidate.proposed
    ensures IsChain(after, e, chain + [r])
  {
    var longer := chain + [r];
    forall i | 0 <= i < |longer| ensures LinkedAt(after, e, longer, i) {
      if i < |chain| {
        assert LinkedAt(rows, e, chain, i);
        assert chain[i] in chain && (i > 0 ==> chain[i - 1] in chain);
        assert AuthorityAt(e, longer, i) == AuthorityAt(e, chain, i);
      } else if chain != [] {
        assert chain[|chain| - 1] in chain;
      }
    }
    assert r !in chain;
  }

  // ---------- store calls and their runs ----------

  datatype StoreCall =
    | SaveSnapshot(snapshot: Snapshot)
    | SaveCandidates(candidates: seq<Candidate>, envelope: Envelope, at: int)
    | RecordSelection(ref: ProposalRef, selection: Selection, at: int)
    | WritePolicy(ref: ProposalRef, policy: Policy, state: ProposalState, at: int)
    | Apply(ref: ProposalRef, circuitClosed: bool, at: int)

  ghost function After(db: Db, call: StoreCall): Db {
    match call
    case SaveSnapshot(s) => D.SaveSnapshot(db, s).0
    case SaveCandidates(cs, e, at) => D.SaveCandidates(db, cs, e, at).0
    case RecordSelection(ref, s, at) => D.RecordSelection(db, ref, s, at).0
    case WritePolicy(ref, p, state, at) => if PolicyState(state) then D.WritePolicy(db, ref, p, state, at) else db
    case Apply(ref, closed, at) => D.Apply(db, ref, closed, at).0
  }

  ghost function AfterAll(db: Db, calls: seq<StoreCall>): Db {
    if calls == [] then db else After(AfterAll(db, calls[..|calls| - 1]), calls[|calls| - 1])
  }

  ghost predicate OneChainPerEnvelope(rows: Rows) {
    forall e: Envelope :: HasChain(rows, e)
  }

  ghost predicate OneSelectionPerSnapshot(rows: Rows) {
    forall a, b :: a in rows && b in rows ==>
      (rows[a].selection.Some? && rows[b].selection.Some? && rows[a].candidate.snapshot == rows[b].candidate.snapshot
       ==> a == b)
  }

  ghost predicate Approved(row: Row) {
    row.policy.Some? && row.policy.value.status == APPROVED
  }

  ghost predicate AppliedMeansApproved(rows: Rows) {
    forall r :: r in rows ==> (rows[r].state == APPLIED ==> Approved(rows[r]))
  }

  ghost predicate KeyedByRef(rows: Rows) {
    forall r :: r in rows ==> rows[r].candidate.ref == r
  }

  ghost predicate StoreInvariant(db: Db) {
    && KeyedByRef(db.rows)
    && AppliedMeansApproved(db.rows)
    && OneSelectionPerSnapshot(db.rows)
    && OneChainPerEnvelope(db.rows)
  }

  /** What no later call can undo. */
  ghost predicate RowPersists(before: Row, after: Row) {
    && after.candidate == before.candidate && after.envelope == before.envelope && after.createdAt == before.createdAt
    && (before.selection.Some? ==> after.selection == before.selection)
    && (before.state != PROPOSED ==>
        (after.state == before.state && after.policy == before.policy
         && after.decisionReason == before.decisionReason && after.appliedAt == before.appliedAt))
  }

  ghost predicate RowsPersist(before: Rows, after: Rows) {
    forall r :: r in before ==> r in after && RowPersists(before[r], after[r])
  }

  ghost predicate Persists(before: Db, after: Db) {
    && (forall s :: s in before.snapshots ==> s in after.snapshots && after.snapshots[s] == before.snapshots[s])
    && RowsPersist(before.rows, after.rows)
  }

  // ---------- one call ----------

  lemma RowUpdatePersists(rows: Rows, r: ProposalRef, row: Row)
    requires r in rows && RowPersists(rows[r], row)
    ensures RowsPersist(rows, rows[r := row])
  {
  }

  lemma ChainsUnaffected(rows: Rows, after: Rows)
    requires OneChainPerEnvelope(rows)
    requires forall e: Envelope :: AppliedRefs(after, e) == AppliedRefs(rows, e)
    requires forall r :: r in rows ==> r in after && after[r].candidate == rows[r].candidate
    ensures OneChainPerEnvelope(after)
  {
    forall e: Envelope ensures HasChain(after, e) {
      assert HasChain(rows, e);
      var chain :| IsChain(rows, e, chain);
      assert AppliedRefs(after, e) == AppliedRefs(rows, e);
      ChainFrame(rows, after, e, chain);
    }
  }

  lemma RowUpdateKeepsChains(rows: Rows, r: ProposalRef, row: Row)
    requires OneChainPerEnvelope(rows) && r in rows && RowPersists(rows[r], row)
    requires row.state == APPLIED ==> rows[r].state == APPLIED
    ensures OneChainPerEnvelope(rows[r := row])
  {
    forall e: Envelope ensures AppliedRefs(rows[r := row], e) == AppliedRefs(rows, e) {
    }
    ChainsUnaffected(rows, rows[r := row]);
  }

  /** A changed row keeps the claims about single rows and pairs of rows. */
  lemma RowUpdateKeepsClaims(rows: Rows, r: ProposalRef, row: Row)
    requires KeyedByRef(rows) && AppliedMeansApproved(rows) && OneSelectionPerSnapshot(rows)
    requires r in rows && RowPersists(rows[r], row) && (row.state == APPLIED ==> Approved(row))
    requires row.selection != rows[r].selection ==> SelectedOf(rows, row.candidate.snapshot) == {}
    ensures KeyedByRef(rows[r := row]) && AppliedMeansApproved(rows[r := row]) && OneSelectionPerSnapshot(rows[r := row])
  {
    if row.selection != rows[r].selection {
      NoWinnerMeansNoneSelected(rows, row.candidate.snapshot);
    }
  }

  lemma NoWinnerMeansNoneSelected(rows: Rows, snapshot: SnapshotRef)
    requires SelectedOf(rows, snapshot) == {}
    ensures forall r :: r in rows && rows[r].candidate.snapshot == snapshot ==> rows[r].selection == None
  {
    forall r | r in rows && rows[r].candidate.snapshot == snapshot ensures rows[r].selection == None {
      assert r !in SelectedOf(rows, snapshot);
    }
  }

  ghost predicate RowsKept(rows: Rows, after: Rows) {
    forall r :: r in rows ==> r in after && after[r] == rows[r]
  }

  /** The row was inserted for one of these candidates, whose snapshot is stored. */
  ghost predicate NewFrom(db: Db, cs: seq<Candidate>, e: Envelope, at: int, r: ProposalRef, row: Row) {
    exists c :: c in cs && c.ref == r && c.snapshot in db.snapshots && row == NewRow(c, e, at)
  }

  ghost predicate AllReplayed(rows: Rows, cs: seq<Candidate>, e: Envelope, at: int) {
    forall c :: c in cs ==> c.ref in rows && ExactReplay(rows[c.ref], c, e, at)
  }

  lemma {:induction false} InsertedRows(db: Db, cs: seq<Candidate>, e: Envelope, at: int)
    requires InsertAll(db, cs, e, at).Success?
    ensures var rows := InsertAll(db, cs, e, at).value;
      && RowsKept(db.rows, rows) && AllReplayed(rows, cs, e, at)
      && forall r :: r in rows && r !in db.rows ==> NewFrom(db, cs, e, at, r, rows[r])
  {
    if cs != [] {
      var init, c := cs[..|cs| - 1], cs[|cs| - 1];
      var before, rows := InsertAll(db, init, e, at).value, InsertAll(db, cs, e, at).value;
      InsertedRows(db, init, e, at);
      assert cs == init + [c] && RowsKept(before, rows);
      forall x | x in cs ensures x.ref in rows && ExactReplay(rows[x.ref], x, e, at) {
        if x in init { assert x.ref in before; } else { assert x == c; }
      }
      forall r | r in rows && r !in db.rows ensures NewFrom(db, cs, e, at, r, rows[r]) {
        if r in before {
          assert NewFrom(db, init, e, at, r, before[r]);
        } else {
          assert c in cs;
        }
      }
    }
  }

  lemma SavedCandidatesKeepInvariant(db: Db, cs: seq<Candidate>, e: Envelope, at: int)
    requires StoreInvariant(db)
    ensures StoreInvariant(D.SaveCandidates(db, cs, e, at).0) && Persists(db, D.SaveCandidates(db, cs, e, at).0)
  {
    if InsertAll(db, cs, e, at).Success? {
      var rows := InsertAll(db, cs, e, at).value;
      InsertedRows(db, cs, e, at);
      NewRowsKeepClaims(db.rows, rows);
    }
  }

  lemma NewRowsKeepClaims(rows: Rows, after: Rows)
    requires StoreInvariant(Db(map[], rows))
    requires forall r :: r in rows ==> r in after && after[r] == rows[r]
    requires forall r :: r in after && r !in rows ==>
      after[r].candidate.ref == r && after[r].state == PROPOSED && after[r].selection == None
    ensures StoreInvariant(Db(map[], after)) && RowsPersist(rows, after)
  {
    forall e: Envelope ensures AppliedRefs(after, e) == AppliedRefs(rows, e) {
    }
    ChainsUnaffected(rows, after);
  }

  lemma RecordedSelectionKeepsInvariant(db: Db, ref: ProposalRef, s: Selection, at: int)
    requires StoreInvariant(db)
    ensures StoreInvariant(D.RecordSelection(db, ref, s, at).0) && Persists(db, D.RecordSelection(db, ref, s, at).0)
  {
    var after := D.RecordSelection(db, ref, s, at).0;
    if after != db {
      var row := after.rows[ref];
      RowUpdatePersists(db.rows, ref, row);
      RowUpdateKeepsClaims(db.rows, ref, row);
      RowUpdateKeepsChains(db.rows, ref, row);
    }
  }

  lemma WrittenPolicyKeepsInvariant(db: Db, ref: ProposalRef, p: Policy, state: ProposalState, at: int)
    requires StoreInvariant(db) && PolicyState(state)
    ensures var after := D.WritePolicy(db, ref, p, state, at); StoreInvariant(after) && Persists(db, after)
  {
    if ref in db.rows && db.rows[ref].state == PROPOSED {
      var row := D.WritePolicy(db, ref, p, state, at).rows[ref];
      RowUpdatePersists(db.rows, ref, row);
      RowUpdateKeepsClaims(db.rows, ref, row);
      RowUpdateKeepsChains(db.rows, ref, row);
    }
  }

  /** The proposal rests on the end of the chain and starts from what that end proposed. */
  ghost predicate Fits(rows: Rows, row: Row, chain: seq<ProposalRef>) {
    && row.candidate.baseline == AuthorityAt(row.envelope, chain, |chain|)
    && (chain != [] ==>
        (chain[|chain| - 1] in rows && row.candidate.current == rows[chain[|chain| - 1]].candidate.proposed))
  }

  /** Under the invariant the chain of the row's envelope decides, and no lookup fails. */
  lemma ApplyFollowsTheChain(db: Db, ref: ProposalRef, at: int, chain: seq<ProposalRef>)
    requires ref in db.rows && Executable(db.rows[ref]) && IsChain(db.rows, db.rows[ref].envelope, chain)
    ensures var row := db.rows[ref];
      D.Apply(db, ref, true, at) ==
        if Fits(db.rows, row, chain)
        then (db.(rows := db.rows[ref := AppliedRow(row, at)]), Success(ApplyOutcome(true, false)))
        else (db.(rows := db.rows[ref := RejectedRow(row, at)]), Success(ApplyOutcome(false, false)))
  {
    var e := db.rows[ref].envelope;
    WalkFindsTheTip(db.rows, e, chain);
    SuccessorsOnChain(db.rows, e, chain, |chain|);
    if chain != [] {
      assert LinkedAt(db.rows, e, chain, |chain| - 1);
    }
  }

  lemma AppliedRowExtendsChain(db: Db, ref: ProposalRef, at: int, chain: seq<ProposalRef>)
    requires OneChainPerEnvelope(db.rows) && ref in db.rows && Executable(db.rows[ref])
    requires IsChain(db.rows, db.rows[ref].envelope, chain) && Fits(db.rows, db.rows[ref], chain)
    ensures IsChain(db.rows[ref := AppliedRow(db.rows[ref], at)], db.rows[ref].envelope, chain + [ref])
    ensures OneChainPerEnvelope(db.rows[ref := AppliedRow(db.rows[ref], at)])
  {
    var row := db.rows[ref];
    var rows := db.rows[ref := AppliedRow(row, at)];
    assert AppliedRefs(rows, row.envelope) == AppliedRefs(db.rows, row.envelope) + {ref};
    ChainGrows(db.rows, rows, row.envelope, chain, ref);
    forall e: Envelope ensures HasChain(rows, e) {
      if e == row.envelope {
        assert IsChain(rows, e, chain + [ref]);
      } else {
        assert HasChain(db.rows, e);
        var c :| IsChain(db.rows, e, c);
        assert AppliedRefs(rows, e) == AppliedRefs(db.rows, e);
        ChainFrame(db.rows, rows, e, c);
      }
    }
  }

  lemma AppliedKeepsInvariant(db: Db, ref: ProposalRef, closed: bool, at: int)
    requires StoreInvariant(db)
    ensures StoreInvariant(D.Apply(db, ref, closed, at).0) && Persists(db, D.Apply(db, ref, closed, at).0)
  {
    var after := D.Apply(db, ref, closed, at).0;
    if after != db {
      var row := db.rows[ref];
      assert HasChain(db.rows, row.envelope);
      var chain :| IsChain(db.rows, row.envelope, chain);
      ApplyFollowsTheChain(db, ref, at, chain);
      RowUpdatePersists(db.rows, ref, after.rows[ref]);
      RowUpdateKeepsClaims(db.rows, ref, after.rows[ref]);
      if Fits(db.rows, row, chain) {
        AppliedRowExtendsChain(db, ref, at, chain);
      } else {
        RowUpdateKeepsChains(db.rows, ref, after.rows[ref]);
      }
    }
  }

  lemma SavedSnapshotKeepsInvariant(db: Db, s: Snapshot)
    requires StoreInvariant(db)
    ensures StoreInvariant(D.SaveSnapshot(db, s).0) && Persists(db, D.SaveSnapshot(db, s).0)
  {
    assert D.SaveSnapshot(db, s).0.rows == db.rows;
    SameRowsPersist(db.rows);
  }

  lemma SameRowsPersist(rows: Rows)
    ensures RowsPersist(rows, rows)
  {
  }

  lemma CallKeepsInvariant(db: Db, call: StoreCall)
    requires StoreInvariant(db)
    ensures StoreInvariant(After(db, call)) && Persists(db, After(db, call))
  {
    match call
    case SaveSnapshot(s) => SavedSnapshotKeepsInvariant(db, s);
    case SaveCandidates(cs, e, at) => SavedCandidatesKeepInvariant(db, cs, e, at);
    case RecordSelection(ref, s, at) => RecordedSelectionKeepsInvariant(db, ref, s, at);
    case WritePolicy(ref, p, state, at) => if PolicyState(state) { WrittenPolicyKeepsInvariant(db, ref, p, state, at); }
    case Apply(ref, closed, at) => AppliedKeepsInvariant(db, ref, closed, at);
  }

  // ---------- every run ----------

  lemma EmptyDbKeepsInvariant()
    ensures StoreInvariant(EMPTY_DB)
  {
    forall e: Envelope ensures HasChain(EMPTY_DB.rows, e) {
      assert IsChain(EMPTY_DB.rows, e, []);
    }
  }

  lemma PersistsTransitive(a: Db, b: Db, c: Db)
    requires Persists(a, b) && Persists(b, c)
    ensures Persists(a, c)
  {
    forall r | r in a.rows ensures r in c.rows && RowPersists(a.rows[r], c.rows[r]) {
      assert RowPersists(a.rows[r], b.rows[r]) && RowPersists(b.rows[r], c.rows[r]);
    }
    assert RowsPersist(a.rows, c.rows);
  }

  lemma {:induction false} RunKeepsInvariant(db: Db, calls: seq<StoreCall>)
    requires StoreInvariant(db)
    ensures StoreInvariant(AfterAll(db, calls)) && Persists(db, AfterAll(db, calls))
  {
    if calls != [] {
      var before := AfterAll(db, calls[..|calls| - 1]);
      RunKeepsInvariant(db, calls[..|calls| - 1]);
      CallKeepsInvariant(before, calls[|calls| - 1]);
      PersistsTransitive(db, before, AfterAll(db, calls));
    }
  }

  /** In every reachable state the applied proposals of an envelope form one chain; the walk ends at its
      last element, and resolving the current allocation cannot fail. */
  lemma AppliedProposalsFormOneChain(calls: seq<StoreCall>, e: Envelope) returns (chain: seq<ProposalRef>)
    ensures var db := AfterAll(EMPTY_DB, calls);
      && IsChain(db.rows, e, chain)
      && Walk(db.rows, e, None, {}) == Success(TipOf(chain))
      && ResolveCurrent(db, e).Success?
  {
    var db := AfterAll(EMPTY_DB, calls);
    EmptyDbKeepsInvariant();
    RunKeepsInvariant(EMPTY_DB, calls);
    assert HasChain(db.rows, e);
    chain :| IsChain(db.rows, e, chain);
    WalkFindsTheTip(db.rows, e, chain);
    if chain != [] {
      assert LinkedAt(db.rows, e, chain, |chain| - 1);
    }
  }

  /** Hence the errors the store guards against, and the refusals of its two unique indexes, never occur. */
  lemma GuardedErrorsAreUnreachable(calls: seq<StoreCall>, ref: ProposalRef, closed: bool, s: Selection, at: int)
    ensures var db := AfterAll(EMPTY_DB, calls);
      && D.Apply(db, ref, closed, at).1 !in
           {Failure(AuthorityCycle), Failure(MultipleRows), Failure(IntegrityViolation)}
      && D.RecordSelection(db, ref, s, at).1 != Failure(MultipleRows)
  {
    var db := AfterAll(EMPTY_DB, calls);
    EmptyDbKeepsInvariant();
    RunKeepsInvariant(EMPTY_DB, calls);
    if ref in db.rows {
      assert HasChain(db.rows, db.rows[ref].envelope);
      var chain :| IsChain(db.rows, db.rows[ref].envelope, chain);
      if Executable(db.rows[ref]) {
        ApplyFollowsTheChain(db, ref, at, chain);
      }
      AtMostOneSelected(db, db.rows[ref].candidate.snapshot);
    }
  }

  /** In every reachable state a snapshot has at most one selected proposal. */
  lemma OneSelectionInEveryState(calls: seq<StoreCall>, snapshot: SnapshotRef)
    ensures |SelectedOf(AfterAll(EMPTY_DB, calls).rows, snapshot)| <= 1
  {
    EmptyDbKeepsInvariant();
    RunKeepsInvariant(EMPTY_DB, calls);
    AtMostOneSelected(AfterAll(EMPTY_DB, calls), snapshot);
  }

  lemma AtMostOneSelected(db: Db, snapshot: SnapshotRef)
    requires OneSelectionPerSnapshot(db.rows)
    ensures |SelectedOf(db.rows, snapshot)| <= 1
  {
    var all := SelectedOf(db.rows, snapshot);
    if all != {} {
      var r :| r in all;
      assert all == {r};
    }
  }

  /** A recorded selection is final: it stays as it is through every later run, and whoever then tries to
      select for that snapshot is given it or a conflict. */
  lemma FirstSelectionWins(calls: seq<StoreCall>, later: seq<StoreCall>, winner: ProposalRef,
                           ref: ProposalRef, s: Selection, at: int)
    requires var db := AfterAll(EMPTY_DB, calls); winner in db.rows && db.rows[winner].selection.Some?
    ensures var db, end := AfterAll(EMPTY_DB, calls), AfterAll(AfterAll(EMPTY_DB, calls), later);
      && winner in end.rows && end.rows[winner].selection == db.rows[winner].selection
      && (ref in end.rows && end.rows[ref].candidate.snapshot == end.rows[winner].candidate.snapshot && s.source in SOURCES ==>
            && D.RecordSelection(end, ref, s, at).0 == end
            && D.RecordSelection(end, ref, s, at).1 ==
                 if ref == winner && end.rows[winner].selection != Some(s) then Failure(Conflict) else Success(winner))
  {
    var db, end := AfterAll(EMPTY_DB, calls), AfterAll(AfterAll(EMPTY_DB, calls), later);
    EmptyDbKeepsInvariant();
    RunKeepsInvariant(EMPTY_DB, calls);
    RunKeepsInvariant(db, later);
    if ref in end.rows && end.rows[ref].candidate.snapshot == end.rows[winner].candidate.snapshot {
      AtMostOneSelected(end, end.rows[ref].candidate.snapshot);
      assert winner in SelectedOf(end.rows, end.rows[ref].candidate.snapshot);
      SingletonOf(SelectedOf(end.rows, end.rows[ref].candidate.snapshot), winner);
    }
  }

  lemma SingletonOf<T>(s: set<T>, x: T)
    requires x in s && |s| <= 1
    ensures |s| == 1 && s == {x} && Only(s) == x
  {
    assert |s - {x}| == 0;
    assert s == {x};
    assert x in {Only(s)};
  }

  /** States other than PROPOSED are final, and an applied proposal keeps the approval it was applied with,
      whatever policy writes are still in flight. */
  lemma DecisionsAreFinal(calls: seq<StoreCall>, later: seq<StoreCall>, r: ProposalRef)
    requires var db := AfterAll(EMPTY_DB, calls); r in db.rows && db.rows[r].state != PROPOSED
    ensures var db, end := AfterAll(EMPTY_DB, calls), AfterAll(AfterAll(EMPTY_DB, calls), later);
      && r in end.rows && end.rows[r].state == db.rows[r].state && end.rows[r].policy == db.rows[r].policy
      && (end.rows[r].state == APPLIED ==> end.rows[r].policy.Some? && end.rows[r].policy.value.status == APPROVED)
  {
    EmptyDbKeepsInvariant();
    RunKeepsInvariant(EMPTY_DB, calls);
    RunKeepsInvariant(AfterAll(EMPTY_DB, calls), later);
  }
}
