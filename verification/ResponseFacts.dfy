/** What the evaluations of replies say about a cohort. A reply may be evaluated again, each evaluation
    superseding an earlier one; only the last one of an unbroken history may be counted as positive. */
module ResponseFacts {
  import opened Wrappers
  import opened Ordering

  datatype Evaluation = Evaluation(
    id: string, response: string, member: string, classification: string, supersedes: Option<string>)

  datatype Facts = Facts(
    positive: set<string>, complaints: set<string>, unsubscribes: set<string>, ambiguous: set<string>)

  type Group = set<Evaluation>

  // ---------- one group: the evaluations of one reply ----------

  /** The id is the primary key of the table. */
  ghost predicate DistinctIds(group: Group) {
    forall x, y :: x in group && y in group && x.id == y.id ==> x == y
  }

  predicate Superseded(group: Group, id: string) {
    exists x :: x in group && x.supersedes == Some(id)
  }

  predicate IsLeaf(group: Group, x: Evaluation) {
    x in group && !Superseded(group, x.id)
  }

  predicate HasId(group: Group, id: string) {
    exists x :: x in group && x.id == id
  }

  predicate ParentsInside(group: Group) {
    forall x :: x in group && x.supersedes.Some? ==> HasId(group, x.supersedes.value)
  }

  /** What the program accepts: exactly one evaluation that none supersedes, and no parent from elsewhere. */
  ghost predicate Settled(group: Group, leaf: Evaluation) {
    && IsLeaf(group, leaf) && ParentsInside(group)
    && forall x :: IsLeaf(group, x) ==> x == leaf
  }

  // ---------- what it is meant to recognise: one linear history ----------

  ghost predicate Follows(history: seq<Evaluation>, i: nat)
    requires i < |history|
  {
    history[i].supersedes == if i == 0 then None else Some(history[i - 1].id)
  }

  /** The whole group in one line: a first evaluation, then each superseding the one before it. */
  ghost predicate History(group: Group, history: seq<Evaluation>) {
    && history != [] && NoDuplicates(history)
    && (forall x :: x in history <==> x in group)
    && forall i :: 0 <= i < |history| ==> Follows(history, i)
  }

  ghost predicate Ranked(group: Group, rank: map<string, nat>) {
    forall x, y :: x in group && y in group && y.supersedes == Some(x.id) ==>
      x.id in rank && y.id in rank && rank[x.id] < rank[y.id]
  }

  /** No evaluation supersedes itself, directly or through others. */
  ghost predicate Acyclic(group: Group) {
    exists rank :: Ranked(group, rank)
  }

  lemma {:induction false} HighestIsLeaf(group: Group, rank: map<string, nat>, among: Group) returns (leaf: Evaluation)
    requires Ranked(group, rank) && among <= group && among != {}
    ensures leaf in among && forall x :: x in among ==> x.supersedes != Some(leaf.id)
  {
    var x :| x in among;
    if y :| y in among && y.supersedes == Some(x.id) {
      var above := set z | z in among && z.id in rank && rank[z.id] > rank[x.id];
      assert y in above && x !in above;
      assert above < among;
      leaf := HighestIsLeaf(group, rank, above);
      forall z | z in among && z.supersedes == Some(leaf.id) ensures z in above {
      }
    } else {
      leaf := x;
    }
  }

  lemma ParentsStayInside(group: Group, leaf: Evaluation)
    requires Settled(group, leaf)
    ensures ParentsInside(group - {leaf})
  {
    forall x | x in group - {leaf} && x.supersedes.Some? ensures HasId(group - {leaf}, x.supersedes.value) {
      assert HasId(group, x.supersedes.value);
      var p :| p in group && p.id == x.supersedes.value;
      assert p != leaf;
    }
  }

  /** Taking the last evaluation away leaves a settled group that ends in the one it superseded. */
  lemma WithoutLast(group: Group, leaf: Evaluation, previous: Evaluation)
    requires DistinctIds(group) && Settled(group, leaf) && IsLeaf(group - {leaf}, previous)
    ensures Settled(group - {leaf}, previous) && leaf.supersedes == Some(previous.id)
  {
    forall x | IsLeaf(group - {leaf}, x) ensures leaf.supersedes == Some(x.id) {
      assert !IsLeaf(group, x);
    }
    ParentsStayInside(group, leaf);
  }

  lemma {:induction false} SettledGroupHasHistory(group: Group, rank: map<string, nat>, leaf: Evaluation)
    returns (history: seq<Evaluation>)
    requires DistinctIds(group) && Ranked(group, rank) && Settled(group, leaf)
    ensures History(group, history) && history[|history| - 1] == leaf
    decreases |group|
  {
    if group == {leaf} {
      assert leaf.supersedes.Some? ==> HasId(group, leaf.supersedes.value);
      history := [leaf];
      assert Follows(history, 0);
    } else {
      assert group - {leaf} != {};
      var previous := HighestIsLeaf(group, rank, group - {leaf});
      WithoutLast(group, leaf, previous);
      var before := SettledGroupHasHistory(group - {leaf}, rank, previous);
      history := before + [leaf];
      forall i | 0 <= i < |history| ensures Follows(history, i) {
        if i < |before| { assert Follows(before, i); }
      }
    }
  }

  lemma HistoryIsSettled(group: Group, history: seq<Evaluation>)
    requires DistinctIds(group) && History(group, history)
    ensures Settled(group, history[|history| - 1])
  {
    var leaf := history[|history| - 1];
    forall x | x in group && x.supersedes.Some? ensures HasId(group, x.supersedes.value) {
      var i :| 0 <= i < |history| && history[i] == x;
      assert Follows(history, i);
      assert history[i - 1] in group;
    }
    forall x | x in group && x != leaf ensures Superseded(group, x.id) {
      var i :| 0 <= i < |history| && history[i] == x;
      assert Follows(history, i + 1);
      assert history[i + 1] in group;
    }
    forall y | y in group ensures y.supersedes != Some(leaf.id) {
      var j :| 0 <= j < |history| && history[j] == y;
      assert Follows(history, j);
      assert j > 0 ==> history[j - 1] in group && history[j - 1] != leaf;
    }
  }

  ghost function Position(history: seq<Evaluation>, id: string): nat
    requires exists i :: 0 <= i < |history| && history[i].id == id
  {
    var i :| 0 <= i < |history| && history[i].id == id;
    i
  }

  lemma HistoryIsAcyclic(group: Group, history: seq<Evaluation>)
    requires DistinctIds(group) && History(group, history)
    ensures Acyclic(group)
  {
    var ids := set x | x in history :: x.id;
    var rank := map id | id in ids :: Position(history, id);
    forall x, y | x in group && y in group && y.supersedes == Some(x.id)
      ensures x.id in rank && y.id in rank && rank[x.id] < rank[y.id]
    {
      assert x in history && y in history;
      var i, j := Position(history, x.id), Position(history, y.id);
      assert history[i] in group && history[j] in group;
      assert Follows(history, j);
      assert history[j - 1] in group;
    }
    assert Ranked(group, rank);
  }

  /** The program's test is exact for acyclic supersession, and for no other: a group is one linear history
      if and only if it passes the test and is acyclic, and then the accepted leaf is the latest evaluation. */
  lemma HistoryIffSettledAndAcyclic(group: Group)
    requires DistinctIds(group)
    ensures (exists history :: History(group, history)) <==> Acyclic(group) && exists leaf :: Settled(group, leaf)
    ensures forall history, leaf :: History(group, history) && Settled(group, leaf) ==> history[|history| - 1] == leaf
  {
    if history :| History(group, history) {
      HistoryIsSettled(group, history);
      HistoryIsAcyclic(group, history);
    }
    if Acyclic(group) && exists leaf :: Settled(group, leaf) {
      var rank :| Ranked(group, rank);
      var leaf :| Settled(group, leaf);
      var history := SettledGroupHasHistory(group, rank, leaf);
    }
    forall history, leaf | History(group, history) && Settled(group, leaf) ensures history[|history| - 1] == leaf {
      HistoryIsSettled(group, history);
    }
  }

  /** Two evaluations that supersede each other beside a lone third pass the test without being a history. */
  lemma CycleBesideLeafIsAccepted(a: Evaluation, b: Evaluation, c: Evaluation)
    requires a.id != b.id && b.id != c.id && a.id != c.id
    requires a.supersedes == Some(b.id) && b.supersedes == Some(a.id) && c.supersedes == None
    ensures Settled({a, b, c}, c) && !Acyclic({a, b, c}) && forall history :: !History({a, b, c}, history)
  {
    var group := {a, b, c};
    assert a in group && b in group && c in group;
    assert HasId(group, a.id) && HasId(group, b.id);
    assert Superseded(group, a.id) && Superseded(group, b.id);
    if rank :| Ranked(group, rank) { assert false; }
    HistoryIffSettledAndAcyclic(group);
  }

  // ---------- stored evaluations are acyclic ----------

  /** An evaluation is stored only when the one it supersedes is already stored, for the same reply. */
  ghost predicate Recorded(log: seq<Evaluation>) {
    && (forall i, j :: 0 <= i < j < |log| ==> log[i].id != log[j].id)
    && forall i :: 0 <= i < |log| && log[i].supersedes.Some? ==>
         exists j :: 0 <= j < i && log[j].id == log[i].supersedes.value && log[j].response == log[i].response
  }

  /** Hence for stored evaluations, and any selection of them by cut-off or cohort, the test is exact. */
  lemma StoredGroupsAreJudgedExactly(log: seq<Evaluation>, group: Group)
    requires Recorded(log) && forall x :: x in group ==> x in log
    ensures DistinctIds(group) && Acyclic(group)
    ensures (exists history :: History(group, history)) <==> exists leaf :: Settled(group, leaf)
  {
    var ids := set x | x in log :: x.id;
    var rank := map id | id in ids :: Position(log, id);
    forall x, y | x in group && y in group && y.supersedes == Some(x.id)
      ensures x.id in rank && y.id in rank && rank[x.id] < rank[y.id]
    {
      assert x in log && y in log;
      var j := Position(log, y.id);
      assert log[j] == y;
    }
    assert Ranked(group, rank);
    HistoryIffSettledAndAcyclic(group);
  }

  // ---------- the facts of all groups ----------

  ghost function GroupOf(rows: seq<Evaluation>, response: string): Group {
    set x | x in rows && x.response == response
  }

  ghost predicate Ambiguous(group: Group) {
    forall leaf :: !Settled(group, leaf)
  }

  function MembersOf(rows: seq<Evaluation>, classification: string): set<string> {
    set x | x in rows && x.classification == classification :: x.member
  }

  ghost function PositiveMembers(rows: seq<Evaluation>, responses: set<string>): set<string> {
    set x | x in rows && x.response in responses && x.classification == "POSITIVE"
      && Settled(GroupOf(rows, x.response), x) :: x.member
  }

  ghost function AmbiguousMembers(rows: seq<Evaluation>, responses: set<string>): set<string> {
    set x | x in rows && x.response in responses && Ambiguous(GroupOf(rows, x.response)) :: x.member
  }

  function Responses(rows: seq<Evaluation>): set<string> {
    set x | x in rows :: x.response
  }

  function Leaves(evaluations: seq<Evaluation>, superseded: set<string>): seq<Evaluation> {
    if evaluations == [] then []
    else (if evaluations[0].id in superseded then [] else [evaluations[0]]) + Leaves(evaluations[1..], superseded)
  }

  lemma {:induction false} LeavesMembers(evaluations: seq<Evaluation>, superseded: set<string>)
    requires NoDuplicates(evaluations)
    ensures NoDuplicates(Leaves(evaluations, superseded))
    ensures forall x :: x in Leaves(evaluations, superseded) <==> x in evaluations && x.id !in superseded
  {
    if evaluations != [] {
      LeavesMembers(evaluations[1..], superseded);
      assert evaluations == [evaluations[0]] + evaluations[1..];
    }
  }

  function IdsOf(evaluations: seq<Evaluation>): set<string> {
    set x | x in evaluations :: x.id
  }

  function SupersededIn(evaluations: seq<Evaluation>): set<string> {
    set x | x in evaluations && x.supersedes.Some? :: x.supersedes.value
  }

  /** The program's test on the listed evaluations of one reply. */
  lemma JudgesGroup(evaluations: seq<Evaluation>, group: Group)
    requires NoDuplicates(evaluations) && forall x :: x in evaluations <==> x in group
    ensures var leaves := Leaves(evaluations, SupersededIn(evaluations));
      var accepted := |leaves| == 1 && SupersededIn(evaluations) <= IdsOf(evaluations);
      if accepted then Settled(group, leaves[0]) else Ambiguous(group)
  {
    var superseded := SupersededIn(evaluations);
    var leaves := Leaves(evaluations, superseded);
    LeavesMembers(evaluations, superseded);
    forall id ensures id in superseded <==> Superseded(group, id) {
      if Superseded(group, id) { var x :| x in group && x.supersedes == Some(id); assert x in evaluations; }
    }
    forall x ensures x in leaves <==> IsLeaf(group, x) {
    }
    forall id ensures id in IdsOf(evaluations) <==> HasId(group, id) {
    }
    if superseded <= IdsOf(evaluations) {
      assert ParentsInside(group);
    } else {
      var id :| id in superseded && id !in IdsOf(evaluations);
      var x :| x in evaluations && x.supersedes == Some(id);
      assert !ParentsInside(group);
    }
    if |leaves| > 1 { assert IsLeaf(group, leaves[0]) && IsLeaf(group, leaves[1]) && leaves[0] != leaves[1]; }
    assert |leaves| == 0 ==> forall leaf :: leaf !in leaves;
  }

  ghost predicate GroupedUpTo(byResponse: map<string, seq<Evaluation>>, rows: seq<Evaluation>) {
    && byResponse.Keys == Responses(rows)
    && forall r :: r in byResponse ==>
         NoDuplicates(byResponse[r]) && forall x :: x in byResponse[r] <==> x in GroupOf(rows, r)
  }

  lemma OneMoreRow(byResponse: map<string, seq<Evaluation>>, rows: seq<Evaluation>, row: Evaluation)
    requires GroupedUpTo(byResponse, rows) && row !in rows
    ensures var group := if row.response in byResponse then byResponse[row.response] else [];
      GroupedUpTo(byResponse[row.response := group + [row]], rows + [row])
  {
    forall r ensures GroupOf(rows + [row], r) == GroupOf(rows, r) + if r == row.response then {row} else {} {
    }
    assert row.response !in byResponse ==> GroupOf(rows, row.response) == {};
    ResponsesGrow(rows, row);
    var grouped := byResponse[row.response := (if row.response in byResponse then byResponse[row.response] else []) + [row]];
    forall r | r in grouped
      ensures NoDuplicates(grouped[r]) && forall x :: x in grouped[r] <==> x in GroupOf(rows + [row], r)
    {
      if r != row.response {
        assert grouped[r] == byResponse[r];
      } else if r in byResponse {
        assert row !in byResponse[r];
        assert NoDuplicates(byResponse[r] + [row]);
      }
    }
  }

  lemma ResponsesGrow(rows: seq<Evaluation>, row: Evaluation)
    ensures Responses(rows + [row]) == Responses(rows) + {row.response}
  {
    assert row in rows + [row];
    forall x | x in rows ensures x.response in Responses(rows + [row]) {
      assert x in rows + [row];
    }
  }

  lemma OneMoreMember(rows: seq<Evaluation>, row: Evaluation, classification: string)
    ensures MembersOf(rows + [row], classification) ==
      MembersOf(rows, classification) + if row.classification == classification then {row.member} else {}
  {
    var before, after := MembersOf(rows, classification), MembersOf(rows + [row], classification);
    assert row in rows + [row];
    assert row.classification == classification ==> row.member in after;
    forall m | m in before ensures m in after {
      var x :| x in rows && x.classification == classification && x.member == m;
      assert x in rows + [row];
    }
    forall m | m in after && m !in before ensures row.classification == classification && m == row.member {
      var x :| x in rows + [row] && x.classification == classification && x.member == m;
      assert x == row;
    }
  }

  method ResponseFacts(rows: seq<Evaluation>) returns (f: Facts)
    requires NoDuplicates(rows)
    ensures f.complaints == MembersOf(rows, "COMPLAINT") && f.unsubscribes == MembersOf(rows, "UNSUBSCRIBE")
    ensures f.positive == PositiveMembers(rows, Responses(rows))
    ensures f.ambiguous == AmbiguousMembers(rows, Responses(rows))
  {
    var complaints, unsubscribes: set<string> := {}, {};
    var byResponse: map<string, seq<Evaluation>> := map[];
    for i := 0 to |rows|
      invariant GroupedUpTo(byResponse, rows[..i])
      invariant complaints == MembersOf(rows[..i], "COMPLAINT")
      invariant unsubscribes == MembersOf(rows[..i], "UNSUBSCRIBE")
    {
      var row := rows[i];
      assert rows[..i + 1] == rows[..i] + [row];
      assert row !in rows[..i];
      OneMoreRow(byResponse, rows[..i], row);
      OneMoreMember(rows[..i], row, "COMPLAINT");
      OneMoreMember(rows[..i], row, "UNSUBSCRIBE");
      var group := if row.response in byResponse then byResponse[row.response] else [];
      byResponse := byResponse[row.response := group + [row]];
      if row.classification == "COMPLAINT" { complaints := complaints + {row.member}; }
      if row.classification == "UNSUBSCRIBE" { unsubscribes := unsubscribes + {row.member}; }
    }
    assert rows[..|rows|] == rows;
    var positive, ambiguous := JudgeGroups(rows, byResponse);
    f := Facts(positive, complaints, unsubscribes, ambiguous);
  }

  /** The second loop, over the groups in any order. */
  method JudgeGroups(ghost rows: seq<Evaluation>, byResponse: map<string, seq<Evaluation>>)
    returns (positive: set<string>, ambiguous: set<string>)
    requires GroupedUpTo(byResponse, rows)
    ensures positive == PositiveMembers(rows, Responses(rows))
    ensures ambiguous == AmbiguousMembers(rows, Responses(rows))
  {
    positive, ambiguous := {}, {};
    var rest := byResponse.Keys;
    ghost var done: set<string> := {};
    while rest != {}
      invariant done + rest == byResponse.Keys
      invariant positive == PositiveMembers(rows, done)
      invariant ambiguous == AmbiguousMembers(rows, done)
    {
      var r :| r in rest;
      var evaluations := byResponse[r];
      var superseded := SupersededIn(evaluations);
      var leaves := Leaves(evaluations, superseded);
      JudgesGroup(evaluations, GroupOf(rows, r));
      OneMoreGroup(rows, r, done, evaluations);
      if |leaves| != 1 || !(superseded <= IdsOf(evaluations)) {
        ambiguous := ambiguous + set x | x in evaluations :: x.member;
      } else if leaves[0].classification == "POSITIVE" {
        positive := positive + {leaves[0].member};
      }
      done, rest := done + {r}, rest - {r};
    }
  }

  lemma OneMoreGroup(rows: seq<Evaluation>, r: string, done: set<string>, evaluations: seq<Evaluation>)
    requires forall x :: x in evaluations <==> x in GroupOf(rows, r)
    ensures Ambiguous(GroupOf(rows, r)) ==>
      AmbiguousMembers(rows, done + {r}) == AmbiguousMembers(rows, done) + (set x | x in evaluations :: x.member)
      && PositiveMembers(rows, done + {r}) == PositiveMembers(rows, done)
    ensures forall leaf :: Settled(GroupOf(rows, r), leaf) ==>
      AmbiguousMembers(rows, done + {r}) == AmbiguousMembers(rows, done)
      && PositiveMembers(rows, done + {r}) ==
           PositiveMembers(rows, done) + if leaf.classification == "POSITIVE" then {leaf.member} else {}
  {
  }

  ghost predicate Latest(group: Group, x: Evaluation) {
    exists history :: History(group, history) && history[|history| - 1] == x
  }

  ghost predicate HasHistory(group: Group) {
    exists history :: History(group, history)
  }

  lemma JudgedByHistory(log: seq<Evaluation>, group: Group, x: Evaluation)
    requires Recorded(log) && forall y :: y in group ==> y in log
    ensures Ambiguous(group) <==> !HasHistory(group)
    ensures Settled(group, x) <==> Latest(group, x)
  {
    StoredGroupsAreJudgedExactly(log, group);
    HistoryIffSettledAndAcyclic(group);
    if Settled(group, x) { var history :| History(group, history); }
    if history :| History(group, history) { HistoryIsSettled(group, history); }
  }

  /** For stored evaluations: a member is positive exactly when some reply of theirs has one linear history
      whose latest evaluation is POSITIVE, and ambiguous exactly when they are named by an evaluation of a
      reply that has none. */
  lemma PositiveMeansLatestIsPositive(log: seq<Evaluation>, rows: seq<Evaluation>, member: string)
    requires Recorded(log) && forall x :: x in rows ==> x in log
    ensures member in PositiveMembers(rows, Responses(rows)) <==>
      exists x :: x in rows && Latest(GroupOf(rows, x.response), x) && x.classification == "POSITIVE" && x.member == member
    ensures member in AmbiguousMembers(rows, Responses(rows)) <==>
      exists x :: x in rows && x.member == member && !HasHistory(GroupOf(rows, x.response))
  {
    forall x | x in rows
      ensures Ambiguous(GroupOf(rows, x.response)) <==> !HasHistory(GroupOf(rows, x.response))
      ensures Settled(GroupOf(rows, x.response), x) <==> Latest(GroupOf(rows, x.response), x)
    {
      JudgedByHistory(log, GroupOf(rows, x.response), x);
    }
  }
}
