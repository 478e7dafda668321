/** One verification pass: view, cache or model, validation, policy, for every candidate in order and within a
    budget. */
module VerificationRunner {
  import opened Wrappers
  import opened VC = VerificationCache

  const PROMPT_VERSION := "commercial-verifier-prompt-v0.2"
  const SCHEMA_VERSION := "commercial-verifier-schema-v0.1"
  const CACHE_FLUSH_EVERY := 20

  /** What the verifier sees. Its content includes the profile, which the key names once more. */
  datatype View = View(content: string, icp: string, languageSupported: bool)

  /** An answer carries a verification or a named failure, never both. */
  datatype Response =
    | Answered(verification: Verification, costUsd: real, retried: bool)
    | Broken(kind: string, costUsd: real, retried: bool)

  datatype Decision = Decision(shown: bool, reason: Option<string>)

  /** A deterministic model, with the validation and the policy that read its answers. */
  datatype Verifier = Verifier(
    modelId: string, answer: string -> Response,
    validate: (Verification, string) -> seq<string>,
    decide: (Verification, string, seq<string>) -> Decision)

  datatype Record = Record(
    verification: Option<Verification>, errors: seq<string>, decision: Decision,
    failureKind: Option<string>, fromCache: bool, costUsd: real)

  datatype Usage = Usage(
    calls: nat, failures: multiset<string>, schemaRetries: nat, retrySuccesses: nat, cacheHits: nat, costUsd: real)

  const NO_USAGE := Usage(0, multiset{}, 0, 0, 0, 0.0)

  function KeyOf(v: Verifier, view: View): Key {
    Key(view.content, view.icp, PROMPT_VERSION, SCHEMA_VERSION, v.modelId)
  }

  function Hidden(reason: string, failureKind: Option<string>, costUsd: real): Record {
    Record(None, [], Decision(false, Some(reason)), failureKind, false, costUsd)
  }

  function Judged(v: Verifier, view: View, x: Verification, failureKind: Option<string>, fromCache: bool, costUsd: real): Record {
    var errors := v.validate(x, view.content);
    Record(Some(x), errors, v.decide(x, view.content, errors), failureKind, fromCache, costUsd)
  }

  // ---------- one candidate ----------

  function CacheGet(c: Option<CacheState>, key: Key): (Option<CacheState>, Option<Verification>) {
    match c
    case None => (None, None)
    case Some(s) => var (after, x) := Get(s, key); (Some(after), x)
  }

  function CachePut(c: Option<CacheState>, key: Key, x: Verification): Option<CacheState> {
    match c case None => None case Some(s) => Some(Put(s, key, x))
  }

  function CacheFlush(c: Option<CacheState>): Option<CacheState> {
    match c case None => None case Some(s) => Some(Flush(s))
  }

  function AskedUsage(u: Usage, r: Response, valid: bool): Usage {
    var asked := u.(costUsd := u.costUsd + r.costUsd, schemaRetries := u.schemaRetries + if r.retried then 1 else 0);
    match r
    case Broken(kind, _, _) => asked.(failures := u.failures + multiset{kind})
    case Answered(_, _, retried) =>
      asked.(calls := u.calls + 1, retrySuccesses := u.retrySuccesses + (if retried then 1 else 0),
             failures := if valid then u.failures else u.failures + multiset{"validation_failure"})
  }

  /** Asking the model, when the cache had nothing. */
  function Ask(v: Verifier, view: View, c: Option<CacheState>, u: Usage): (Option<CacheState>, Usage, Record) {
    var r := v.answer(view.content);
    match r
    case Broken(kind, cost, _) => (c, AskedUsage(u, r, true), Hidden(kind, Some(kind), cost))
    case Answered(x, cost, _) =>
      var valid := v.validate(x, view.content) == [];
      (if valid then CachePut(c, KeyOf(v, view), x) else c, AskedUsage(u, r, valid),
       Judged(v, view, x, if valid then None else Some("validation_failure"), false, cost))
  }

  function VerifyOne(v: Verifier, view: View, c: Option<CacheState>, u: Usage): (Option<CacheState>, Usage, Record) {
    if !view.languageSupported then (c, u, Hidden("unsupported_language", None, 0.0)) else
      var (after, cached) := CacheGet(c, KeyOf(v, view));
      match cached
      case Some(x) => (after, u.(cacheHits := u.cacheHits + 1), Judged(v, view, x, None, true, 0.0))
      case None => Ask(v, view, after, u)
  }

  // ---------- the run ----------

  datatype Progress = Progress(cache: Option<CacheState>, usage: Usage, records: seq<Record>, stopped: bool)

  function Advance(v: Verifier, p: Progress, view: View, budget: Option<real>): Progress {
    if p.stopped then p
    else if budget.Some? && p.usage.costUsd >= budget.value then p.(stopped := true)
    else
      var (c, u, r) := VerifyOne(v, view, p.cache, p.usage);
      Progress(if (|p.records| + 1) % CACHE_FLUSH_EVERY == 0 then CacheFlush(c) else c, u, p.records + [r], false)
  }

  function Run(v: Verifier, views: seq<View>, c: Option<CacheState>, budget: Option<real>): Progress {
    if views == [] then Progress(c, NO_USAGE, [], false)
    else Advance(v, Run(v, views[..|views| - 1], c, budget), views[|views| - 1], budget)
  }

  /** A run that was not stopped ends with a flush and reports the hits of the cache. */
  function Finished(p: Progress): Progress {
    match p.cache
    case None => p
    case Some(s) => p.(cache := Some(Flush(s)), usage := p.usage.(cacheHits := Flush(s).hits))
  }

  // ---------- the program ----------

  class VerifierUsage {
    var calls: nat
    var failures: multiset<string>
    var schemaRetries: nat
    var retrySuccesses: nat
    var cacheHits: nat
    var costUsd: real

    function Contents(): Usage
      reads this
    {
      Usage(calls, failures, schemaRetries, retrySuccesses, cacheHits, costUsd)
    }

    constructor ()
      ensures Contents() == NO_USAGE
    {
      calls, failures, schemaRetries, retrySuccesses, cacheHits, costUsd := 0, multiset{}, 0, 0, 0, 0.0;
    }

    method Fail(kind: string)
      modifies this`failures
      ensures failures == old(failures) + multiset{kind}
    {
      failures := failures + multiset{kind};
    }
  }

  function StateOf(cache: VC.VerificationCache?): Option<CacheState>
    reads if cache == null then {} else {cache}
  {
    if cache == null then None else Some(cache.Contents())
  }

  method VerifyCandidate(v: Verifier, view: View, cache: VC.VerificationCache?, usage: VerifierUsage) returns (r: Record)
    modifies usage, if cache == null then {} else {cache}
    ensures (StateOf(cache), usage.Contents(), r) == VerifyOne(v, view, old(StateOf(cache)), old(usage.Contents()))
  {
    if !view.languageSupported { return Hidden("unsupported_language", None, 0.0); }
    var key := KeyOf(v, view);
    var cached: Option<Verification> := None;
    if cache != null { cached := cache.Lookup(key); }
    if cached.Some? {
      usage.cacheHits := usage.cacheHits + 1;
      return Judged(v, view, cached.value, None, true, 0.0);
    }
    r := AskModel(v, view, cache, usage);
  }

  method AskModel(v: Verifier, view: View, cache: VC.VerificationCache?, usage: VerifierUsage) returns (r: Record)
    modifies usage, if cache == null then {} else {cache}
    ensures (StateOf(cache), usage.Contents(), r) == Ask(v, view, old(StateOf(cache)), old(usage.Contents()))
  {
    var response := v.answer(view.content);
    if response.retried { usage.schemaRetries := usage.schemaRetries + 1; }
    usage.costUsd := usage.costUsd + response.costUsd;
    if response.Broken? {
      usage.Fail(response.kind);
      return Hidden(response.kind, Some(response.kind), response.costUsd);
    }
    usage.calls := usage.calls + 1;
    if response.retried { usage.retrySuccesses := usage.retrySuccesses + 1; }
    var x := response.verification;
    var valid := v.validate(x, view.content) == [];
    if !valid { usage.Fail("validation_failure"); }
    if cache != null && valid { cache.Store(KeyOf(v, view), x); }
    r := Judged(v, view, x, if valid then None else Some("validation_failure"), false, response.costUsd);
  }

  /** The body of the loop: one candidate, and a flush after every `CACHE_FLUSH_EVERY`. */
  method VerifyNext(v: Verifier, view: View, cache: VC.VerificationCache?, usage: VerifierUsage, index: nat) returns (r: Record)
    modifies usage, if cache == null then {} else {cache}
    ensures var (c, u, record) := VerifyOne(v, view, old(StateOf(cache)), old(usage.Contents()));
      && r == record && usage.Contents() == u
      && StateOf(cache) == if (index + 1) % CACHE_FLUSH_EVERY == 0 then CacheFlush(c) else c
  {
    r := VerifyCandidate(v, view, cache, usage);
    if cache != null && (index + 1) % CACHE_FLUSH_EVERY == 0 { cache.WriteFile(); }
  }

  /** The next candidate of a run that has not been stopped. */
  lemma RunContinues(v: Verifier, views: seq<View>, c: Option<CacheState>, budget: Option<real>, i: nat, p: Progress)
    requires i < |views| && p == Run(v, views[..i], c, budget) && !p.stopped && |p.records| == i
    requires budget.Some? ==> p.usage.costUsd < budget.value
    ensures var (after, u, r) := VerifyOne(v, views[i], p.cache, p.usage);
      Run(v, views[..i + 1], c, budget)
        == Progress(if (i + 1) % CACHE_FLUSH_EVERY == 0 then CacheFlush(after) else after, u, p.records + [r], false)
  {
    assert views[..i + 1][..i] == views[..i];
  }

  lemma RunStops(v: Verifier, views: seq<View>, c: Option<CacheState>, budget: Option<real>, i: nat, p: Progress)
    requires i < |views| && p == Run(v, views[..i], c, budget) && !p.stopped
    requires budget.Some? && p.usage.costUsd >= budget.value
    ensures Run(v, views, c, budget) == p.(stopped := true)
  {
    assert views[..i + 1][..i] == views[..i];
    StoppedRunsStay(v, views, c, budget, i + 1);
  }

  /** The sequential path. */
  method VerifyAll(v: Verifier, views: seq<View>, cache: VC.VerificationCache?, budget: Option<real>)
    returns (stopped: bool, records: seq<Record>, usage: VerifierUsage)
    modifies if cache == null then {} else {cache}
    ensures fresh(usage)
    ensures var p := Run(v, views, old(StateOf(cache)), budget);
      Progress(StateOf(cache), usage.Contents(), records, stopped) == if p.stopped then p else Finished(p)
  {
    usage := new VerifierUsage();
    records := [];
    stopped := false;
    for i := 0 to |views|
      invariant fresh(usage)
      invariant Progress(StateOf(cache), usage.Contents(), records, false) == Run(v, views[..i], old(StateOf(cache)), budget)
      invariant |records| == i
    {
      ghost var p := Progress(StateOf(cache), usage.Contents(), records, false);
      if budget.Some? && usage.costUsd >= budget.value {
        RunStops(v, views, old(StateOf(cache)), budget, i, p);
        stopped := true;
        return;
      }
      RunContinues(v, views, old(StateOf(cache)), budget, i, p);
      var r := VerifyNext(v, views[i], cache, usage, i);
      records := records + [r];
    }
    assert views[..|views|] == views;
    if cache != null {
      cache.WriteFile();
      usage.cacheHits := cache.hits;
    }
  }

  lemma {:induction false} StoppedRunsStay(v: Verifier, views: seq<View>, c: Option<CacheState>, budget: Option<real>, n: nat)
    requires n <= |views| && Run(v, views[..n], c, budget).stopped
    ensures Run(v, views, c, budget) == Run(v, views[..n], c, budget)
    decreases |views| - n
  {
    if n < |views| {
      assert views[..n + 1][..n] == views[..n];
      StoppedRunsStay(v, views, c, budget, n + 1);
    } else {
      assert views[..n] == views;
    }
  }

  // ---------- a consistent cache changes nothing but the cost ----------

  /** What the cache holds for this model is what the model answers, and it was valid. */
  ghost predicate HoldsAnswers(v: Verifier, entries: Entries) {
    forall k :: k in entries && entries[k].Dumped? && AskedBy(v, k) ==> IsAnswer(v, k.snapshot, entries[k].verification)
  }

  predicate AskedBy(v: Verifier, k: Key) {
    k.modelId == v.modelId && k.promptVersion == PROMPT_VERSION && k.schemaVersion == SCHEMA_VERSION
  }

  ghost predicate IsAnswer(v: Verifier, content: string, x: Verification) {
    v.answer(content).Answered? && v.answer(content).verification == x && v.validate(x, content) == []
  }

  ghost predicate Consistent(v: Verifier, c: Option<CacheState>) {
    c.Some? ==> HoldsAnswers(v, c.value.entries) && (c.value.file.Some? ==> HoldsAnswers(v, c.value.file.value))
  }

  /** What a record says, leaving out where it came from and what it cost. */
  datatype Outcome = Outcome(
    verification: Option<Verification>, errors: seq<string>, decision: Decision, failureKind: Option<string>)

  function OutcomeOf(r: Record): Outcome {
    Outcome(r.verification, r.errors, r.decision, r.failureKind)
  }

  predicate NoRefunds(v: Verifier, views: seq<View>) {
    forall i :: 0 <= i < |views| ==> v.answer(views[i].content).costUsd >= 0.0
  }

  lemma VerifyOneAgrees(v: Verifier, view: View, c: Option<CacheState>, u: Usage, w: Usage)
    requires Consistent(v, c) && v.answer(view.content).costUsd >= 0.0
    ensures var (after, used, r) := VerifyOne(v, view, c, u);
      var (_, usedBare, bare) := VerifyOne(v, view, None, w);
      && Consistent(v, after)
      && OutcomeOf(r) == OutcomeOf(bare)
      && used.costUsd == u.costUsd + r.costUsd && usedBare.costUsd == w.costUsd + bare.costUsd
      && 0.0 <= r.costUsd <= bare.costUsd
  {
    if c.Some? && view.languageSupported {
      var l := CacheGet(c, KeyOf(v, view)).0;
      assert Consistent(v, l);
    }
  }

  lemma FlushKeepsConsistent(v: Verifier, c: Option<CacheState>)
    requires Consistent(v, c)
    ensures Consistent(v, CacheFlush(c))
  {
  }

  /** The cached run has gone at least as far, with the same outcomes; and if the bare run has not been stopped
      it has not either and has cost no more. */
  ghost predicate Ahead(v: Verifier, cached: Progress, bare: Progress) {
    && Consistent(v, cached.cache) && bare.cache == None
    && |bare.records| <= |cached.records|
    && (forall i :: 0 <= i < |bare.records| ==> OutcomeOf(cached.records[i]) == OutcomeOf(bare.records[i]))
    && (!bare.stopped ==>
         (!cached.stopped && |cached.records| == |bare.records| && cached.usage.costUsd <= bare.usage.costUsd))
  }

  lemma AdvanceAhead(v: Verifier, cached: Progress, bare: Progress, view: View, budget: Option<real>)
    requires Ahead(v, cached, bare) && v.answer(view.content).costUsd >= 0.0
    ensures Ahead(v, Advance(v, cached, view, budget), Advance(v, bare, view, budget))
  {
    VerifyOneAgrees(v, view, cached.cache, cached.usage, bare.usage);
    FlushKeepsConsistent(v, VerifyOne(v, view, cached.cache, cached.usage).0);
  }

  lemma {:induction false} RunsAhead(v: Verifier, views: seq<View>, c: Option<CacheState>, budget: Option<real>)
    requires Consistent(v, c) && NoRefunds(v, views)
    ensures Ahead(v, Run(v, views, c, budget), Run(v, views, None, budget))
  {
    if views != [] {
      var init := views[..|views| - 1];
      assert NoRefunds(v, init);
      RunsAhead(v, init, c, budget);
      AdvanceAhead(v, Run(v, init, c, budget), Run(v, init, None, budget), views[|views| - 1], budget);
    }
  }

  /** A run with any consistent cache, be it empty, partly filled, full, outdated or disabled, gives the same
      outcomes as a run without one; it completes whenever that one does, and never costs more. The cache it
      leaves is consistent again. */
  lemma CacheChangesNothing(v: Verifier, views: seq<View>, c: Option<CacheState>, budget: Option<real>)
    requires Consistent(v, c) && NoRefunds(v, views) && !Run(v, views, None, budget).stopped
    ensures var cached, bare := Run(v, views, c, budget), Run(v, views, None, budget);
      && !cached.stopped && |cached.records| == |bare.records| == |views|
      && (forall i :: 0 <= i < |views| ==> OutcomeOf(cached.records[i]) == OutcomeOf(bare.records[i]))
      && cached.usage.costUsd <= bare.usage.costUsd
      && Consistent(v, Finished(cached).cache)
  {
    RunsAhead(v, views, c, budget);
    RunIsComplete(v, views, None, budget);
    FlushKeepsConsistent(v, Run(v, views, c, budget).cache);
  }

  lemma {:induction false} RunIsComplete(v: Verifier, views: seq<View>, c: Option<CacheState>, budget: Option<real>)
    requires !Run(v, views, c, budget).stopped
    ensures |Run(v, views, c, budget).records| == |views|
  {
    if views != [] { RunIsComplete(v, views[..|views| - 1], c, budget); }
  }

  /** What the cache serves on a hit. */
  ghost predicate ServesAnswers(v: Verifier, c: CacheState) {
    c.enabled ==> HoldsAnswers(v, Loaded(c).entries)
  }

  ghost predicate SameOutcome(v: Verifier, view: View, c: CacheState, u: Usage) {
    OutcomeOf(VerifyOne(v, view, Some(c), u).2) == OutcomeOf(VerifyOne(v, view, None, u).2)
  }

  lemma HitAgreesIff(v: Verifier, view: View, c: CacheState, u: Usage, x: Verification)
    requires view.languageSupported && Get(c, KeyOf(v, view)).1 == Some(x)
    ensures SameOutcome(v, view, c, u) <==> IsAnswer(v, view.content, x)
  {
  }

  /** Consistency is what it takes: a cache changes the outcome of no candidate if and only if every entry it
      would serve for this model is a valid answer of the model. */
  lemma CacheIsHarmlessIff(v: Verifier, c: CacheState, u: Usage)
    ensures (forall view :: SameOutcome(v, view, c, u)) <==> ServesAnswers(v, c)
  {
    if forall view :: SameOutcome(v, view, c, u) {
      forall k | c.enabled && k in Loaded(c).entries && Loaded(c).entries[k].Dumped? && AskedBy(v, k)
        ensures IsAnswer(v, k.snapshot, Loaded(c).entries[k].verification)
      {
        var view := View(k.snapshot, k.icp, true);
        assert KeyOf(v, view) == k && SameOutcome(v, view, c, u);
        HitAgreesIff(v, view, c, u, Loaded(c).entries[k].verification);
      }
    }
    if ServesAnswers(v, c) {
      forall view ensures SameOutcome(v, view, c, u) {
        var cached := Get(c, KeyOf(v, view)).1;
        if view.languageSupported && cached.Some? { HitAgreesIff(v, view, c, u, cached.value); }
      }
    }
  }

  // ---------- the budget ----------

  /** The last record of a run is the call that took the cost from below the budget to beyond it. */
  ghost predicate LastCallCrossed(v: Verifier, views: seq<View>, c: Option<CacheState>, budget: real) {
    var after := Run(v, views, c, Some(budget));
    var n := |after.records|;
    0 < n <= |views| && Crossed(v, views[n - 1], Run(v, views[..n - 1], c, Some(budget)), after, budget)
  }

  ghost predicate Crossed(v: Verifier, view: View, before: Progress, after: Progress, budget: real) {
    && !before.stopped && before.usage.costUsd < budget
    && |after.records| == |before.records| + 1 && before.records <= after.records
    && after.records[|before.records|].costUsd == v.answer(view.content).costUsd
    && after.usage.costUsd == before.usage.costUsd + v.answer(view.content).costUsd
  }

  lemma OneMoreCost(v: Verifier, view: View, c: Option<CacheState>, u: Usage)
    ensures var (_, used, r) := VerifyOne(v, view, c, u);
      && used.costUsd == u.costUsd + r.costUsd
      && (r.costUsd == 0.0 || r.costUsd == v.answer(view.content).costUsd)
  {
  }

  lemma CrossingCall(v: Verifier, views: seq<View>, c: Option<CacheState>, budget: real)
    requires views != [] && Run(v, views, c, Some(budget)).usage.costUsd > budget
    requires var before := Run(v, views[..|views| - 1], c, Some(budget));
      !before.stopped && before.usage.costUsd < budget && |before.records| == |views| - 1
    ensures LastCallCrossed(v, views, c, budget)
  {
    var view := views[|views| - 1];
    var before := Run(v, views[..|views| - 1], c, Some(budget));
    OneMoreCost(v, view, before.cache, before.usage);
    assert Crossed(v, view, before, Advance(v, before, view, Some(budget)), budget);
  }

  lemma NoFurtherCall(v: Verifier, views: seq<View>, c: Option<CacheState>, budget: real)
    requires views != [] && LastCallCrossed(v, views[..|views| - 1], c, budget)
    requires var before := Run(v, views[..|views| - 1], c, Some(budget)); before.stopped || before.usage.costUsd >= budget
    ensures LastCallCrossed(v, views, c, budget)
  {
    var init, view := views[..|views| - 1], views[|views| - 1];
    var before := Run(v, init, c, Some(budget));
    var after := Advance(v, before, view, Some(budget));
    var n := |before.records|;
    assert init[..n - 1] == views[..n - 1] && init[n - 1] == views[n - 1];
    assert after == before || after == before.(stopped := true);
    var earlier := Run(v, init[..n - 1], c, Some(budget));
    assert Crossed(v, views[n - 1], earlier, before, budget);
    assert Crossed(v, views[n - 1], earlier, after, budget);
  }

  /** Whatever the cache holds, a cost beyond the budget is there because of the last call made: before it the
      cost was below the budget, so the overrun is less than what that one call cost. */
  lemma {:induction false} OverrunIsLessThanOneCall(v: Verifier, views: seq<View>, c: Option<CacheState>, budget: real)
    requires budget >= 0.0 && Run(v, views, c, Some(budget)).usage.costUsd > budget
    ensures LastCallCrossed(v, views, c, budget)
  {
    var init := views[..|views| - 1];
    var before := Run(v, init, c, Some(budget));
    if before.stopped || before.usage.costUsd >= budget {
      OverrunIsLessThanOneCall(v, init, c, budget);
      NoFurtherCall(v, views, c, budget);
    } else {
      RunIsComplete(v, init, c, Some(budget));
      CrossingCall(v, views, c, budget);
    }
  }

  /** A run is stopped exactly when its budget was reached with candidates left. */
  lemma {:induction false} StopsOnlyAtBudget(v: Verifier, views: seq<View>, c: Option<CacheState>, budget: Option<real>)
    ensures var p := Run(v, views, c, budget);
      p.stopped <==> |p.records| < |views| && budget.Some? && p.usage.costUsd >= budget.value
    ensures |Run(v, views, c, budget).records| <= |views|
  {
    if views != [] {
      var init := views[..|views| - 1];
      StopsOnlyAtBudget(v, init, c, budget);
      if !Run(v, init, c, budget).stopped { RunIsComplete(v, init, c, budget); }
    }
  }
}
