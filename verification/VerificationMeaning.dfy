/** What a verification run reports: each record is about its own candidate, the usage adds up over the records, and a
    stopped run has lost at most the last answers of an unfinished twenty. */
module VerificationMeaning {
  import opened Wrappers
  import opened Ordering
  import opened VC = VerificationCache
  import opened VerificationRunner
  import opened VerificationRerun

  // ---------- the cache's own counters ----------

  function Gets(calls: seq<Call>): nat {
    if calls == [] then 0 else Gets(calls[..|calls| - 1]) + if calls[|calls| - 1].GetCall? then 1 else 0
  }

  function Flushes(calls: seq<Call>): nat {
    if calls == [] then 0 else Flushes(calls[..|calls| - 1]) + if calls[|calls| - 1].FlushCall? then 1 else 0
  }

  /** An enabled cache counts every look-up once, as a hit or as a miss, and every flush. */
  lemma {:induction false} CountersAddUp(c: CacheState, calls: seq<Call>)
    requires c.enabled
    ensures var after := AfterAll(c, calls);
      && after.enabled && after.hits + after.misses == c.hits + c.misses + Gets(calls)
      && after.flushes == c.flushes + Flushes(calls)
  {
    if calls != [] { CountersAddUp(c, calls[..|calls| - 1]); }
  }

  /** A look-up is a hit exactly when it returns something. */
  lemma HitIffServed(c: CacheState, key: Key)
    ensures Get(c, key).0.hits == c.hits + if Get(c, key).1.Some? then 1 else 0
  {
  }

  /** A disabled cache does nothing and returns nothing. */
  lemma {:induction false} DisabledCacheIsInert(c: CacheState, calls: seq<Call>, key: Key)
    requires !c.enabled
    ensures AfterAll(c, calls) == c && Get(AfterAll(c, calls), key).1 == None
  {
    if calls != [] { DisabledCacheIsInert(c, calls[..|calls| - 1], key); }
  }

  // ---------- records ----------

  /** What a record says of its candidate: hidden without a verification when its language is unsupported or the model
      failed; otherwise the model's verification, the validator's errors about it, and the decision of the policy
      on both, marked as a failure exactly when there are errors. */
  ghost predicate SaysOf(v: Verifier, view: View, o: Outcome) {
    if !view.languageSupported then
      o == Outcome(None, [], Decision(false, Some("unsupported_language")), None)
    else match v.answer(view.content)
      case Broken(kind, _, _) => o == Outcome(None, [], Decision(false, Some(kind)), Some(kind))
      case Answered(x, _, _) =>
        && o.verification == Some(x) && o.errors == v.validate(x, view.content)
        && o.decision == v.decide(x, view.content, o.errors)
        && o.failureKind == if o.errors == [] then None else Some("validation_failure")
  }

  lemma OneSays(v: Verifier, view: View, c: Option<CacheState>, u: Usage)
    requires Consistent(v, c)
    ensures SaysOf(v, view, OutcomeOf(VerifyOne(v, view, c, u).2)) && Consistent(v, VerifyOne(v, view, c, u).0)
  {
    if c.Some? && view.languageSupported {
      var l := CacheGet(c, KeyOf(v, view)).0;
      assert Consistent(v, l);
    }
  }

  /** Record `i` of a run, whatever the cache and the budget, is about candidate `i` and says what the model, the
      validator and the policy say of it. */
  lemma {:induction false} RecordsSay(v: Verifier, views: seq<View>, c: Option<CacheState>, budget: Option<real>, i: nat)
    requires Consistent(v, c) && i < |Run(v, views, c, budget).records|
    ensures i < |views| && SaysOf(v, views[i], OutcomeOf(Run(v, views, c, budget).records[i]))
    ensures Consistent(v, Run(v, views, c, budget).cache)
  {
    StopsOnlyAtBudget(v, views, c, budget);
    if views != [] {
      var init, view := views[..|views| - 1], views[|views| - 1];
      var before := Run(v, init, c, budget);
      StopsOnlyAtBudget(v, init, c, budget);
      RunStaysConsistent(v, init, c, budget);
      OneSays(v, view, before.cache, before.usage);
      FlushKeepsConsistent(v, VerifyOne(v, view, before.cache, before.usage).0);
      if i < |before.records| {
        RecordsSay(v, init, c, budget, i);
      } else {
        RunIsComplete(v, init, c, budget);
      }
    }
  }

  lemma {:induction false} RunStaysConsistent(v: Verifier, views: seq<View>, c: Option<CacheState>, budget: Option<real>)
    requires Consistent(v, c)
    ensures Consistent(v, Run(v, views, c, budget).cache)
  {
    if views != [] {
      var init, view := views[..|views| - 1], views[|views| - 1];
      var before := Run(v, init, c, budget);
      RunStaysConsistent(v, init, c, budget);
      OneSays(v, view, before.cache, before.usage);
      FlushKeepsConsistent(v, VerifyOne(v, view, before.cache, before.usage).0);
    }
  }

  // ---------- usage ----------

  ghost function Cost(records: seq<Record>): real {
    if records == [] then 0.0 else Cost(records[..|records| - 1]) + records[|records| - 1].costUsd
  }

  ghost function Number(records: seq<Record>, p: Record -> bool): nat {
    if records == [] then 0 else Number(records[..|records| - 1], p) + if p(records[|records| - 1]) then 1 else 0
  }

  ghost function Failures(records: seq<Record>): multiset<string> {
    if records == [] then multiset{} else
      Failures(records[..|records| - 1])
      + match records[|records| - 1].failureKind case None => multiset{} case Some(kind) => multiset{kind}
  }

  predicate Served(r: Record) {
    r.fromCache
  }

  predicate GivenByModel(r: Record) {
    r.verification.Some? && !r.fromCache
  }

  /** The usage of the records: what they cost, how many were served from the cache, how many verifications the model
      gave, and how each failure is called. */
  ghost predicate AddsUp(u: Usage, records: seq<Record>) {
    && u.costUsd == Cost(records)
    && u.cacheHits == Number(records, Served) && u.calls == Number(records, GivenByModel)
    && u.failures == Failures(records)
  }

  lemma OneMoreRecord(records: seq<Record>, r: Record)
    ensures Cost(records + [r]) == Cost(records) + r.costUsd
    ensures Number(records + [r], Served) == Number(records, Served) + if Served(r) then 1 else 0
    ensures Number(records + [r], GivenByModel) == Number(records, GivenByModel) + if GivenByModel(r) then 1 else 0
    ensures Failures(records + [r]) == Failures(records)
      + match r.failureKind case None => multiset{} case Some(kind) => multiset{kind}
  {
    assert (records + [r])[..|records|] == records;
  }

  /** What one candidate adds to the usage is what its record says. */
  lemma OneIsCounted(v: Verifier, view: View, c: Option<CacheState>, u: Usage)
    ensures var (_, after, r) := VerifyOne(v, view, c, u);
      && after.costUsd == u.costUsd + r.costUsd
      && after.cacheHits == u.cacheHits + (if Served(r) then 1 else 0)
      && after.calls == u.calls + (if GivenByModel(r) then 1 else 0)
      && after.failures == u.failures + match r.failureKind case None => multiset{} case Some(kind) => multiset{kind}
  {
  }

  lemma OneAddsUp(u: Usage, records: seq<Record>, after: Usage, r: Record)
    requires AddsUp(u, records)
    requires after.costUsd == u.costUsd + r.costUsd && after.cacheHits == u.cacheHits + if Served(r) then 1 else 0
    requires after.calls == u.calls + if GivenByModel(r) then 1 else 0
    requires after.failures == u.failures + match r.failureKind case None => multiset{} case Some(kind) => multiset{kind}
    ensures AddsUp(after, records + [r])
  {
    OneMoreRecord(records, r);
  }

  /** In every run, stopped or not, the usage adds up over the records; once it is finished the hits are those the
      cache counted. */
  lemma {:induction false} UsageAddsUp(v: Verifier, views: seq<View>, c: Option<CacheState>, budget: Option<real>)
    ensures AddsUp(Run(v, views, c, budget).usage, Run(v, views, c, budget).records)
  {
    if views != [] {
      var init, view := views[..|views| - 1], views[|views| - 1];
      var before := Run(v, init, c, budget);
      UsageAddsUp(v, init, c, budget);
      var (_, used, r) := VerifyOne(v, view, before.cache, before.usage);
      OneIsCounted(v, view, before.cache, before.usage);
      OneAddsUp(before.usage, before.records, used, r);
    }
  }

  /** How often the answers that were asked for needed a second attempt, and how often that gave a verification. */
  ghost function Retried(v: Verifier, views: seq<View>, records: seq<Record>, answered: bool): nat
    requires |records| <= |views|
  {
    if records == [] then 0 else
      var n := |records| - 1;
      Retried(v, views, records[..n], answered)
      + if views[n].languageSupported && !records[n].fromCache && v.answer(views[n].content).retried
           && (answered ==> v.answer(views[n].content).Answered?) then 1 else 0
  }

  lemma {:induction false} RetriedInFront(v: Verifier, views: seq<View>, more: seq<View>, records: seq<Record>, answered: bool)
    requires |records| <= |views|
    ensures Retried(v, views + more, records, answered) == Retried(v, views, records, answered)
  {
    if records != [] { RetriedInFront(v, views, more, records[..|records| - 1], answered); }
  }

  lemma OneMoreRetried(v: Verifier, init: seq<View>, view: View, records: seq<Record>, r: Record, answered: bool)
    requires |records| == |init|
    ensures Retried(v, init + [view], records + [r], answered) == Retried(v, init, records, answered)
      + if view.languageSupported && !r.fromCache && v.answer(view.content).retried
          && (answered ==> v.answer(view.content).Answered?) then 1 else 0
  {
    assert (records + [r])[..|records|] == records && (init + [view])[|records|] == view;
    RetriedInFront(v, init, [view], records, answered);
  }

  lemma OneRetries(v: Verifier, view: View, c: Option<CacheState>, u: Usage)
    ensures var (_, after, r) := VerifyOne(v, view, c, u);
      var again := view.languageSupported && !r.fromCache && v.answer(view.content).retried;
      && after.schemaRetries == u.schemaRetries + (if again then 1 else 0)
      && after.retrySuccesses == u.retrySuccesses + if again && v.answer(view.content).Answered? then 1 else 0
  {
  }

  ghost predicate RetriesCounted(v: Verifier, views: seq<View>, p: Progress) {
    && |p.records| <= |views|
    && p.usage.schemaRetries == Retried(v, views, p.records, false)
    && p.usage.retrySuccesses == Retried(v, views, p.records, true)
  }

  lemma {:induction false} RetriesAddUp(v: Verifier, views: seq<View>, c: Option<CacheState>, budget: Option<real>)
    ensures RetriesCounted(v, views, Run(v, views, c, budget))
  {
    if views != [] {
      var init, view := views[..|views| - 1], views[|views| - 1];
      var before := Run(v, init, c, budget);
      RetriesAddUp(v, init, c, budget);
      assert views == init + [view];
      if before.stopped || (budget.Some? && before.usage.costUsd >= budget.value) {
        RetriedInFront(v, init, [view], before.records, false);
        RetriedInFront(v, init, [view], before.records, true);
      } else {
        RunIsComplete(v, init, c, budget);
        var r := VerifyOne(v, view, before.cache, before.usage).2;
        OneMoreRetried(v, init, view, before.records, r, false);
        OneMoreRetried(v, init, view, before.records, r, true);
        OneRetries(v, view, before.cache, before.usage);
      }
    }
  }

  // ---------- what a stopped run has saved ----------

  ghost predicate FileHolds(v: Verifier, file: Option<Entries>, some: seq<View>) {
    forall view :: view in some && view.languageSupported && GoodAnswer(v, view) ==>
      file.Some? && KeyOf(v, view) in file.value && file.value[KeyOf(v, view)].Dumped?
  }

  lemma AskingKeepsFile(v: Verifier, view: View, c: CacheState, u: Usage)
    ensures VerifyOne(v, view, Some(c), u).0.Some? && VerifyOne(v, view, Some(c), u).0.value.file == c.file
  {
  }

  function Twenties(n: nat): nat {
    n - n % 20
  }

  lemma {:induction false} FileKeepsUp(v: Verifier, views: seq<View>, n: nat, c: CacheState, budget: Option<real>)
    requires n <= |views| && c.enabled && Consistent(v, Some(c)) && |Held(c).Keys + Keys(v, views)| <= c.maxEntries
    requires !Run(v, views[..n], Some(c), budget).stopped
    ensures var cache := Run(v, views[..n], Some(c), budget).cache;
      cache.Some? && FileHolds(v, cache.value.file, views[..Twenties(n)])
  {
    if n == 0 {
      assert views[..0] == [];
    } else {
      assert views[..n][..n - 1] == views[..n - 1] && views[..n][n - 1] == views[n - 1];
      var before := Run(v, views[..n - 1], Some(c), budget);
      FileKeepsUp(v, views, n - 1, c, budget);
      RunFills(v, views, n, c, budget);
      RunIsComplete(v, views[..n - 1], Some(c), budget);
      RunContinues(v, views, Some(c), budget, n - 1, before);
      var asked := VerifyOne(v, views[n - 1], before.cache, before.usage).0;
      FileOneMore(v, views, n, before, asked, Run(v, views[..n], Some(c), budget).cache);
    }
  }

  lemma FileOneMore(v: Verifier, views: seq<View>, n: nat, before: Progress, asked: Option<CacheState>, after: Option<CacheState>)
    requires 0 < n <= |views| && before.cache.Some? && FileHolds(v, before.cache.value.file, views[..Twenties(n - 1)])
    requires asked == VerifyOne(v, views[n - 1], before.cache, before.usage).0
    requires after == if n % 20 == 0 then CacheFlush(asked) else asked
    requires after.Some? && after.value.enabled && HoldsGood(v, after.value, views[..n])
    ensures FileHolds(v, after.value.file, views[..Twenties(n)])
  {
    AskingKeepsFile(v, views[n - 1], before.cache.value, before.usage);
    if n % 20 == 0 {
      FlushedIsHeld(v, views, n, asked.value, after.value);
    } else {
      assert Twenties(n) == Twenties(n - 1);
    }
  }

  lemma FlushedIsHeld(v: Verifier, views: seq<View>, n: nat, asked: CacheState, after: CacheState)
    requires n <= |views| && after == Flush(asked) && after.enabled && HoldsGood(v, after, views[..n])
    ensures FileHolds(v, after.file, views[..n])
  {
    assert asked.enabled;
    FlushHolds(asked);
  }

  /** However a run with enough room in its cache was stopped, the file holds every good answer to its candidates up
      to the last full twenty: a rerun asks again for nineteen of them at most. */
  lemma StoppedRunKeepsTwenties(v: Verifier, views: seq<View>, c: CacheState, budget: Option<real>)
    requires c.enabled && Consistent(v, Some(c)) && |Held(c).Keys + Keys(v, views)| <= c.maxEntries
    ensures var p := Run(v, views, Some(c), budget);
      && |p.records| <= |views| && p.cache.Some?
      && FileHolds(v, p.cache.value.file, views[..Twenties(|p.records|)])
  {
    var p := Run(v, views, Some(c), budget);
    var n := StopsAt(v, views, Some(c), budget);
    FileKeepsUp(v, views, n, c, budget);
  }

  /** A stopped run is where the run over its first candidates was. */
  lemma {:induction false} StopsAt(v: Verifier, views: seq<View>, c: Option<CacheState>, budget: Option<real>) returns (n: nat)
    ensures n <= |views| && n == |Run(v, views, c, budget).records|
    ensures !Run(v, views[..n], c, budget).stopped && Run(v, views[..n], c, budget).cache == Run(v, views, c, budget).cache
  {
    if !Run(v, views, c, budget).stopped {
      n := |views|;
      RunIsComplete(v, views, c, budget);
      assert views[..n] == views;
    } else {
      var init := views[..|views| - 1];
      n := StopsAt(v, init, c, budget);
      assert views[..n] == init[..n];
      if !Run(v, init, c, budget).stopped { RunIsComplete(v, init, c, budget); }
    }
  }
}
