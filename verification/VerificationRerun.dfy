/** A second run over the same candidates, with the cache file the first one left: the model is asked again only
    where its answer could not be kept. */
module VerificationRerun {
  import opened Wrappers
  import opened Ordering
  import opened VC = VerificationCache
  import opened VerificationRunner

  /** The model gives this view an answer that is valid. */
  ghost predicate GoodAnswer(v: Verifier, view: View) {
    v.answer(view.content).Answered? && v.validate(v.answer(view.content).verification, view.content) == []
  }

  ghost function Keys(v: Verifier, views: seq<View>): set<Key> {
    set view | view in views :: KeyOf(v, view)
  }

  /** The entries an enabled cache works with. */
  function Held(c: CacheState): Entries {
    Loaded(c).entries
  }

  ghost predicate Holds(v: Verifier, c: CacheState, view: View) {
    KeyOf(v, view) in Held(c) && Held(c)[KeyOf(v, view)].Dumped?
  }

  ghost predicate HoldsGood(v: Verifier, c: CacheState, views: seq<View>) {
    forall view :: view in views && view.languageSupported && GoodAnswer(v, view) ==> Holds(v, c, view)
  }

  // ---------- one candidate ----------

  lemma KeysGrow(v: Verifier, views: seq<View>, n: nat)
    requires n < |views|
    ensures Keys(v, views[..n + 1]) == Keys(v, views[..n]) + {KeyOf(v, views[n])}
    ensures Keys(v, views[..n + 1]) <= Keys(v, views)
  {
    assert views[..n + 1] == views[..n] + [views[n]];
  }

  /** A new answer finds its place while the cache has room. */
  lemma PutHolds(c: CacheState, key: Key, x: Verification, room: set<Key>)
    requires c.enabled && key in room && Held(c).Keys <= room && |room| <= c.maxEntries
    ensures var after := Put(c, key, x);
      && after.enabled && after.maxEntries == c.maxEntries && Held(after) == Held(c)[key := Dumped(x)]
  {
    if key !in Held(c) {
      SubsetCount(Held(c).Keys, room);
      assert |Held(c).Keys| < |room|;
    }
  }

  /** After a candidate the cache holds what it held, and its answer if it is good. */
  lemma OneHolds(v: Verifier, view: View, c: CacheState, u: Usage, room: set<Key>)
    requires Consistent(v, Some(c)) && c.enabled && KeyOf(v, view) in room && Held(c).Keys <= room && |room| <= c.maxEntries
    ensures var after := VerifyOne(v, view, Some(c), u).0;
      && after.Some? && after.value.enabled && after.value.maxEntries == c.maxEntries && Consistent(v, after)
      && Held(c).Keys <= Held(after.value).Keys <= Held(c).Keys + {KeyOf(v, view)}
      && (forall k :: k in Held(c) && Held(c)[k].Dumped? ==> Held(after.value)[k].Dumped?)
      && (view.languageSupported && GoodAnswer(v, view) ==> Holds(v, after.value, view))
  {
    if view.languageSupported {
      var key := KeyOf(v, view);
      var (l, found) := Get(c, key);
      assert Held(l) == Held(c) && l.enabled && l.maxEntries == c.maxEntries;
      if found == None && v.answer(view.content).Answered? {
        PutHolds(l, key, v.answer(view.content).verification, room);
      }
    }
  }

  lemma FlushHolds(c: CacheState)
    requires c.enabled
    ensures Held(Flush(c)) == Held(c) && Flush(c).file == Some(Held(c))
    ensures Flush(c).enabled && Flush(c).maxEntries == c.maxEntries
  {
  }

  // ---------- a first run fills the cache ----------

  /** Part of the way through a run: every good answer so far is held, and only keys of these views were added. */
  ghost predicate Filling(v: Verifier, some: seq<View>, c: CacheState, cache: Option<CacheState>) {
    && cache.Some? && cache.value.enabled && cache.value.maxEntries == c.maxEntries && Consistent(v, cache)
    && Held(cache.value).Keys <= Held(c).Keys + Keys(v, some)
    && HoldsGood(v, cache.value, some)
  }

  lemma FlushFills(v: Verifier, some: seq<View>, c: CacheState, cache: Option<CacheState>)
    requires Filling(v, some, c, cache)
    ensures Filling(v, some, c, CacheFlush(cache))
  {
    FlushHolds(cache.value);
    FlushKeepsConsistent(v, cache);
  }

  lemma AskFills(v: Verifier, some: seq<View>, view: View, c: CacheState, cache: Option<CacheState>, u: Usage, room: set<Key>)
    requires Filling(v, some, c, cache) && room >= Held(c).Keys + Keys(v, some + [view]) && |room| <= c.maxEntries
    ensures Filling(v, some + [view], c, VerifyOne(v, view, cache, u).0)
  {
    assert Keys(v, some + [view]) == Keys(v, some) + {KeyOf(v, view)};
    OneHolds(v, view, cache.value, u, room);
    GoodStaysHeld(v, cache.value, VerifyOne(v, view, cache, u).0.value, some, view);
  }

  lemma FillOneMore(v: Verifier, some: seq<View>, view: View, c: CacheState, p: Progress, room: set<Key>, budget: Option<real>)
    requires Filling(v, some, c, p.cache) && room >= Held(c).Keys + Keys(v, some + [view]) && |room| <= c.maxEntries
    requires !p.stopped && !Advance(v, p, view, budget).stopped
    ensures Filling(v, some + [view], c, Advance(v, p, view, budget).cache)
  {
    AskFills(v, some, view, c, p.cache, p.usage, room);
    FlushFills(v, some + [view], c, VerifyOne(v, view, p.cache, p.usage).0);
  }

  lemma GoodStaysHeld(v: Verifier, before: CacheState, after: CacheState, views: seq<View>, view: View)
    requires HoldsGood(v, before, views) && (view.languageSupported && GoodAnswer(v, view) ==> Holds(v, after, view))
    requires Held(before).Keys <= Held(after).Keys
    requires forall k :: k in Held(before) && Held(before)[k].Dumped? ==> Held(after)[k].Dumped?
    ensures HoldsGood(v, after, views + [view])
  {
  }

  lemma {:induction false} RunFills(v: Verifier, views: seq<View>, n: nat, c: CacheState, budget: Option<real>)
    requires n <= |views| && c.enabled && Consistent(v, Some(c)) && |Held(c).Keys + Keys(v, views)| <= c.maxEntries
    requires !Run(v, views[..n], Some(c), budget).stopped
    ensures Filling(v, views[..n], c, Run(v, views[..n], Some(c), budget).cache)
  {
    if n == 0 {
      assert views[..0] == [];
    } else {
      assert views[..n][..n - 1] == views[..n - 1] && views[..n][n - 1] == views[n - 1];
      assert views[..n] == views[..n - 1] + [views[n - 1]];
      RunFills(v, views, n - 1, c, budget);
      KeysGrow(v, views, n - 1);
      FillOneMore(v, views[..n - 1], views[n - 1], c, Run(v, views[..n - 1], Some(c), budget), Held(c).Keys + Keys(v, views), budget);
    }
  }

  // ---------- the second run is served ----------

  /** This record was served from the cache if the view is supported and its answer good; otherwise the model was
      asked, if the view is supported. */
  ghost predicate AskedOnlyIfNeeded(v: Verifier, view: View, r: Record) {
    && (view.languageSupported && GoodAnswer(v, view) ==> r.fromCache && r.costUsd == 0.0)
    && (view.languageSupported && !GoodAnswer(v, view) ==> !r.fromCache && r.costUsd == v.answer(view.content).costUsd)
    && (!view.languageSupported ==> !r.fromCache && r.costUsd == 0.0)
  }

  lemma ServedIfHeld(v: Verifier, view: View, c: CacheState, u: Usage)
    requires c.enabled && Consistent(v, Some(c)) && (view.languageSupported && GoodAnswer(v, view) ==> Holds(v, c, view))
    ensures AskedOnlyIfNeeded(v, view, VerifyOne(v, view, Some(c), u).2)
  {
    var key := KeyOf(v, view);
    assert key in Held(c) && Held(c)[key].Dumped? ==> IsAnswer(v, view.content, Held(c)[key].verification);
  }

  /** What the second run keeps: good answers stay held. */
  ghost predicate Serving(v: Verifier, views: seq<View>, p: Progress) {
    && p.cache.Some? && p.cache.value.enabled && Consistent(v, p.cache) && HoldsGood(v, p.cache.value, views)
    && |p.records| <= |views| && forall i :: 0 <= i < |p.records| ==> AskedOnlyIfNeeded(v, views[i], p.records[i])
  }

  /** Asking never drops a held answer, whatever room there is. */
  lemma OneKeeps(v: Verifier, view: View, c: CacheState, u: Usage)
    requires Consistent(v, Some(c)) && c.enabled
    ensures var after := VerifyOne(v, view, Some(c), u).0;
      && after.Some? && after.value.enabled && Consistent(v, after) && Held(c).Keys <= Held(after.value).Keys
      && (forall k :: k in Held(c) && Held(c)[k].Dumped? ==> Held(after.value)[k].Dumped?)
  {
    if view.languageSupported {
      var l := Get(c, KeyOf(v, view)).0;
      assert Held(l) == Held(c) && l.enabled;
    }
  }

  lemma ServeOneMore(v: Verifier, views: seq<View>, n: nat, p: Progress, budget: Option<real>)
    requires n < |views| && Serving(v, views, p) && (!p.stopped ==> |p.records| == n)
    ensures Serving(v, views, Advance(v, p, views[n], budget))
  {
    var view, before := views[n], p.cache.value;
    var (after, _, r) := VerifyOne(v, view, p.cache, p.usage);
    assert view in views;
    ServedIfHeld(v, view, before, p.usage);
    OneKeeps(v, view, before, p.usage);
    FlushHolds(after.value);
    FlushKeepsConsistent(v, after);
  }

  lemma {:induction false} RunServes(v: Verifier, views: seq<View>, n: nat, c: CacheState, budget: Option<real>)
    requires n <= |views| && c.enabled && Consistent(v, Some(c)) && HoldsGood(v, c, views)
    ensures Serving(v, views, Run(v, views[..n], Some(c), budget))
    ensures !Run(v, views[..n], Some(c), budget).stopped ==> |Run(v, views[..n], Some(c), budget).records| == n
  {
    if n == 0 {
      assert views[..0] == [];
    } else {
      assert views[..n][..n - 1] == views[..n - 1] && views[..n][n - 1] == views[n - 1];
      RunServes(v, views, n - 1, c, budget);
      ServeOneMore(v, views, n - 1, Run(v, views[..n - 1], Some(c), budget), budget);
    }
  }

  /** After a finished run with a consistent cache that had room for all its candidates, a run over the same
      candidates by a new process, which reads the file the first one left, asks the model only for supported views
      whose answer was broken or invalid; the other supported views are served at no cost. */
  lemma RerunAsksOnlyTheRest(v: Verifier, views: seq<View>, c: CacheState, budget: Option<real>, limit: int, again: Option<real>, i: nat)
    requires c.enabled && Consistent(v, Some(c)) && |Held(c).Keys + Keys(v, views)| <= c.maxEntries
    requires !Run(v, views, Some(c), budget).stopped
    requires Finished(Run(v, views, Some(c), budget)).cache.Some?
    requires var reopened := New(true, limit, Finished(Run(v, views, Some(c), budget)).cache.value.file);
      i < |Run(v, views, Some(reopened), again).records|
    ensures var reopened := New(true, limit, Finished(Run(v, views, Some(c), budget)).cache.value.file);
      i < |views| && AskedOnlyIfNeeded(v, views[i], Run(v, views, Some(reopened), again).records[i])
  {
    var p := Run(v, views, Some(c), budget);
    assert views[..|views|] == views;
    RunFills(v, views, |views|, c, budget);
    FlushHolds(p.cache.value);
    FlushKeepsConsistent(v, p.cache);
    var reopened := New(true, limit, Finished(p).cache.value.file);
    assert Held(reopened) == Held(p.cache.value);
    RunServes(v, views, |views|, reopened, again);
  }
}
