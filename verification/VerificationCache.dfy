/** The verification cache: a bounded file cache that may be disabled, unreadable, stale or full. */
module VerificationCache {
  import opened Wrappers

  /** A key is the digest of everything that could change an answer; here it is that content itself. */
  datatype Key = Key(snapshot: string, icp: string, promptVersion: string, schemaVersion: string, modelId: string)

  type Verification = string

  /** A stored entry is a dumped verification, or one of an older contract that no longer validates. */
  datatype Entry = Dumped(verification: Verification) | Outdated

  type Entries = map<Key, Entry>

  /** `file` is what the cache file holds, or nothing if it is missing or unreadable. */
  datatype CacheState = CacheState(
    enabled: bool, maxEntries: int, entries: Entries, loaded: bool, file: Option<Entries>,
    hits: nat, misses: nat, skippedFull: nat, flushes: nat)

  function Loaded(c: CacheState): CacheState {
    if c.loaded then c
    else c.(loaded := true, entries := if c.enabled && c.file.Some? then c.file.value else c.entries)
  }

  function Get(c: CacheState, key: Key): (CacheState, Option<Verification>) {
    if !c.enabled then (c, None) else
      var l := Loaded(c);
      if key in l.entries && l.entries[key].Dumped?
      then (l.(hits := l.hits + 1), Some(l.entries[key].verification))
      else (l.(misses := l.misses + 1), None)
  }

  function Put(c: CacheState, key: Key, v: Verification): CacheState {
    if !c.enabled then c else
      var l := Loaded(c);
      if key !in l.entries && |l.entries| >= l.maxEntries then l.(skippedFull := l.skippedFull + 1)
      else l.(entries := l.entries[key := Dumped(v)])
  }

  function Flush(c: CacheState): CacheState {
    if !c.enabled then c else
      var l := Loaded(c);
      l.(file := Some(l.entries), flushes := l.flushes + 1)
  }

  class VerificationCache {
    const enabled: bool
    const maxEntries: int
    var entries: Entries
    var loaded: bool
    var file: Option<Entries>
    var hits: nat
    var misses: nat
    var skippedFull: nat
    var flushes: nat

    function Contents(): CacheState
      reads this
    {
      CacheState(enabled, maxEntries, entries, loaded, file, hits, misses, skippedFull, flushes)
    }

    constructor (enabled: bool, maxEntries: int, file: Option<Entries>)
      ensures Contents() == CacheState(enabled, maxEntries, map[], false, file, 0, 0, 0, 0)
    {
      this.enabled, this.maxEntries := enabled, maxEntries;
      this.entries, this.loaded, this.file := map[], false, file;
      this.hits, this.misses, this.skippedFull, this.flushes := 0, 0, 0, 0;
    }

    method LoadOnce()
      modifies this
      ensures Contents() == Loaded(old(Contents()))
    {
      if loaded { return; }
      loaded := true;
      if !enabled || file == None { return; }
      entries := file.value;
    }

    method Lookup(key: Key) returns (v: Option<Verification>)
      modifies this
      ensures (Contents(), v) == Get(old(Contents()), key)
    {
      if !enabled { return None; }
      LoadOnce();
      if key !in entries || !entries[key].Dumped? {
        misses := misses + 1;
        return None;
      }
      hits := hits + 1;
      v := Some(entries[key].verification);
    }

    method Store(key: Key, v: Verification)
      modifies this
      ensures Contents() == Put(old(Contents()), key, v)
    {
      if !enabled { return; }
      LoadOnce();
      if key !in entries && |entries| >= maxEntries {
        skippedFull := skippedFull + 1;
        return;
      }
      entries := entries[key := Dumped(v)];
    }

    method WriteFile()
      modifies this
      ensures Contents() == Flush(old(Contents()))
    {
      if !enabled { return; }
      LoadOnce();
      file := Some(entries);
      flushes := flushes + 1;
    }
  }

  // ---------- how large it gets ----------

  datatype Call = GetCall(key: Key) | PutCall(key: Key, verification: Verification) | FlushCall

  function After(c: CacheState, call: Call): CacheState {
    match call
    case GetCall(k) => Get(c, k).0
    case PutCall(k, v) => Put(c, k, v)
    case FlushCall => Flush(c)
  }

  function AfterAll(c: CacheState, calls: seq<Call>): CacheState {
    if calls == [] then c else After(AfterAll(c, calls[..|calls| - 1]), calls[|calls| - 1])
  }

  function FileSize(file: Option<Entries>): nat {
    match file case None => 0 case Some(entries) => |entries|
  }

  function New(enabled: bool, maxEntries: int, file: Option<Entries>): CacheState {
    CacheState(enabled, maxEntries, map[], false, file, 0, 0, 0, 0)
  }

  ghost predicate NoLargerThan(c: CacheState, bound: int) {
    |c.entries| <= bound && FileSize(c.file) <= bound
  }

  lemma {:induction false} CallsKeepBound(c: CacheState, calls: seq<Call>, bound: int)
    requires NoLargerThan(c, bound) && c.maxEntries <= bound
    ensures NoLargerThan(AfterAll(c, calls), bound) && AfterAll(c, calls).maxEntries == c.maxEntries
  {
    if calls != [] {
      var before, call := AfterAll(c, calls[..|calls| - 1]), calls[|calls| - 1];
      CallsKeepBound(c, calls[..|calls| - 1], bound);
      OneCallKeepsBound(before, call, bound);
    }
  }

  lemma OneCallKeepsBound(c: CacheState, call: Call, bound: int)
    requires NoLargerThan(c, bound) && c.maxEntries <= bound
    ensures NoLargerThan(After(c, call), bound) && After(c, call).maxEntries == c.maxEntries
  {
    var l := Loaded(c);
    assert NoLargerThan(l, bound);
    if call.PutCall? && c.enabled && call.key !in l.entries {
      AddedEntry(l.entries, call.key, Dumped(call.verification));
    } else if call.PutCall? && c.enabled {
      ReplacedEntry(l.entries, call.key, Dumped(call.verification));
    }
  }

  lemma AddedEntry(entries: Entries, key: Key, e: Entry)
    requires key !in entries
    ensures |entries[key := e]| == |entries| + 1
  {
    assert entries[key := e].Keys == entries.Keys + {key};
    assert |entries.Keys| == |entries| && |entries[key := e].Keys| == |entries[key := e]|;
  }

  lemma ReplacedEntry(entries: Entries, key: Key, e: Entry)
    requires key in entries
    ensures |entries[key := e]| == |entries|
  {
    assert entries[key := e].Keys == entries.Keys;
    assert |entries.Keys| == |entries| && |entries[key := e].Keys| == |entries[key := e]|;
  }

  lemma {:induction false} LoadedNeverShrinks(c: CacheState, calls: seq<Call>)
    requires c.loaded
    ensures AfterAll(c, calls).loaded && |c.entries| <= |AfterAll(c, calls).entries|
  {
    if calls != [] {
      var before, call := AfterAll(c, calls[..|calls| - 1]), calls[|calls| - 1];
      LoadedNeverShrinks(c, calls[..|calls| - 1]);
      if call.PutCall? && call.key !in before.entries {
        AddedEntry(before.entries, call.key, Dumped(call.verification));
      } else if call.PutCall? {
        ReplacedEntry(before.entries, call.key, Dumped(call.verification));
      }
    }
  }

  /** The limit guards insertions, not loading: every use of an enabled cache keeps within the limit if and only
      if the file it starts from does. */
  lemma LimitHoldsIffFileFits(maxEntries: nat, file: Option<Entries>)
    ensures (forall calls: seq<Call> :: |AfterAll(New(true, maxEntries, file), calls).entries| <= maxEntries)
      <==> FileSize(file) <= maxEntries
  {
    var c := New(true, maxEntries, file);
    if FileSize(file) <= maxEntries {
      forall calls: seq<Call> ensures |AfterAll(c, calls).entries| <= maxEntries {
        CallsKeepBound(c, calls, maxEntries);
      }
    } else {
      var calls := [FlushCall];
      assert calls[..0] == [];
      assert AfterAll(c, calls) == After(c, FlushCall);
      assert |AfterAll(c, calls).entries| == FileSize(file);
    }
  }

  /** However the file was filled: never beyond the limit and what the file already held. */
  lemma SizeIsBounded(enabled: bool, maxEntries: int, file: Option<Entries>, calls: seq<Call>)
    ensures var bound := if maxEntries > FileSize(file) then maxEntries else FileSize(file);
      |AfterAll(New(enabled, maxEntries, file), calls).entries| <= bound
  {
    CallsKeepBound(New(enabled, maxEntries, file), calls, if maxEntries > FileSize(file) then maxEntries else FileSize(file));
  }
}
