/** The pool of the Signal-100 bench: one match per award lot, and three score zones by rank. */
module Signal100 {
  import opened Wrappers
  import opened Ordering
  import opened NoticeCap

  datatype AwardKey = AwardKey(
    system: string, notice: string, version: Option<string>, award: Option<string>, lot: Option<string>)

  datatype PoolDetail = PoolDetail(
    award: AwardKey, icp: string, contractType: string, country: Option<string>, needs: seq<string>)

  type PoolEntry = Ranked<PoolDetail>

  // ---------- one match per award lot ----------

  predicate BetterMatch(a: PoolEntry, b: PoolEntry) {
    a.score > b.score
    || (a.score == b.score && StringLeq(a.detail.icp, b.detail.icp) && a.detail.icp != b.detail.icp)
  }

  lemma BetterMatchOrder(a: PoolEntry, b: PoolEntry, c: PoolEntry)
    ensures !(BetterMatch(a, b) && BetterMatch(b, a))
    ensures !BetterMatch(a, b) && !BetterMatch(b, c) ==> !BetterMatch(a, c)
    ensures !BetterMatch(a, b) && !BetterMatch(b, a) ==> a.detail.icp == b.detail.icp
  {
    StringLeqTotal(a.detail.icp, b.detail.icp);
    StringLeqTotal(b.detail.icp, c.detail.icp);
    if StringLeq(a.detail.icp, b.detail.icp) && StringLeq(b.detail.icp, a.detail.icp) {
      StringLeqAntisymmetric(a.detail.icp, b.detail.icp);
    }
    if StringLeq(c.detail.icp, b.detail.icp) && StringLeq(b.detail.icp, a.detail.icp) {
      StringLeqTransitive(c.detail.icp, b.detail.icp, a.detail.icp);
      if StringLeq(a.detail.icp, c.detail.icp) { StringLeqAntisymmetric(a.detail.icp, c.detail.icp); }
    }
  }

  ghost predicate BestOfItsLot(entries: seq<PoolEntry>, b: PoolEntry) {
    b in entries && forall e :: e in entries && e.detail.award == b.detail.award ==> !BetterMatch(e, b)
  }

  /** Exactly one entry for each award lot, and no entry of that lot is better. */
  ghost predicate BestPerAwardLot(entries: seq<PoolEntry>, best: seq<PoolEntry>) {
    && (forall b :: b in best ==> BestOfItsLot(entries, b))
    && (forall i, j :: 0 <= i < j < |best| ==> best[i].detail.award != best[j].detail.award)
    && (forall e {:trigger CoversLot(best, e.detail.award)} :: e in entries ==> CoversLot(best, e.detail.award))
  }

  ghost predicate CoversLot(best: seq<PoolEntry>, award: AwardKey) {
    exists b :: b in best && b.detail.award == award
  }

  /** What makes a match the best of its lot: no other has a higher score, and none with as high a score an earlier
      profile. */
  lemma BestOfItsLotMeans(entries: seq<PoolEntry>, best: seq<PoolEntry>, b: PoolEntry, e: PoolEntry)
    requires BestPerAwardLot(entries, best) && b in best && e in entries && e.detail.award == b.detail.award
    ensures e.score < b.score || (e.score == b.score && StringLeq(b.detail.icp, e.detail.icp))
  {
    assert BestOfItsLot(entries, b);
    StringLeqTotal(b.detail.icp, e.detail.icp);
  }

  ghost predicate BestSoFar(entries: seq<PoolEntry>, best: map<AwardKey, PoolEntry>, keys: seq<AwardKey>) {
    && NoDuplicates(keys) && (forall k :: k in keys <==> k in best)
    && (forall k :: k in best ==> best[k].detail.award == k && BestOfItsLot(entries, best[k]))
    && forall e :: e in entries ==> e.detail.award in best
  }

  function Values(best: map<AwardKey, PoolEntry>, keys: seq<AwardKey>): seq<PoolEntry>
    requires forall k :: k in keys ==> k in best
  {
    seq(|keys|, i requires 0 <= i < |keys| => best[keys[i]])
  }

  lemma BestWithOneMore(entries: seq<PoolEntry>, best: map<AwardKey, PoolEntry>, keys: seq<AwardKey>, e: PoolEntry)
    requires BestSoFar(entries, best, keys)
    ensures var k := e.detail.award;
      if k !in best then BestSoFar(entries + [e], best[k := e], keys + [k])
      else if BetterMatch(e, best[k]) then BestSoFar(entries + [e], best[k := e], keys)
      else BestSoFar(entries + [e], best, keys)
  {
    forall x, y, z ensures !BetterMatch(x, y) && !BetterMatch(y, z) ==> !BetterMatch(x, z) {
      BetterMatchOrder(x, y, z);
    }
    forall x, y ensures !(BetterMatch(x, y) && BetterMatch(y, x)) {
      BetterMatchOrder(x, y, y);
    }
    var k := e.detail.award;
    forall b | BestOfItsLot(entries, b) && (b.detail.award != k || !BetterMatch(e, b))
      ensures BestOfItsLot(entries + [e], b)
    {
    }
    if k !in best || BetterMatch(e, best[k]) {
      forall x | x in entries && x.detail.award == k ensures !BetterMatch(x, e) {
        assert BestOfItsLot(entries, best[k]);
      }
      assert BestOfItsLot(entries + [e], e);
    }
  }

  lemma ValuesAreBest(entries: seq<PoolEntry>, best: map<AwardKey, PoolEntry>, keys: seq<AwardKey>)
    requires BestSoFar(entries, best, keys)
    ensures BestPerAwardLot(entries, Values(best, keys))
  {
    forall e | e in entries ensures CoversLot(Values(best, keys), e.detail.award) {
      var i :| 0 <= i < |keys| && keys[i] == e.detail.award;
      assert Values(best, keys)[i] in Values(best, keys);
    }
  }

  lemma OrderedIsBest(entries: seq<PoolEntry>, best: seq<PoolEntry>)
    requires BestPerAwardLot(entries, best)
    ensures BestPerAwardLot(entries, Ordered(best))
  {
    OrderedKeeps(best);
    assert NoDuplicates(best);
    SameMultisetNoDuplicates(best, Ordered(best));
    forall e | e in entries ensures CoversLot(Ordered(best), e.detail.award) {
      assert CoversLot(best, e.detail.award);
    }
    forall i, j | 0 <= i < j < |Ordered(best)| ensures Ordered(best)[i].detail.award != Ordered(best)[j].detail.award {
      assert Ordered(best)[i] in best && Ordered(best)[j] in best;
    }
  }

  method BestMatchPerAwardLot(entries: seq<PoolEntry>) returns (kept: seq<PoolEntry>)
    ensures BestPerAwardLot(entries, kept) && Sorted(kept, RankLeq)
  {
    var best: map<AwardKey, PoolEntry> := map[];
    var keys: seq<AwardKey> := [];
    for i := 0 to |entries|
      invariant BestSoFar(entries[..i], best, keys)
    {
      var entry := entries[i];
      var k := entry.detail.award;
      assert entries[..i + 1] == entries[..i] + [entry];
      BestWithOneMore(entries[..i], best, keys, entry);
      if k !in best { keys := keys + [k]; }
      if k !in best || BetterMatch(entry, best[k]) { best := best[k := entry]; }
    }
    assert entries[..|entries|] == entries;
    ValuesAreBest(entries, best, keys);
    OrderedIsBest(entries, Values(best, keys));
    OrderedKeeps(Values(best, keys));
    kept := Ordered(Values(best, keys));
  }

  ghost predicate DistinctMatches(entries: seq<PoolEntry>) {
    forall x, y :: x in entries && y in entries && x.detail.award == y.detail.award && x.detail.icp == y.detail.icp
      ==> x == y
  }

  /** With one match per lot and profile, the kept matches do not depend on the order of acquisition. */
  lemma BestMatchesIgnoreAcquisition(a: seq<PoolEntry>, b: seq<PoolEntry>, ka: seq<PoolEntry>, kb: seq<PoolEntry>)
    requires multiset(a) == multiset(b) && DistinctIds(a) && DistinctMatches(a)
    requires BestPerAwardLot(a, ka) && Sorted(ka, RankLeq) && BestPerAwardLot(b, kb) && Sorted(kb, RankLeq)
    ensures ka == kb
  {
    SameMultisetSameElements(a, b);
    OneBestPerLot(a, ka, b, kb);
    OneBestPerLot(b, kb, a, ka);
    assert NoDuplicates(ka) && NoDuplicates(kb);
    NoDuplicatesSameElements(ka, kb);
    DistinctIdsSeparate(a);
    assert Separates(ka, RankLeq) && Separates(kb, RankLeq);
    SortedIsUnique(ka, kb, RankLeq);
  }

  lemma OneBestPerLot(a: seq<PoolEntry>, ka: seq<PoolEntry>, b: seq<PoolEntry>, kb: seq<PoolEntry>)
    requires (forall x :: x in a <==> x in b) && DistinctMatches(a)
    requires BestPerAwardLot(a, ka) && BestPerAwardLot(b, kb)
    ensures forall x :: x in ka ==> x in kb
  {
    forall x | x in ka ensures x in kb {
      assert BestOfItsLot(a, x);
      assert CoversLot(kb, x.detail.award);
      var y :| y in kb && y.detail.award == x.detail.award;
      assert BestOfItsLot(b, y);
      BetterMatchOrder(x, y, y);
    }
  }

  // ---------- score zones, by rank ----------

  datatype Zone = Top | Middle | Bottom

  function ZoneAt(i: nat, size: nat): Zone {
    if i < size / 3 then Top else if i < 2 * size / 3 then Middle else Bottom
  }

  /** The zone of each id; of two entries with the same id the later one counts. */
  function ZonesOf(ordered: seq<PoolEntry>, size: nat): map<string, Zone> {
    if ordered == [] then map[] else
      var n := |ordered| - 1;
      ZonesOf(ordered[..n], size)[ordered[n].id := ZoneAt(n, size)]
  }

  lemma {:induction false} EveryEntryHasItsZone(ordered: seq<PoolEntry>, size: nat)
    ensures forall e :: e in ordered ==> e.id in ZonesOf(ordered, size)
    ensures DistinctIds(ordered) ==>
      forall i :: 0 <= i < |ordered| ==> ZonesOf(ordered, size)[ordered[i].id] == ZoneAt(i, size)
  {
    if ordered != [] {
      EveryEntryHasItsZone(ordered[..|ordered| - 1], size);
    }
  }

  ghost predicate Zoned(zones: map<string, Zone>, entries: seq<PoolEntry>) {
    forall e :: e in entries ==> e.id in zones
  }
}
