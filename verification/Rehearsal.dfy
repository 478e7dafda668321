/** Preserving rows across a migration rehearsal: every captured row must still be there, with equal canonical
    values. Keys and digests are read in batches; added rows and columns are welcome. */
module Rehearsal {
  import opened Wrappers
  import opened Ordering
  import opened ForeignKeys

  // ---------- canonical values ----------

  datatype Representation = AsInt | AsFloat | AsDecimal

  /** `Other` stands for dates, times, bytes and identifiers, by kind and canonical text. */
  datatype Value =
    | Null | Bool(b: bool) | Number(representation: Representation, number: real) | NonFinite
    | Text(text: string) | Other(kind: string, text: string)
    | Array(items: seq<Value>) | Object(fields: map<string, Value>) | Unsupported

  datatype Canon =
    | CNull | CBool(b: bool) | CNumber(number: real) | CText(text: string) | COther(kind: string, text: string)
    | CArray(items: seq<Canon>) | CObject(fields: map<string, Canon>)

  datatype RehearsalError =
    | ValueUnsupported | NullPrimaryKey | NoPrimaryKey | DuplicateKey | LimitReached | AccountsMissing
    | TableMissing | ColumnMissing | ValueChanged | RowMissing

  /** A number counts by its value, however it is represented; everything else by its kind too. */
  predicate HasCanon(v: Value) {
    match v
    case NonFinite => false
    case Unsupported => false
    case Array(items) => forall i :: 0 <= i < |items| ==> HasCanon(items[i])
    case Object(fields) => forall k :: k in fields ==> HasCanon(fields[k])
    case _ => true
  }

  function Canonical(v: Value): Canon
    requires HasCanon(v)
  {
    match v
    case Null => CNull
    case Bool(b) => CBool(b)
    case Number(_, n) => CNumber(n)
    case Text(t) => CText(t)
    case Other(k, t) => COther(k, t)
    case Array(items) => CArray(seq(|items|, i requires 0 <= i < |items| => Canonical(items[i])))
    case Object(fields) => CObject(map k | k in fields :: Canonical(fields[k]))
  }

  function CanonOf(v: Value): Option<Canon> {
    if HasCanon(v) then Some(Canonical(v)) else None
  }

  // ---------- rows and captured entries ----------

  type Row = map<string, Value>

  datatype Table = Table(columns: set<string>, primaryKey: seq<string>, rows: seq<Row>)

  type Database = map<string, Table>

  ghost predicate WellFormed(t: Table) {
    (forall row :: row in t.rows ==> row.Keys == t.columns) && forall k :: k in t.primaryKey ==> k in t.columns
  }

  type Key = seq<Option<Canon>>

  function KeyOf(row: Row, keys: seq<string>): Key {
    seq(|keys|, i requires 0 <= i < |keys| => if keys[i] in row then CanonOf(row[keys[i]]) else None)
  }

  function Project(row: Row, columns: set<string>): Row {
    map c | c in columns && c in row :: row[c]
  }

  /** The digest of a row identifies its canonical content. */
  function DigestOf(row: Row): Option<Canon> {
    CanonOf(Object(row))
  }

  datatype Entry = Entry(key: Key, digest: Canon)

  // ---------- one batch ----------

  function Selected(batch: seq<Entry>): map<Key, Canon> {
    if batch == [] then map[] else
      var e := batch[|batch| - 1];
      Selected(batch[..|batch| - 1])[e.key := e.digest]
  }

  /** `key IN (...)` */
  function Matching(rows: seq<Row>, keys: seq<string>, selected: set<Key>): seq<Row> {
    if rows == [] then [] else
      var last := rows[|rows| - 1];
      Matching(rows[..|rows| - 1], keys, selected) + if KeyOf(last, keys) in selected then [last] else []
  }

  ghost predicate Unchanged(row: Row, columns: set<string>, digest: Canon) {
    DigestOf(Project(row, columns)) == Some(digest)
  }

  ghost predicate AllUnchanged(rows: seq<Row>, keys: seq<string>, columns: set<string>, selected: map<Key, Canon>) {
    forall row :: row in rows ==> KeyOf(row, keys) in selected && Unchanged(row, columns, selected[KeyOf(row, keys)])
  }

  ghost predicate BatchAccepted(batch: seq<Entry>, keys: seq<string>, columns: set<string>, after: Table) {
    var selected := Selected(batch);
    var matching := Matching(after.rows, keys, selected.Keys);
    AllUnchanged(matching, keys, columns, selected) && |matching| == |selected|
  }

  method CompareBatch(batch: seq<Entry>, keys: seq<string>, columns: set<string>, after: Table)
    returns (r: Result<(), RehearsalError>)
    ensures r.Success? <==> columns <= after.columns && BatchAccepted(batch, keys, columns, after)
    ensures r == Failure(ColumnMissing) <==> !(columns <= after.columns)
    ensures r == Failure(ValueUnsupported) ==>
      exists row :: row in Matching(after.rows, keys, Selected(batch).Keys) && !HasCanon(Object(Project(row, columns)))
    ensures r.Failure? ==> r.error in {ColumnMissing, ValueUnsupported, ValueChanged, RowMissing}
    ensures r == Failure(RowMissing) <==>
      columns <= after.columns && !BatchAccepted(batch, keys, columns, after)
      && AllUnchanged(Matching(after.rows, keys, Selected(batch).Keys), keys, columns, Selected(batch))
  {
    if !(columns <= after.columns) { return Failure(ColumnMissing); }
    var selected := Selected(batch);
    var matching := Matching(after.rows, keys, selected.Keys);
    MatchingMembers(after.rows, keys, selected.Keys);
    for i := 0 to |matching|
      invariant AllUnchanged(matching[..i], keys, columns, selected)
    {
      var row := matching[i];
      assert row in matching && KeyOf(row, keys) in selected;
      var digest := DigestOf(Project(row, columns));
      if digest == None { return Failure(ValueUnsupported); }
      if digest != Some(selected[KeyOf(row, keys)]) { return Failure(ValueChanged); }
      assert matching[..i + 1] == matching[..i] + [row];
    }
    assert matching[..|matching|] == matching;
    if |matching| != |selected| { return Failure(RowMissing); }
    r := Success(());
  }

  lemma {:induction false} MatchingMembers(rows: seq<Row>, keys: seq<string>, selected: set<Key>)
    ensures forall row :: row in Matching(rows, keys, selected) <==> row in rows && KeyOf(row, keys) in selected
  {
    if rows != [] {
      MatchingMembers(rows[..|rows| - 1], keys, selected);
      assert rows == rows[..|rows| - 1] + [rows[|rows| - 1]];
    }
  }

  // ---------- what a batch is meant to check ----------

  /** A row with this key is still there, with equal canonical values in every captured column. */
  ghost predicate Kept(after: Table, keys: seq<string>, columns: set<string>, e: Entry) {
    exists row :: row in after.rows && KeyOf(row, keys) == e.key && Unchanged(row, columns, e.digest)
  }

  ghost predicate AllKept(after: Table, keys: seq<string>, columns: set<string>, entries: seq<Entry>) {
    forall e :: e in entries ==> Kept(after, keys, columns, e)
  }

  /** No two rows share one of these keys. */
  ghost predicate UniqueOn(rows: seq<Row>, keys: seq<string>, selected: set<Key>) {
    forall i, j :: 0 <= i < j < |rows| && KeyOf(rows[i], keys) == KeyOf(rows[j], keys) ==> KeyOf(rows[i], keys) !in selected
  }

  ghost predicate DistinctKeys(entries: seq<Entry>) {
    forall i, j :: 0 <= i < j < |entries| ==> entries[i].key != entries[j].key
  }

  function KeysOf(rows: seq<Row>, keys: seq<string>): seq<Key> {
    seq(|rows|, i requires 0 <= i < |rows| => KeyOf(rows[i], keys))
  }

  function Elements<T>(s: seq<T>): set<T> {
    set x | x in s
  }

  lemma {:induction false} DistinctCount<T>(s: seq<T>)
    ensures |Elements(s)| <= |s|
    ensures |Elements(s)| == |s| <==> NoDuplicates(s)
  {
    if s != [] {
      var init, last := s[..|s| - 1], s[|s| - 1];
      DistinctCount(init);
      assert s == init + [last];
      assert Elements(s) == Elements(init) + {last};
      if last in init {
        assert Elements(s) == Elements(init);
        var i :| 0 <= i < |init| && init[i] == last;
        assert s[i] == s[|s| - 1];
      }
    }
  }

  lemma {:induction false} MatchingIsDistinct(rows: seq<Row>, keys: seq<string>, selected: set<Key>)
    ensures NoDuplicates(KeysOf(Matching(rows, keys, selected), keys)) <==> UniqueOn(rows, keys, selected)
  {
    if rows != [] {
      var init, last := rows[..|rows| - 1], rows[|rows| - 1];
      MatchingIsDistinct(init, keys, selected);
      LastIsNew(init, keys, selected, last);
      assert rows == init + [last];
    }
  }

  ghost predicate NoRowHas(rows: seq<Row>, keys: seq<string>, k: Key) {
    forall row :: row in rows ==> KeyOf(row, keys) != k
  }

  lemma KeyIsListed(rows: seq<Row>, keys: seq<string>, k: Key)
    ensures k !in KeysOf(rows, keys) <==> NoRowHas(rows, keys, k)
  {
    if !NoRowHas(rows, keys, k) {
      var row :| row in rows && KeyOf(row, keys) == k;
      var i :| 0 <= i < |rows| && rows[i] == row;
      assert KeysOf(rows, keys)[i] == k;
    }
    if k in KeysOf(rows, keys) {
      var i :| 0 <= i < |rows| && KeysOf(rows, keys)[i] == k;
      assert rows[i] in rows;
    }
  }

  lemma MatchingHas(rows: seq<Row>, keys: seq<string>, selected: set<Key>, k: Key)
    requires k in selected
    ensures NoRowHas(Matching(rows, keys, selected), keys, k) <==> NoRowHas(rows, keys, k)
  {
    MatchingMembers(rows, keys, selected);
  }

  lemma LastIsNew(init: seq<Row>, keys: seq<string>, selected: set<Key>, last: Row)
    requires NoDuplicates(KeysOf(Matching(init, keys, selected), keys)) <==> UniqueOn(init, keys, selected)
    ensures NoDuplicates(KeysOf(Matching(init + [last], keys, selected), keys)) <==> UniqueOn(init + [last], keys, selected)
  {
    var before, k := Matching(init, keys, selected), KeyOf(last, keys);
    assert (init + [last])[..|init|] == init;
    AppendUnique(init, keys, selected, last);
    if k in selected {
      assert Matching(init + [last], keys, selected) == before + [last];
      assert KeysOf(before + [last], keys) == KeysOf(before, keys) + [k];
      AppendDistinct(KeysOf(before, keys), k);
      KeyIsListed(before, keys, k);
      MatchingHas(init, keys, selected, k);
    } else {
      assert Matching(init + [last], keys, selected) == before;
    }
  }

  lemma AppendDistinct<T>(s: seq<T>, x: T)
    ensures NoDuplicates(s + [x]) <==> NoDuplicates(s) && x !in s
  {
    if NoDuplicates(s + [x]) {
      forall i, j | 0 <= i < j < |s| ensures s[i] != s[j] {
        assert (s + [x])[i] != (s + [x])[j];
      }
      forall i | 0 <= i < |s| ensures s[i] != x {
        assert (s + [x])[i] != (s + [x])[|s|];
      }
    }
  }

  lemma AppendUnique(init: seq<Row>, keys: seq<string>, selected: set<Key>, last: Row)
    ensures UniqueOn(init + [last], keys, selected) <==>
      UniqueOn(init, keys, selected)
      && (KeyOf(last, keys) in selected ==> NoRowHas(init, keys, KeyOf(last, keys)))
  {
    var rows := init + [last];
    if UniqueOn(rows, keys, selected) {
      forall i, j | 0 <= i < j < |init| && KeyOf(init[i], keys) == KeyOf(init[j], keys) ensures KeyOf(init[i], keys) !in selected {
        assert KeyOf(rows[i], keys) == KeyOf(rows[j], keys);
      }
      forall row | row in init && KeyOf(last, keys) in selected ensures KeyOf(row, keys) != KeyOf(last, keys) {
        var i :| 0 <= i < |init| && init[i] == row;
        assert rows[i] == row && rows[|init|] == last;
      }
    }
  }

  // ---------- one batch, exactly ----------

  function EntryKeys(batch: seq<Entry>): set<Key> {
    set e | e in batch :: e.key
  }

  lemma {:induction false} SelectedKeys(batch: seq<Entry>)
    ensures Selected(batch).Keys == EntryKeys(batch)
  {
    if batch != [] {
      var init, last := batch[..|batch| - 1], batch[|batch| - 1];
      SelectedKeys(init);
      assert batch == init + [last];
      assert EntryKeys(batch) == EntryKeys(init) + {last.key};
    }
  }

  lemma LastKeyIsNew(batch: seq<Entry>)
    requires DistinctKeys(batch) && batch != []
    ensures DistinctKeys(batch[..|batch| - 1]) && batch[|batch| - 1].key !in EntryKeys(batch[..|batch| - 1])
  {
    var init, last := batch[..|batch| - 1], batch[|batch| - 1];
    forall i | 0 <= i < |init| ensures init[i].key != last.key {
      assert batch[i].key != batch[|batch| - 1].key;
    }
  }

  lemma {:induction false} SelectedHolds(batch: seq<Entry>)
    requires DistinctKeys(batch)
    ensures |Selected(batch)| == |batch|
    ensures forall e :: e in batch ==> e.key in Selected(batch) && Selected(batch)[e.key] == e.digest
  {
    if batch != [] {
      var init, last := batch[..|batch| - 1], batch[|batch| - 1];
      LastKeyIsNew(batch);
      SelectedKeys(init);
      SelectedHolds(init);
      forall e | e in batch ensures e.key in Selected(batch) && Selected(batch)[e.key] == e.digest {
        assert e == last || e in init;
      }
    }
  }

  /** With everything that matches unchanged, an entry is kept exactly when some row has its key. */
  lemma KeptIffFound(batch: seq<Entry>, keys: seq<string>, columns: set<string>, after: Table, e: Entry)
    requires DistinctKeys(batch) && e in batch
    requires AllUnchanged(Matching(after.rows, keys, Selected(batch).Keys), keys, columns, Selected(batch))
    ensures Kept(after, keys, columns, e) <==> !NoRowHas(after.rows, keys, e.key)
  {
    SelectedHolds(batch);
    MatchingMembers(after.rows, keys, Selected(batch).Keys);
  }

  lemma MatchedKeys(batch: seq<Entry>, keys: seq<string>, after: Table)
    requires DistinctKeys(batch)
    ensures var selected := Selected(batch).Keys; var matched := Elements(KeysOf(Matching(after.rows, keys, selected), keys));
      && matched <= selected
      && (matched == selected <==> forall e :: e in batch ==> !NoRowHas(after.rows, keys, e.key))
  {
    var selected := Selected(batch).Keys;
    var matching := Matching(after.rows, keys, selected);
    var matched := Elements(KeysOf(matching, keys));
    SelectedKeys(batch);
    MatchingMembers(after.rows, keys, selected);
    forall k | k in matched ensures k in selected {
      var i :| 0 <= i < |matching| && KeysOf(matching, keys)[i] == k;
      assert matching[i] in matching;
    }
    forall k | k in selected ensures k in matched <==> !NoRowHas(after.rows, keys, k) {
      MatchingHas(after.rows, keys, selected, k);
      KeyIsListed(matching, keys, k);
    }
    if matched == selected {
      forall e | e in batch ensures !NoRowHas(after.rows, keys, e.key) {
        assert e.key in selected;
      }
    }
  }

  /** A batch is accepted exactly when all its rows are kept, provided its keys are still unique; and when they
      are not, a batch whose rows are all kept is refused. */
  lemma BatchIsExact(batch: seq<Entry>, keys: seq<string>, columns: set<string>, after: Table)
    requires DistinctKeys(batch)
    ensures UniqueOn(after.rows, keys, Selected(batch).Keys) ==>
      (BatchAccepted(batch, keys, columns, after) <==> AllKept(after, keys, columns, batch))
    ensures !UniqueOn(after.rows, keys, Selected(batch).Keys) ==>
      !(BatchAccepted(batch, keys, columns, after) && AllKept(after, keys, columns, batch))
  {
    var selected := Selected(batch);
    var matching := Matching(after.rows, keys, selected.Keys);
    var listed := KeysOf(matching, keys);
    var unique := UniqueOn(after.rows, keys, selected.Keys);
    MatchingIsDistinct(after.rows, keys, selected.Keys);
    DistinctCount(listed);
    MatchedKeys(batch, keys, after);
    SubsetCount(Elements(listed), selected.Keys);
    assert |listed| == |matching| && |selected.Keys| == |selected|;
    if AllUnchanged(matching, keys, columns, selected) {
      forall e | e in batch ensures Kept(after, keys, columns, e) <==> !NoRowHas(after.rows, keys, e.key) {
        KeptIffFound(batch, keys, columns, after, e);
      }
      assert AllKept(after, keys, columns, batch) <==> Elements(listed) == selected.Keys;
    } else if unique && AllKept(after, keys, columns, batch) {
      KeptRowsAreUnchanged(batch, keys, columns, after);
    }
  }

  lemma OneRowPerKey(rows: seq<Row>, keys: seq<string>, selected: set<Key>, a: Row, b: Row)
    requires UniqueOn(rows, keys, selected) && a in rows && b in rows
    requires KeyOf(a, keys) == KeyOf(b, keys) && KeyOf(a, keys) in selected
    ensures a == b
  {
    var i :| 0 <= i < |rows| && rows[i] == a;
    var j :| 0 <= j < |rows| && rows[j] == b;
    assert i == j || KeyOf(rows[i], keys) == KeyOf(rows[j], keys);
  }

  lemma KeptRowsAreUnchanged(batch: seq<Entry>, keys: seq<string>, columns: set<string>, after: Table)
    requires DistinctKeys(batch) && AllKept(after, keys, columns, batch)
    requires UniqueOn(after.rows, keys, Selected(batch).Keys)
    ensures AllUnchanged(Matching(after.rows, keys, Selected(batch).Keys), keys, columns, Selected(batch))
  {
    var selected := Selected(batch);
    SelectedHolds(batch);
    SelectedKeys(batch);
    MatchingMembers(after.rows, keys, selected.Keys);
    forall row | row in Matching(after.rows, keys, selected.Keys)
      ensures KeyOf(row, keys) in selected && Unchanged(row, columns, selected[KeyOf(row, keys)])
    {
      var e :| e in batch && e.key == KeyOf(row, keys);
      assert Kept(after, keys, columns, e);
      var kept :| kept in after.rows && KeyOf(kept, keys) == e.key && Unchanged(kept, columns, e.digest);
      OneRowPerKey(after.rows, keys, selected.Keys, row, kept);
    }
  }

  // ---------- any batching ----------

  function Flatten(batches: seq<seq<Entry>>): seq<Entry> {
    if batches == [] then [] else batches[0] + Flatten(batches[1..])
  }

  ghost predicate AllAccepted(batches: seq<seq<Entry>>, keys: seq<string>, columns: set<string>, after: Table) {
    forall i :: 0 <= i < |batches| ==> BatchAccepted(batches[i], keys, columns, after)
  }

  lemma {:induction false} FlattenMembers(batches: seq<seq<Entry>>, e: Entry)
    ensures e in Flatten(batches) <==> exists i :: 0 <= i < |batches| && e in batches[i]
  {
    if batches != [] {
      FlattenMembers(batches[1..], e);
      assert batches == [batches[0]] + batches[1..];
      if i :| 0 <= i < |batches| && e in batches[i] {
        assert i > 0 ==> batches[1..][i - 1] == batches[i];
      }
    }
  }

  lemma {:induction false} BatchesAreDistinct(batches: seq<seq<Entry>>, i: nat)
    requires DistinctKeys(Flatten(batches)) && i < |batches|
    ensures DistinctKeys(batches[i])
  {
    var all, rest := Flatten(batches), Flatten(batches[1..]);
    if i == 0 {
      assert forall j :: 0 <= j < |batches[0]| ==> all[j] == batches[0][j];
    } else {
      assert forall j :: 0 <= j < |rest| ==> all[|batches[0]| + j] == rest[j];
      BatchesAreDistinct(batches[1..], i - 1);
    }
  }

  /** At most `n` at a time. */
  function Chunks(entries: seq<Entry>, n: nat): seq<seq<Entry>>
    requires n > 0
  {
    if entries == [] then []
    else if |entries| <= n then [entries]
    else [entries[..n]] + Chunks(entries[n..], n)
  }

  lemma FirstChunk(entries: seq<Entry>, n: nat)
    requires entries != [] && n == if |entries| <= BASELINE_BATCH_ROWS then |entries| else BASELINE_BATCH_ROWS
    ensures Chunks(entries, BASELINE_BATCH_ROWS) == [entries[..n]] + Chunks(entries[n..], BASELINE_BATCH_ROWS)
  {
    if |entries| <= BASELINE_BATCH_ROWS { assert entries[..n] == entries; }
  }

  lemma {:induction false} ChunksFlatten(entries: seq<Entry>, n: nat)
    requires n > 0
    ensures Flatten(Chunks(entries, n)) == entries
    ensures forall b :: b in Chunks(entries, n) ==> 0 < |b| <= n
  {
    if |entries| > n {
      ChunksFlatten(entries[n..], n);
      assert ([entries[..n]] + Chunks(entries[n..], n))[1..] == Chunks(entries[n..], n);
    } else if entries != [] {
      assert [entries][1..] == [];
    }
  }

  lemma SelectedWithin(batches: seq<seq<Entry>>, i: nat, rows: seq<Row>, keys: seq<string>)
    requires i < |batches| && UniqueOn(rows, keys, EntryKeys(Flatten(batches)))
    ensures UniqueOn(rows, keys, Selected(batches[i]).Keys)
  {
    SelectedKeys(batches[i]);
    forall e | e in batches[i] ensures e.key in EntryKeys(Flatten(batches)) {
      FlattenMembers(batches, e);
    }
  }

  /** However the entries are batched: while their keys are unique, all batches are accepted exactly when all
      rows are kept. */
  lemma BatchingIsExact(batches: seq<seq<Entry>>, keys: seq<string>, columns: set<string>, after: Table)
    requires DistinctKeys(Flatten(batches)) && UniqueOn(after.rows, keys, EntryKeys(Flatten(batches)))
    ensures AllAccepted(batches, keys, columns, after) <==> AllKept(after, keys, columns, Flatten(batches))
  {
    forall i | 0 <= i < |batches|
      ensures BatchAccepted(batches[i], keys, columns, after) <==> AllKept(after, keys, columns, batches[i])
    {
      BatchesAreDistinct(batches, i);
      SelectedWithin(batches, i, after.rows, keys);
      BatchIsExact(batches[i], keys, columns, after);
    }
    forall e ensures e in Flatten(batches) <==> exists i :: 0 <= i < |batches| && e in batches[i] {
      FlattenMembers(batches, e);
    }
  }

  /** Unique keys decide both ways: preserved rows are accepted if and only if their keys are still unique, and
      accepted batches are preserved if and only if their keys are. */
  lemma BatchingIsExactIff(batches: seq<seq<Entry>>, keys: seq<string>, columns: set<string>, after: Table)
    requires DistinctKeys(Flatten(batches))
    ensures AllKept(after, keys, columns, Flatten(batches)) ==>
      (AllAccepted(batches, keys, columns, after) <==> UniqueOn(after.rows, keys, EntryKeys(Flatten(batches))))
    ensures AllAccepted(batches, keys, columns, after) ==>
      (AllKept(after, keys, columns, Flatten(batches)) <==> UniqueOn(after.rows, keys, EntryKeys(Flatten(batches))))
  {
    if UniqueOn(after.rows, keys, EntryKeys(Flatten(batches))) {
      BatchingIsExact(batches, keys, columns, after);
    } else {
      var i, j :| 0 <= i < j < |after.rows| && KeyOf(after.rows[i], keys) == KeyOf(after.rows[j], keys)
        && KeyOf(after.rows[i], keys) in EntryKeys(Flatten(batches));
      var e :| e in Flatten(batches) && e.key == KeyOf(after.rows[i], keys);
      FlattenMembers(batches, e);
      var b :| 0 <= b < |batches| && e in batches[b];
      BatchesAreDistinct(batches, b);
      SelectedKeys(batches[b]);
      BatchIsExact(batches[b], keys, columns, after);
      if AllKept(after, keys, columns, Flatten(batches)) {
        forall f | f in batches[b] ensures Kept(after, keys, columns, f) {
          FlattenMembers(batches, f);
        }
      }
    }
  }

  /** A key that is no longer unique can hide a lost row: one kept row that appears twice stands in for another. */
  lemma DuplicateHidesLoss(row: Row, lost: Row, keys: seq<string>, columns: set<string>)
    requires HasCanon(Object(row)) && HasCanon(Object(lost)) && row.Keys == columns
    requires KeyOf(row, keys) != KeyOf(lost, keys)
    ensures var batch := [Entry(KeyOf(row, keys), Canonical(Object(row))), Entry(KeyOf(lost, keys), Canonical(Object(lost)))];
      var after := Table(columns, keys, [row, row]);
      && DistinctKeys(batch) && BatchAccepted(batch, keys, columns, after)
      && !Kept(after, keys, columns, batch[1])
  {
    var e, f := Entry(KeyOf(row, keys), Canonical(Object(row))), Entry(KeyOf(lost, keys), Canonical(Object(lost)));
    var batch := [e, f];
    SelectedPair(e, f);
    MatchingTwice(row, keys, Selected(batch).Keys);
    assert Project(row, columns) == row;
  }

  lemma SelectedPair(e: Entry, f: Entry)
    requires e.key != f.key
    ensures Selected([e, f]) == map[e.key := e.digest, f.key := f.digest] && |Selected([e, f])| == 2
  {
    assert [e, f][..1] == [e] && [e][..0] == [];
    assert Selected([e]) == map[e.key := e.digest];
  }

  lemma MatchingTwice(row: Row, keys: seq<string>, selected: set<Key>)
    requires KeyOf(row, keys) in selected
    ensures Matching([row, row], keys, selected) == [row, row]
  {
    assert [row, row][..1] == [row] && [row][..0] == [];
    assert Matching([row], keys, selected) == [row];
  }

  // ---------- capturing ----------

  ghost predicate Capturable(row: Row, keys: seq<string>) {
    HasCanon(Object(row)) && forall k :: k in keys ==> k in row && row[k] != Null
  }

  ghost predicate AllCapturable(rows: seq<Row>, keys: seq<string>) {
    forall row :: row in rows ==> Capturable(row, keys)
  }

  ghost function EntriesOf(rows: seq<Row>, keys: seq<string>): seq<Entry>
    requires AllCapturable(rows, keys)
  {
    seq(|rows|, i requires 0 <= i < |rows| =>
      assert rows[i] in rows && Capturable(rows[i], keys);
      Entry(KeyOf(rows[i], keys), Canonical(Object(rows[i]))))
  }

  datatype TableMeta = TableMeta(keys: seq<string>, columns: set<string>, rowCount: nat)

  datatype Fingerprint = Fingerprint(table: string, entry: Entry)

  const BASELINE_BATCH_ROWS := 128

  function EntriesFor(store: seq<Fingerprint>, table: string): seq<Entry> {
    if store == [] then [] else
      var last := store[|store| - 1];
      EntriesFor(store[..|store| - 1], table) + if last.table == table then [last.entry] else []
  }

  lemma EntriesWithOneMore(store: seq<Fingerprint>, f: Fingerprint)
    ensures forall table :: EntriesFor(store + [f], table) == EntriesFor(store, table) + if f.table == table then [f.entry] else []
  {
    assert (store + [f])[..|store|] == store;
  }

  /** Metadata in memory, and one fingerprint for each captured row. */
  class PrivateBaseline {
    var tables: map<string, TableMeta>
    var store: seq<Fingerprint>

    constructor ()
      ensures tables == map[] && store == []
    {
      tables, store := map[], [];
    }

    method Add(name: string, keys: seq<string>, row: Row) returns (r: Result<(), RehearsalError>)
      requires forall k :: k in keys ==> k in row
      modifies this`store
      ensures r.Success? <==>
        Capturable(row, keys) && forall e :: e in EntriesFor(old(store), name) ==> e.key != KeyOf(row, keys)
      ensures r == Failure(NullPrimaryKey) <==> exists k :: k in keys && row[k] == Null
      ensures r == Failure(ValueUnsupported) <==> (forall k :: k in keys ==> row[k] != Null) && !HasCanon(Object(row))
      ensures r.Failure? ==> r.error in {NullPrimaryKey, ValueUnsupported, DuplicateKey}
      ensures r.Success? ==>
        store == old(store) + [Fingerprint(name, Entry(KeyOf(row, keys), Canonical(Object(row))))]
      ensures r.Failure? ==> store == old(store)
    {
      if exists k :: k in keys && row[k] == Null { return Failure(NullPrimaryKey); }
      var digest := DigestOf(row);
      if digest == None { return Failure(ValueUnsupported); }
      var key := KeyOf(row, keys);
      if exists e :: e in EntriesFor(store, name) && e.key == key { return Failure(DuplicateKey); }
      store := store + [Fingerprint(name, Entry(key, digest.value))];
      r := Success(());
    }

    /** One table is captured whole or not at all: every row must have a key, a digest and, under a limit,
        its place. */
    method Capture(name: string, table: Table, limit: Option<nat>) returns (r: Result<(), RehearsalError>)
      requires WellFormed(table) && EntriesFor(store, name) == []
      modifies this
      ensures r.Success? <==> MayCapture(table, limit)
      ensures r != Failure(AccountsMissing)
      ensures r == Failure(NoPrimaryKey) <==> table.primaryKey == []
      ensures r.Success? ==>
        name in tables && tables == old(tables)[name := tables[name]]
        && CapturedFrom(table, EntriesFor(store, name), tables[name])
      ensures forall other :: other != name ==> EntriesFor(store, other) == EntriesFor(old(store), other)
    {
      if table.primaryKey == [] { return Failure(NoPrimaryKey); }
      r := CaptureRows(name, table, limit);
      if r.Success? {
        tables := tables[name := TableMeta(table.primaryKey, table.columns, |table.rows|)];
      }
    }

    method CaptureRows(name: string, table: Table, limit: Option<nat>) returns (r: Result<(), RehearsalError>)
      requires WellFormed(table) && EntriesFor(store, name) == []
      modifies this`store
      ensures r.Success? <==>
        AllCapturable(table.rows, table.primaryKey) && DistinctRowKeys(table.rows, table.primaryKey)
        && (limit.Some? ==> |table.rows| <= limit.value)
      ensures r != Failure(NoPrimaryKey) && r != Failure(AccountsMissing)
      ensures r.Success? ==> CapturedSoFar(table.rows, table.primaryKey, EntriesFor(store, name))
      ensures forall other :: other != name ==> EntriesFor(store, other) == EntriesFor(old(store), other)
    {
      var keys := table.primaryKey;
      for i := 0 to |table.rows|
        invariant limit.Some? ==> i <= limit.value
        invariant CapturedSoFar(table.rows[..i], keys, EntriesFor(store, name))
        invariant forall other :: other != name ==> EntriesFor(store, other) == EntriesFor(old(store), other)
      {
        var row := table.rows[i];
        assert row in table.rows;
        if limit.Some? && i + 1 > limit.value { return Failure(LimitReached); }
        assert table.rows[..i + 1] == table.rows[..i] + [row];
        CaptureOneMore(table.rows[..i], keys, EntriesFor(store, name), row);
        ghost var before := store;
        var added := Add(name, keys, row);
        if added.Failure? {
          RefusedRow(table.rows, keys, i, EntriesFor(store, name));
          return added;
        }
        EntriesWithOneMore(before, Fingerprint(name, Entry(KeyOf(row, keys), Canonical(Object(row)))));
      }
      assert table.rows[..|table.rows|] == table.rows;
      r := Success(());
    }

    /** All entries of a table, `BASELINE_BATCH_ROWS` at a time. */
    method Batches(name: string) returns (batches: seq<seq<Entry>>)
      ensures batches == Chunks(EntriesFor(store, name), BASELINE_BATCH_ROWS)
    {
      var rest := EntriesFor(store, name);
      batches := [];
      while rest != []
        invariant Chunks(EntriesFor(store, name), BASELINE_BATCH_ROWS) == batches + Chunks(rest, BASELINE_BATCH_ROWS)
        decreases |rest|
      {
        var n := if |rest| <= BASELINE_BATCH_ROWS then |rest| else BASELINE_BATCH_ROWS;
        FirstChunk(rest, n);
        assert batches + ([rest[..n]] + Chunks(rest[n..], BASELINE_BATCH_ROWS))
          == batches + [rest[..n]] + Chunks(rest[n..], BASELINE_BATCH_ROWS);
        batches, rest := batches + [rest[..n]], rest[n..];
      }
      assert batches + [] == batches;
    }

    method Compare(after: Database) returns (r: Result<(), RehearsalError>)
      ensures r.Success? <==>
        forall name :: name in tables ==> name in after && TableAccepted(EntriesFor(store, name), tables[name], after[name])
      ensures r == Failure(TableMissing) ==> exists name :: name in tables && name !in after
    {
      var rest := tables.Keys;
      ghost var done: set<string> := {};
      while rest != {}
        invariant done + rest == tables.Keys
        invariant forall name :: name in done ==>
          name in after && TableAccepted(EntriesFor(store, name), tables[name], after[name])
      {
        var name :| name in rest;
        if name !in after { return Failure(TableMissing); }
        var checked := CompareTable(name, tables[name], after[name]);
        if checked.Failure? { return checked; }
        done, rest := done + {name}, rest - {name};
      }
      r := Success(());
    }

    method CompareTable(name: string, meta: TableMeta, after: Table) returns (r: Result<(), RehearsalError>)
      ensures r.Success? <==> TableAccepted(EntriesFor(store, name), meta, after)
      ensures r != Failure(TableMissing)
    {
      var batches := Batches(name);
      for i := 0 to |batches|
        invariant forall j :: 0 <= j < i ==> BatchAccepted(batches[j], meta.keys, meta.columns, after)
        invariant i > 0 ==> meta.columns <= after.columns
      {
        var checked := CompareBatch(batches[i], meta.keys, meta.columns, after);
        if checked.Failure? { return checked; }
      }
      r := Success(());
    }
  }

  /** Every batch is accepted; without any batch the columns are not even looked at. */
  ghost predicate TableAccepted(entries: seq<Entry>, meta: TableMeta, after: Table) {
    var batches := Chunks(entries, BASELINE_BATCH_ROWS);
    AllAccepted(batches, meta.keys, meta.columns, after) && (batches != [] ==> meta.columns <= after.columns)
  }

  // ---------- the whole rehearsal ----------

  ghost predicate DistinctRowKeys(rows: seq<Row>, keys: seq<string>) {
    forall i, j :: 0 <= i < j < |rows| ==> KeyOf(rows[i], keys) != KeyOf(rows[j], keys)
  }

  ghost predicate MayCapture(t: Table, limit: Option<nat>) {
    && t.primaryKey != [] && AllCapturable(t.rows, t.primaryKey) && DistinctRowKeys(t.rows, t.primaryKey)
    && (limit.Some? ==> |t.rows| <= limit.value)
  }

  ghost predicate CapturedSoFar(rows: seq<Row>, keys: seq<string>, entries: seq<Entry>) {
    AllCapturable(rows, keys) && entries == EntriesOf(rows, keys) && DistinctKeys(entries) && DistinctRowKeys(rows, keys)
  }

  lemma CaptureOneMore(rows: seq<Row>, keys: seq<string>, entries: seq<Entry>, row: Row)
    requires CapturedSoFar(rows, keys, entries)
    ensures Capturable(row, keys) && (forall e :: e in entries ==> e.key != KeyOf(row, keys)) ==>
      CapturedSoFar(rows + [row], keys, entries + [Entry(KeyOf(row, keys), Canonical(Object(row)))])
  {
    if Capturable(row, keys) && (forall e :: e in entries ==> e.key != KeyOf(row, keys)) {
      var e := Entry(KeyOf(row, keys), Canonical(Object(row)));
      forall i | 0 <= i < |rows| ensures KeyOf(rows[i], keys) != KeyOf(row, keys) {
        assert entries[i] in entries;
      }
      assert EntriesOf(rows + [row], keys) == entries + [e];
    }
  }

  lemma RefusedRow(rows: seq<Row>, keys: seq<string>, i: nat, entries: seq<Entry>)
    requires i < |rows| && CapturedSoFar(rows[..i], keys, entries)
    requires !Capturable(rows[i], keys) || exists e :: e in entries && e.key == KeyOf(rows[i], keys)
    ensures !(AllCapturable(rows, keys) && DistinctRowKeys(rows, keys))
  {
    assert rows[i] in rows;
    if e :| e in entries && e.key == KeyOf(rows[i], keys) {
      var j :| 0 <= j < |entries| && entries[j] == e;
      assert KeyOf(rows[j], keys) == KeyOf(rows[i], keys);
    }
  }

  /** The entries captured from a table. */
  ghost predicate CapturedFrom(before: Table, entries: seq<Entry>, meta: TableMeta) {
    && WellFormed(before) && AllCapturable(before.rows, before.primaryKey)
    && meta == TableMeta(before.primaryKey, before.columns, |before.rows|)
    && entries == EntriesOf(before.rows, before.primaryKey) && DistinctKeys(entries)
  }

  /** A row of the old table is still in the new one: same key, equal canonical values in all old columns. */
  ghost predicate Survives(before: Table, after: Table, row: Row) {
    && HasCanon(Object(row))
    && exists x ::
         x in after.rows && KeyOf(x, before.primaryKey) == KeyOf(row, before.primaryKey)
         && Unchanged(x, before.columns, Canonical(Object(row)))
  }

  ghost predicate Preserved(before: Table, after: Table) {
    forall row :: row in before.rows ==> Survives(before, after, row)
  }

  lemma PreservedIsAllKept(before: Table, after: Table, entries: seq<Entry>, meta: TableMeta)
    requires CapturedFrom(before, entries, meta)
    ensures Preserved(before, after) <==> AllKept(after, meta.keys, meta.columns, entries)
  {
    forall i | 0 <= i < |before.rows|
      ensures Capturable(before.rows[i], before.primaryKey)
      ensures Survives(before, after, before.rows[i]) <==> Kept(after, meta.keys, meta.columns, entries[i])
    {
      assert before.rows[i] in before.rows;
    }
    if Preserved(before, after) {
      forall e | e in entries ensures Kept(after, meta.keys, meta.columns, e) {
        var i :| 0 <= i < |entries| && entries[i] == e;
        assert before.rows[i] in before.rows;
      }
    }
    if AllKept(after, meta.keys, meta.columns, entries) {
      forall row | row in before.rows ensures Capturable(row, before.primaryKey) && Survives(before, after, row) {
        var i :| 0 <= i < |before.rows| && before.rows[i] == row;
        assert entries[i] in entries;
      }
    }
  }

  /** A row that lost a column has lost its digest. */
  lemma LostColumnIsNoticed(row: Row, columns: set<string>, original: Row)
    requires HasCanon(Object(original)) && original.Keys == columns && !(columns <= row.Keys)
    ensures !Unchanged(row, columns, Canonical(Object(original)))
  {
    var projected := Object(Project(row, columns));
    if HasCanon(projected) {
      assert Canonical(projected).fields.Keys == Project(row, columns).Keys;
      assert Canonical(Object(original)).fields.Keys == columns;
    }
  }

  lemma MissingColumnIsLoss(before: Table, after: Table, entries: seq<Entry>, meta: TableMeta)
    requires CapturedFrom(before, entries, meta) && WellFormed(after) && entries != []
    requires !(before.columns <= after.columns)
    ensures !Preserved(before, after)
  {
    var row := before.rows[0];
    assert row in before.rows && Capturable(row, before.primaryKey);
    forall x | x in after.rows ensures !Unchanged(x, before.columns, Canonical(Object(row))) {
      LostColumnIsNoticed(x, before.columns, row);
    }
    assert !Survives(before, after, row);
  }

  /** The comparison accepts a table exactly when every captured row still exists with equal canonical values,
      whatever rows and columns were added, provided the old key is still unique. */
  lemma ComparisonIsExact(before: Table, after: Table, entries: seq<Entry>, meta: TableMeta)
    requires CapturedFrom(before, entries, meta) && WellFormed(after)
    requires UniqueOn(after.rows, before.primaryKey, EntryKeys(entries))
    ensures TableAccepted(entries, meta, after) <==> Preserved(before, after)
  {
    ChunksFlatten(entries, BASELINE_BATCH_ROWS);
    BatchingIsExact(Chunks(entries, BASELINE_BATCH_ROWS), meta.keys, meta.columns, after);
    PreservedIsAllKept(before, after, entries, meta);
    if entries != [] && !(before.columns <= after.columns) {
      MissingColumnIsLoss(before, after, entries, meta);
    }
  }

  ghost predicate CapturedTable(db: Database, tables: map<string, TableMeta>, store: seq<Fingerprint>, name: string)
    requires name in tables
  {
    name in db && CapturedFrom(db[name], EntriesFor(store, name), tables[name])
  }

  ghost predicate AllCaptured(db: Database, tables: map<string, TableMeta>, store: seq<Fingerprint>) {
    forall name {:trigger CapturedTable(db, tables, store, name)} :: name in tables ==> CapturedTable(db, tables, store, name)
  }

  /** The same for the whole database, as `PrivateBaseline.Compare` decides it. */
  lemma WholeComparisonIsExact(
    before: Database, after: Database, tables: map<string, TableMeta>, store: seq<Fingerprint>)
    requires AllCaptured(before, tables, store)
    requires forall name :: name in tables && name in after ==>
      (name in before && WellFormed(after[name])
       && UniqueOn(after[name].rows, before[name].primaryKey, EntryKeys(EntriesFor(store, name))))
    ensures (forall name :: name in tables ==> name in after && TableAccepted(EntriesFor(store, name), tables[name], after[name]))
      <==> (forall name :: name in tables ==> name in after && name in before && Preserved(before[name], after[name]))
  {
    forall name | name in tables && name in after
      ensures TableAccepted(EntriesFor(store, name), tables[name], after[name]) <==> Preserved(before[name], after[name])
    {
      assert CapturedTable(before, tables, store, name);
      ComparisonIsExact(before[name], after[name], EntriesFor(store, name), tables[name]);
    }
  }

  /** The schema a database presents. */
  ghost predicate Describes(s: Schema, db: Database) {
    && Valid(s) && s.names == db.Keys
    && forall name :: name in db ==> WellFormed(db[name]) && (name in s.accountTables <==> "account_id" in db[name].columns)
  }

  ghost predicate ToPreserve(s: Schema, extra: set<string>, name: string)
    requires Valid(s)
  {
    Private(s, name) || (name in extra && name in s.names)
  }

  lemma StayCaptured(db: Database, tables: map<string, TableMeta>, store: seq<Fingerprint>,
                     after: map<string, TableMeta>, more: seq<Fingerprint>, name: string)
    requires AllCaptured(db, tables, store) && name in after && after == tables[name := after[name]]
    requires CapturedTable(db, after, more, name)
    requires forall other :: other != name ==> EntriesFor(more, other) == EntriesFor(store, other)
    ensures AllCaptured(db, after, more)
  {
    forall other | other in after ensures CapturedTable(db, after, more, other) {
      if other != name { assert CapturedTable(db, tables, store, other); }
    }
  }

  /** Everything private is captured, and the extra tables that exist, if each of them can be and the accounts
      are among them; otherwise the capture is refused. */
  method CaptureBaseline(db: Database, s: Schema, extra: set<string>, limit: Option<nat>)
    returns (r: Result<PrivateBaseline, RehearsalError>)
    requires Describes(s, db)
    ensures r.Success? <==>
      ToPreserve(s, extra, "account") && forall name :: ToPreserve(s, extra, name) ==> MayCapture(db[name], limit)
    ensures r == Failure(AccountsMissing) ==> !ToPreserve(s, extra, "account")
    ensures r.Success? ==> fresh(r.value)
    ensures r.Success? ==>
      forall name :: name in r.value.tables <==> ToPreserve(s, extra, name)
    ensures r.Success? ==> AllCaptured(db, r.value.tables, r.value.store)
  {
    var names := TablesToPreserve(s, extra);
    var baseline := new PrivateBaseline();
    var rest := names;
    while rest != {}
      invariant fresh(baseline) && rest <= names && baseline.tables.Keys == names - rest
      invariant forall name :: name in rest ==> EntriesFor(baseline.store, name) == []
      invariant forall name :: name in names && name !in rest ==> MayCapture(db[name], limit)
      invariant AllCaptured(db, baseline.tables, baseline.store)
    {
      var name :| name in rest;
      ghost var tables, store := baseline.tables, baseline.store;
      var captured := baseline.Capture(name, db[name], limit);
      if captured.Failure? { return Failure(captured.error); }
      StayCaptured(db, tables, store, baseline.tables, baseline.store, name);
      rest := rest - {name};
    }
    if "account" !in baseline.tables { return Failure(AccountsMissing); }
    r := Success(baseline);
  }
}
