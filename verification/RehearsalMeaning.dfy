/** What the rehearsal compares, said by the values themselves: when two values count as the same, which have no
    canonical form, and what an accepted comparison means for the rows of the database. */
module RehearsalMeaning {
  import opened Wrappers
  import opened Rehearsal

  /** Two values are the same if they are of one kind with one content; numbers by value, whatever their
      representation, arrays item by item and objects field by field. */
  predicate Same(v: Value, w: Value) {
    match (v, w)
    case (Null, Null) => true
    case (Bool(a), Bool(b)) => a == b
    case (Number(_, a), Number(_, b)) => a == b
    case (Text(a), Text(b)) => a == b
    case (Other(k, a), Other(l, b)) => k == l && a == b
    case (Array(a), Array(b)) => |a| == |b| && forall i :: 0 <= i < |a| ==> Same(a[i], b[i])
    case (Object(a), Object(b)) => a.Keys == b.Keys && forall k :: k in a.Keys && k in b.Keys ==> Same(a[k], b[k])
    case _ => false
  }

  /** The canonical form tells values apart exactly as sameness does. */
  lemma {:induction false} CanonicalIffSame(v: Value, w: Value)
    requires HasCanon(v) && HasCanon(w)
    ensures Canonical(v) == Canonical(w) <==> Same(v, w)
    decreases v
  {
    if v.Array? && w.Array? && |v.items| == |w.items| {
      forall i | 0 <= i < |v.items| ensures Canonical(v.items[i]) == Canonical(w.items[i]) <==> Same(v.items[i], w.items[i]) {
        CanonicalIffSame(v.items[i], w.items[i]);
      }
      ArraysEqualIff(v.items, w.items);
    } else if v.Object? && w.Object? && v.fields.Keys == w.fields.Keys {
      forall k | k in v.fields ensures Canonical(v.fields[k]) == Canonical(w.fields[k]) <==> Same(v.fields[k], w.fields[k]) {
        CanonicalIffSame(v.fields[k], w.fields[k]);
      }
      ObjectsEqualIff(v.fields, w.fields);
    } else if v.Object? && w.Object? {
      assert Canonical(v).fields.Keys == v.fields.Keys && Canonical(w).fields.Keys == w.fields.Keys;
    } else if v.Array? && w.Array? {
      assert |Canonical(v).items| == |v.items| && |Canonical(w).items| == |w.items|;
    }
  }

  lemma ArraysEqualIff(a: seq<Value>, b: seq<Value>)
    requires |a| == |b| && HasCanon(Array(a)) && HasCanon(Array(b))
    ensures Canonical(Array(a)) == Canonical(Array(b)) <==>
      forall i :: 0 <= i < |a| ==> Canonical(a[i]) == Canonical(b[i])
  {
    var x, y := Canonical(Array(a)).items, Canonical(Array(b)).items;
    forall i | 0 <= i < |a| ensures x[i] == Canonical(a[i]) && y[i] == Canonical(b[i]) {
    }
    if forall i :: 0 <= i < |a| ==> Canonical(a[i]) == Canonical(b[i]) { assert x == y; }
  }

  lemma ObjectsEqualIff(a: map<string, Value>, b: map<string, Value>)
    requires a.Keys == b.Keys && HasCanon(Object(a)) && HasCanon(Object(b))
    ensures Canonical(Object(a)) == Canonical(Object(b)) <==> forall k :: k in a ==> Canonical(a[k]) == Canonical(b[k])
  {
    var x, y := Canonical(Object(a)).fields, Canonical(Object(b)).fields;
    assert x.Keys == a.Keys && y.Keys == b.Keys;
    forall k | k in a ensures x[k] == Canonical(a[k]) && y[k] == Canonical(b[k]) {
    }
    if forall k :: k in a ==> Canonical(a[k]) == Canonical(b[k]) { assert x == y; }
  }

  /** `part` is the value, or lies in one of its items or fields. */
  predicate Occurs(part: Value, v: Value) {
    part == v
    || (v.Array? && exists i :: 0 <= i < |v.items| && Occurs(part, v.items[i]))
    || (v.Object? && exists k :: k in v.fields && Occurs(part, v.fields[k]))
  }

  /** Only numbers that are not finite and values of an unknown type have no canonical form, wherever they occur. */
  lemma {:induction false} RefusedIffOccurs(v: Value)
    ensures HasCanon(v) <==> !Occurs(NonFinite, v) && !Occurs(Unsupported, v)
  {
    if v.Array? {
      forall i | 0 <= i < |v.items|
        ensures HasCanon(v.items[i]) <==> !Occurs(NonFinite, v.items[i]) && !Occurs(Unsupported, v.items[i])
      {
        RefusedIffOccurs(v.items[i]);
      }
    } else if v.Object? {
      forall k | k in v.fields
        ensures HasCanon(v.fields[k]) <==> !Occurs(NonFinite, v.fields[k]) && !Occurs(Unsupported, v.fields[k])
      {
        RefusedIffOccurs(v.fields[k]);
      }
    }
  }

  /** What is the same as a value with a canonical form has one. */
  lemma {:induction false} SameHasCanon(v: Value, w: Value)
    requires HasCanon(v) && Same(v, w)
    ensures HasCanon(w)
    decreases v
  {
    if v.Array? {
      forall i | 0 <= i < |w.items| ensures HasCanon(w.items[i]) { SameHasCanon(v.items[i], w.items[i]); }
    } else if v.Object? {
      forall k | k in w.fields ensures HasCanon(w.fields[k]) {
        assert k in v.fields.Keys && k in w.fields.Keys;
        SameHasCanon(v.fields[k], w.fields[k]);
      }
    }
  }

  lemma CanonOfIffSame(v: Value, w: Value)
    requires HasCanon(v)
    ensures CanonOf(v) == CanonOf(w) <==> Same(v, w)
  {
    if Same(v, w) { SameHasCanon(v, w); }
    if HasCanon(w) { CanonicalIffSame(v, w); }
  }

  // ---------- rows ----------

  /** The two rows have these columns, with the same values. */
  ghost predicate SameIn(row: Row, x: Row, columns: set<string>) {
    forall c :: c in columns ==> c in row && c in x && Same(row[c], x[c])
  }

  ghost predicate SameKey(row: Row, x: Row, keys: seq<string>) {
    forall k :: k in keys ==> k in row && k in x && Same(row[k], x[k])
  }

  lemma FieldHasCanon(row: Row, c: string)
    requires HasCanon(Object(row)) && c in row
    ensures HasCanon(row[c])
  {
  }

  lemma KeyOfIffSame(row: Row, x: Row, keys: seq<string>)
    requires HasCanon(Object(row)) && forall k :: k in keys ==> k in row
    ensures KeyOf(x, keys) == KeyOf(row, keys) <==> SameKey(row, x, keys)
  {
    forall k | k in keys ensures HasCanon(row[k]) { FieldHasCanon(row, k); }
    forall i | 0 <= i < |keys|
      ensures KeyOf(x, keys)[i] == KeyOf(row, keys)[i] <==> keys[i] in x && Same(row[keys[i]], x[keys[i]])
    {
      assert keys[i] in keys;
      if keys[i] in x { CanonOfIffSame(row[keys[i]], x[keys[i]]); }
    }
    if SameKey(row, x, keys) { assert KeyOf(x, keys) == KeyOf(row, keys); }
    if KeyOf(x, keys) == KeyOf(row, keys) {
      forall k | k in keys ensures k in row && k in x && Same(row[k], x[k]) {
        var i :| 0 <= i < |keys| && keys[i] == k;
        assert KeyOf(x, keys)[i] == KeyOf(row, keys)[i];
      }
    }
  }

  lemma UnchangedIffSame(row: Row, x: Row)
    requires HasCanon(Object(row))
    ensures Unchanged(x, row.Keys, Canonical(Object(row))) <==> SameIn(row, x, row.Keys)
  {
    var projected := Project(x, row.Keys);
    CanonOfIffSame(Object(row), Object(projected));
    if SameIn(row, x, row.Keys) { assert projected.Keys == row.Keys; }
    if Same(Object(row), Object(projected)) {
      forall c | c in row.Keys ensures c in row && c in x && Same(row[c], x[c]) {
        assert c in projected.Keys;
      }
    }
  }

  // ---------- tables ----------

  /** Some row of the new table has the old row's values in all old columns. */
  ghost predicate ValuesKept(row: Row, columns: set<string>, after: Table) {
    exists x :: x in after.rows && SameIn(row, x, columns)
  }

  ghost predicate AllValuesKept(before: Table, after: Table) {
    forall row :: row in before.rows ==> ValuesKept(row, before.columns, after)
  }

  lemma SurvivesIffValuesKept(before: Table, after: Table, row: Row)
    requires WellFormed(before) && row in before.rows && HasCanon(Object(row))
    ensures Survives(before, after, row) <==> ValuesKept(row, before.columns, after)
  {
    forall x ensures Unchanged(x, before.columns, Canonical(Object(row))) <==> SameIn(row, x, before.columns) {
      UnchangedIffSame(row, x);
    }
    forall x | SameIn(row, x, before.columns) ensures KeyOf(x, before.primaryKey) == KeyOf(row, before.primaryKey) {
      KeyOfIffSame(row, x, before.primaryKey);
    }
  }

  lemma PreservedIffAllValuesKept(before: Table, after: Table)
    requires WellFormed(before) && AllCapturable(before.rows, before.primaryKey)
    ensures Preserved(before, after) <==> AllValuesKept(before, after)
  {
    forall row | row in before.rows ensures Survives(before, after, row) <==> ValuesKept(row, before.columns, after) {
      assert Capturable(row, before.primaryKey);
      SurvivesIffValuesKept(before, after, row);
    }
  }

  /** No old row finds its key twice in the new table. */
  ghost predicate KeysStayUnique(before: Table, after: Table) {
    forall row, i, j :: row in before.rows && 0 <= i < j < |after.rows| ==>
      !(SameKey(row, after.rows[i], before.primaryKey) && SameKey(row, after.rows[j], before.primaryKey))
  }

  lemma UniqueOnIffKeysStayUnique(before: Table, after: Table, entries: seq<Entry>, meta: TableMeta)
    requires CapturedFrom(before, entries, meta)
    ensures UniqueOn(after.rows, before.primaryKey, EntryKeys(entries)) <==> KeysStayUnique(before, after)
  {
    var keys := before.primaryKey;
    forall row, x | row in before.rows ensures KeyOf(x, keys) == KeyOf(row, keys) <==> SameKey(row, x, keys) {
      assert Capturable(row, keys);
      KeyOfIffSame(row, x, keys);
    }
    forall k ensures k in EntryKeys(entries) <==> exists row :: row in before.rows && KeyOf(row, keys) == k {
      EntryKeysAreRowKeys(before.rows, keys, entries, k);
    }
    if UniqueOn(after.rows, keys, EntryKeys(entries)) {
      forall row, i, j | row in before.rows && 0 <= i < j < |after.rows|
        ensures !(SameKey(row, after.rows[i], keys) && SameKey(row, after.rows[j], keys))
      {
        assert KeyOf(row, keys) in EntryKeys(entries);
      }
    }
    if KeysStayUnique(before, after) {
      forall i, j | 0 <= i < j < |after.rows| && KeyOf(after.rows[i], keys) == KeyOf(after.rows[j], keys)
        ensures KeyOf(after.rows[i], keys) !in EntryKeys(entries)
      {
        if row :| row in before.rows && KeyOf(row, keys) == KeyOf(after.rows[i], keys) {
          assert SameKey(row, after.rows[i], keys) && SameKey(row, after.rows[j], keys);
        }
      }
    }
  }

  lemma EntryKeysAreRowKeys(rows: seq<Row>, keys: seq<string>, entries: seq<Entry>, k: Key)
    requires AllCapturable(rows, keys) && entries == EntriesOf(rows, keys)
    ensures k in EntryKeys(entries) <==> exists row :: row in rows && KeyOf(row, keys) == k
  {
    if k in EntryKeys(entries) {
      var e :| e in entries && e.key == k;
      var i :| 0 <= i < |entries| && entries[i] == e;
      assert rows[i] in rows;
    }
    if row :| row in rows && KeyOf(row, keys) == k {
      var i :| 0 <= i < |rows| && rows[i] == row;
      assert entries[i] in entries && entries[i].key == k;
    }
  }

  /** A captured table is accepted if and only if every old row has a row in the new table with the same values in
      all old columns, whatever was added, while no old key occurs twice. */
  lemma AcceptedIffValuesKept(before: Table, after: Table, entries: seq<Entry>, meta: TableMeta)
    requires CapturedFrom(before, entries, meta) && WellFormed(after) && KeysStayUnique(before, after)
    ensures TableAccepted(entries, meta, after) <==> AllValuesKept(before, after)
  {
    UniqueOnIffKeysStayUnique(before, after, entries, meta);
    ComparisonIsExact(before, after, entries, meta);
    PreservedIffAllValuesKept(before, after);
  }
}
