/** Which tables a rehearsal must preserve: those with an account column, and every table that leads to one
    through foreign keys. */
module ForeignKeys {

  /** The tables of a database: their names, those with an `account_id` column, and where their keys refer. */
  datatype Schema = Schema(names: set<string>, accountTables: set<string>, references: map<string, set<string>>)

  ghost predicate Valid(s: Schema) {
    s.accountTables <= s.names && s.references.Keys == s.names
  }

  /** One foreign key after another from `path[0]` to a table with an account column. */
  ghost predicate LeadsToAccount(s: Schema, path: seq<string>)
    requires Valid(s)
  {
    && path != [] && path[|path| - 1] in s.accountTables
    && forall i :: 0 <= i < |path| - 1 ==> path[i] in s.names && path[i + 1] in s.references[path[i]]
  }

  ghost predicate Private(s: Schema, name: string)
    requires Valid(s)
  {
    exists path :: LeadsToAccount(s, path) && path[0] == name
  }

  /** Tables that refer to a private one, without those already known. */
  function Descendants(s: Schema, known: set<string>): set<string>
    requires s.references.Keys == s.names
  {
    (set n | n in s.names && s.references[n] * known != {}) - known
  }

  lemma DescendantsArePrivate(s: Schema, known: set<string>)
    requires Valid(s) && forall n :: n in known ==> Private(s, n)
    ensures forall n :: n in Descendants(s, known) ==> Private(s, n)
  {
    forall n | n in Descendants(s, known) ensures Private(s, n) {
      var m :| m in s.references[n] * known;
      assert Private(s, m);
      var path :| LeadsToAccount(s, path) && path[0] == m;
      var longer := [n] + path;
      forall i | 0 <= i < |longer| - 1 ensures longer[i] in s.names && longer[i + 1] in s.references[longer[i]] {
        if i > 0 { assert longer[i] == path[i - 1] && longer[i + 1] == path[i]; }
      }
      assert LeadsToAccount(s, longer) && longer[0] == n;
    }
  }

  lemma {:induction false} ClosedContainsPath(s: Schema, known: set<string>, path: seq<string>)
    requires Valid(s) && s.accountTables <= known && Descendants(s, known) == {} && LeadsToAccount(s, path)
    ensures path[0] in known
  {
    if |path| > 1 {
      var rest := path[1..];
      assert path[1] in s.references[path[0]];
      forall i | 0 <= i < |rest| - 1 ensures rest[i] in s.names && rest[i + 1] in s.references[rest[i]] {
        assert path[i + 1] in s.names && path[i + 2] in s.references[path[i + 1]];
      }
      ClosedContainsPath(s, known, rest);
      assert path[1] in s.references[path[0]] * known;
      assert path[0] !in Descendants(s, known);
    }
  }

  /** The growing loop ends with exactly the tables that reach an account table, and the extra tables that exist. */
  method TablesToPreserve(s: Schema, extra: set<string>) returns (tables: set<string>)
    requires Valid(s)
    ensures forall n :: n in tables <==> Private(s, n) || (n in extra && n in s.names)
    ensures tables <= s.names
  {
    tables := s.accountTables;
    forall n | n in tables ensures Private(s, n) {
      assert LeadsToAccount(s, [n]);
    }
    var descendants := Descendants(s, tables);
    while descendants != {}
      invariant s.accountTables <= tables <= s.names && descendants == Descendants(s, tables)
      invariant forall n :: n in tables ==> Private(s, n)
      decreases |s.names - tables|
    {
      DescendantsArePrivate(s, tables);
      GrowsWithin(s.names, tables, descendants);
      tables := tables + descendants;
      descendants := Descendants(s, tables);
    }
    forall n | Private(s, n) ensures n in tables {
      var path :| LeadsToAccount(s, path) && path[0] == n;
      ClosedContainsPath(s, tables, path);
    }
    tables := tables + extra * s.names;
  }

  lemma GrowsWithin(names: set<string>, tables: set<string>, more: set<string>)
    requires more != {} && more <= names && more * tables == {}
    ensures |names - (tables + more)| < |names - tables|
  {
    var rest := names - (tables + more);
    assert names - tables == rest + more;
    assert rest * more == {};
    assert |rest + more| == |rest| + |more|;
  }
}
