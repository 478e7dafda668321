/** What a secrets file says, over its lines alone, and which characters separate lines. */
module SecretMeaning {
  import opened Wrappers
  import opened Lines
  import opened SecretHygiene

  /** The ten characters at which lines end. */
  lemma BreaksAre(c: char)
    ensures IsBreak(c) <==> c in {'\n', '\r', '\U{000B}', '\U{000C}', '\U{001C}', '\U{001D}', '\U{001E}', '\U{0085}',
                                  '\U{2028}', '\U{2029}'}
  {
    assert '\U{001C}' <= c <= '\U{001E}' <==> c == '\U{001C}' || c == '\U{001D}' || c == '\U{001E}';
  }

  /** The line is `NAME=value`: the name reaches to the first equals sign. */
  ghost predicate Assigns(l: Line, name: string, value: string) {
    '=' !in name && l.content == name + "=" + value
  }

  lemma AssignsIffPartition(l: Line, name: string, value: string)
    ensures Assigns(l, name, value) <==> Partition(l.content) == Some(Assignment(name, value))
  {
    PartitionInverts(l.content);
    if '=' !in name { PartitionOfAssignment(name, value); }
  }

  /** The line assigns one of the four names a visible value, and that is the value read for it. */
  ghost predicate Reads(l: Line, values: Values) {
    exists n, v :: Assigns(l, n, v) && n in SECRET_NAMES && n in values && values[n] == v && !IsBlank(v)
  }

  /** No two lines assign the same name, or the same value to two names. */
  ghost predicate Apart(l: Line, other: Line) {
    forall n, v, m, u :: Assigns(l, n, v) && Assigns(other, m, u) ==> n != m && v != u
  }

  ghost predicate AllApart(lines: seq<Line>) {
    forall i, j :: 0 <= i < j < |lines| ==> Apart(lines[i], lines[j])
  }

  ghost predicate Given(lines: seq<Line>, values: Values, n: string)
    requires n in values
  {
    exists i :: 0 <= i < |lines| && Assigns(lines[i], n, values[n])
  }

  ghost predicate Kept(before: Values, values: Values) {
    forall n :: n in before ==> n in values && values[n] == before[n]
  }

  ghost predicate EachReads(lines: seq<Line>, before: Values, values: Values) {
    forall i :: 0 <= i < |lines| ==> Reads(lines[i], values) && New(lines[i], before)
  }

  ghost predicate AllGiven(lines: seq<Line>, before: Values, values: Values) {
    forall n :: n in values ==> n in before || Given(lines, values, n)
  }

  /** The lines, after `before` has been read, come to exactly these values. */
  ghost predicate ReadsOn(lines: seq<Line>, before: Values, values: Values) {
    Kept(before, values) && EachReads(lines, before, values) && AllApart(lines) && AllGiven(lines, before, values)
  }

  ghost predicate New(l: Line, before: Values) {
    forall n, v :: Assigns(l, n, v) ==> n !in before && forall m :: m in before ==> before[m] != v
  }

  lemma {:induction false} ParseReadsOn(lines: seq<Line>, before: Values, values: Values)
    ensures ParseLines(lines, before) == Some(values) <==> ReadsOn(lines, before, values)
  {
    if lines == [] {
      if ReadsOn(lines, before, values) { assert before == values; }
    } else {
      var p := Partition(lines[0].content);
      forall n, v ensures Assigns(lines[0], n, v) <==> p == Some(Assignment(n, v)) {
        AssignsIffPartition(lines[0], n, v);
      }
      if p == None || !Acceptable(p.value, before) {
        if ReadsOn(lines, before, values) { FirstIsAcceptable(lines, before, values, p); }
      } else {
        ParseReadsOn(lines[1..], before[p.value.name := p.value.value], values);
        FirstLineRead(lines, before, values, p.value);
      }
    }
  }

  lemma FirstIsAcceptable(lines: seq<Line>, before: Values, values: Values, p: Option<Assignment>)
    requires lines != [] && ReadsOn(lines, before, values)
    requires forall n, v :: Assigns(lines[0], n, v) <==> p == Some(Assignment(n, v))
    ensures p.Some? && Acceptable(p.value, before)
  {
    assert Reads(lines[0], values) && New(lines[0], before);
  }

  lemma FirstLineRead(lines: seq<Line>, before: Values, values: Values, a: Assignment)
    requires lines != [] && Acceptable(a, before)
    requires forall n, v :: Assigns(lines[0], n, v) <==> a == Assignment(n, v)
    ensures ReadsOn(lines[1..], before[a.name := a.value], values) <==> ReadsOn(lines, before, values)
  {
    var more := before[a.name := a.value];
    if ReadsOn(lines[1..], more, values) { FirstLineAdded(lines, before, values, a); }
    if ReadsOn(lines, before, values) { FirstLineTaken(lines, before, values, a); }
  }

  lemma FirstLineAdded(lines: seq<Line>, before: Values, values: Values, a: Assignment)
    requires lines != [] && Acceptable(a, before)
    requires forall n, v :: Assigns(lines[0], n, v) <==> a == Assignment(n, v)
    requires ReadsOn(lines[1..], before[a.name := a.value], values)
    ensures ReadsOn(lines, before, values)
  {
    var rest, more := lines[1..], before[a.name := a.value];
    KeptOneMore(before, values, a);
    assert Assigns(lines[0], a.name, a.value) && Reads(lines[0], values) && New(lines[0], before);
    forall i | 0 <= i < |lines| ensures Reads(lines[i], values) && New(lines[i], before) {
      if i > 0 {
        assert lines[i] == rest[i - 1] && New(rest[i - 1], more);
        NewBefore(lines[i], before, a);
      }
    }
    forall i | 0 <= i < |rest| ensures Apart(lines[0], rest[i]) {
      assert New(rest[i], more);
    }
    ApartCons(lines);
    GivenCons(lines, before, values, a);
  }

  lemma KeptOneMore(before: Values, values: Values, a: Assignment)
    requires a.name !in before
    ensures Kept(before[a.name := a.value], values) <==> Kept(before, values) && a.name in values && values[a.name] == a.value
  {
    var more := before[a.name := a.value];
    if Kept(more, values) {
      assert a.name in more;
      forall n | n in before ensures n in values && values[n] == before[n] {
        assert n in more;
      }
    }
  }

  lemma ApartCons(lines: seq<Line>)
    requires lines != []
    ensures AllApart(lines) <==> AllApart(lines[1..]) && forall i :: 0 <= i < |lines| - 1 ==> Apart(lines[0], lines[1..][i])
  {
    var rest := lines[1..];
    if AllApart(lines) {
      forall i, j | 0 <= i < j < |rest| ensures Apart(rest[i], rest[j]) {
        assert rest[i] == lines[i + 1] && rest[j] == lines[j + 1];
      }
      forall i | 0 <= i < |rest| ensures Apart(lines[0], rest[i]) {
        assert rest[i] == lines[i + 1];
      }
    }
    if AllApart(rest) && forall i :: 0 <= i < |rest| ==> Apart(lines[0], rest[i]) {
      forall i, j | 0 <= i < j < |lines| ensures Apart(lines[i], lines[j]) {
        assert lines[j] == rest[j - 1];
        if i > 0 { assert lines[i] == rest[i - 1]; }
      }
    }
  }

  lemma GivenCons(lines: seq<Line>, before: Values, values: Values, a: Assignment)
    requires lines != [] && a.name !in before && a.name in values && values[a.name] == a.value
    requires forall n, v :: Assigns(lines[0], n, v) <==> a == Assignment(n, v)
    ensures AllGiven(lines[1..], before[a.name := a.value], values) <==> AllGiven(lines, before, values)
  {
    var rest := lines[1..];
    forall n | n in values ensures Given(lines, values, n) <==> n == a.name || Given(rest, values, n) {
      if i :| 0 <= i < |rest| && Assigns(rest[i], n, values[n]) { assert lines[i + 1] == rest[i]; }
      if i :| 0 <= i < |lines| && Assigns(lines[i], n, values[n]) {
        if i > 0 { assert rest[i - 1] == lines[i]; }
      }
      if n == a.name { assert Assigns(lines[0], n, values[n]); }
    }
  }

  lemma NewBefore(l: Line, before: Values, a: Assignment)
    requires New(l, before[a.name := a.value]) && a.name !in before
    ensures New(l, before)
  {
    var more := before[a.name := a.value];
    forall n, v | Assigns(l, n, v) ensures n !in before && forall m :: m in before ==> before[m] != v {
      forall m | m in before ensures before[m] != v {
        assert m in more && more[m] == before[m];
      }
    }
  }

  lemma FirstLineTaken(lines: seq<Line>, before: Values, values: Values, a: Assignment)
    requires lines != [] && Acceptable(a, before)
    requires forall n, v :: Assigns(lines[0], n, v) <==> a == Assignment(n, v)
    requires ReadsOn(lines, before, values)
    ensures ReadsOn(lines[1..], before[a.name := a.value], values)
  {
    var rest, more := lines[1..], before[a.name := a.value];
    assert Reads(lines[0], values) && Assigns(lines[0], a.name, a.value);
    KeptOneMore(before, values, a);
    ApartCons(lines);
    GivenCons(lines, before, values, a);
    forall i | 0 <= i < |rest| ensures Reads(rest[i], values) && New(rest[i], more) {
      assert rest[i] == lines[i + 1] && Reads(lines[i + 1], values) && New(lines[i + 1], before);
      NewAfter(lines[0], rest[i], before, a);
    }
  }

  lemma NewAfter(first: Line, l: Line, before: Values, a: Assignment)
    requires New(l, before) && Apart(first, l) && Assigns(first, a.name, a.value)
    ensures New(l, before[a.name := a.value])
  {
  }

  /** A file is accepted, and read as these values, if and only if it is empty where that is allowed; or it has no
      NUL, each line assigns one of the four names a visible value, no name and no value occurs twice, nothing else
      is read, and all four are there where that is asked. */
  lemma ParseMeans(text: string, requireComplete: bool, allowEmpty: bool, values: Values)
    ensures Parse(text, requireComplete, allowEmpty) == Success(values) <==>
      || (text == "" && allowEmpty && values == map[])
      || (text != "" && '\0' !in text && ReadsOn(Split(text), map[], values)
          && (requireComplete ==> forall n :: n in SECRET_NAMES ==> n in values))
  {
    ParseReadsOn(Split(text), map[], values);
    if text != "" && ReadsOn(Split(text), map[], values) {
      assert Reads(Split(text)[0], values);
      assert values != map[];
      forall n | n in values ensures n in SECRET_NAME_SET {
        ReadNameIsKnown(Split(text), values, n);
      }
    }
    CompleteIff(values);
  }

  lemma CompleteIff(values: Values)
    ensures values.Keys <= SECRET_NAME_SET ==>
      (values.Keys == SECRET_NAME_SET <==> forall n :: n in SECRET_NAMES ==> n in values)
  {
  }

  lemma ReadNameIsKnown(lines: seq<Line>, values: Values, n: string)
    requires ReadsOn(lines, map[], values) && n in values
    ensures n in SECRET_NAMES
  {
    assert Given(lines, values, n);
    var i :| 0 <= i < |lines| && Assigns(lines[i], n, values[n]);
    assert Reads(lines[i], values);
    var m, v :| Assigns(lines[i], m, v) && m in SECRET_NAMES && m in values && values[m] == v && !IsBlank(v);
    AssignsIffPartition(lines[i], n, values[n]);
    AssignsIffPartition(lines[i], m, v);
  }

  lemma PrintsFirst(names: seq<string>, values: Values)
    requires names != [] && names[0] in values
    ensures SerializeNames(names, values) == names[0] + "=" + values[names[0]] + "\n" + SerializeNames(names[1..], values)
  {
  }

  /** A complete file prints the four names in their order, one a line. */
  lemma CompletePrint(values: Values)
    requires values.Keys == SECRET_NAME_SET
    ensures Serialize(values) == "KIVOU_DATABASE_URL" + "=" + values[DATABASE_URL] + "\n"
      + ("SMTP_PASSWORD" + "=" + values[SMTP_PASSWORD] + "\n"
         + ("STRIPE_SECRET_KEY" + "=" + values[STRIPE_KEY] + "\n"
            + ("STRIPE_WEBHOOK_SECRET" + "=" + values[STRIPE_WEBHOOK] + "\n" + "")))
  {
    var names := SECRET_NAMES;
    assert forall n :: n in names ==> n in values;
    PrintsFirst(names, values);
    PrintsFirst(names[1..], values);
    PrintsFirst(names[2..], values);
    PrintsFirst(names[3..], values);
    assert names[1..][1..] == names[2..] && names[2..][1..] == names[3..] && names[3..][1..] == [];
  }
}
