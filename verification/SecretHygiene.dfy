/** The files with the four rotated secrets: parsing and printing `NAME=value` lines, and rewriting those lines
    in a larger environment file. */
module SecretHygiene {
  import opened Wrappers
  import opened Lines

  const DATABASE_URL := "KIVOU_DATABASE_URL"
  const SMTP_PASSWORD := "SMTP_PASSWORD"
  const STRIPE_KEY := "STRIPE_SECRET_KEY"
  const STRIPE_WEBHOOK := "STRIPE_WEBHOOK_SECRET"

  const SECRET_NAMES := [DATABASE_URL, SMTP_PASSWORD, STRIPE_KEY, STRIPE_WEBHOOK]

  const SECRET_NAME_SET: set<string> := set n | n in SECRET_NAMES

  datatype HygieneError = InvalidInput

  type Values = map<string, string>

  /** Characters that `str.strip` removes. */
  predicate IsSpace(c: char) {
    '\t' <= c <= '\r' || '\U{001C}' <= c <= ' ' || c == '\U{0085}' || c == '\U{00A0}' || c == '\U{1680}'
    || '\U{2000}' <= c <= '\U{200A}' || c == '\U{2028}' || c == '\U{2029}' || c == '\U{202F}' || c == '\U{205F}'
    || c == '\U{3000}'
  }

  predicate IsBlank(s: string) {
    forall i :: 0 <= i < |s| ==> IsSpace(s[i])
  }

  /** The part before the first equals sign, and the part after it. */
  datatype Assignment = Assignment(name: string, value: string)

  function Partition(s: string): Option<Assignment> {
    if s == "" then None
    else if s[0] == '=' then Some(Assignment("", s[1..]))
    else match Partition(s[1..])
      case None => None
      case Some(a) => Some(Assignment([s[0]] + a.name, a.value))
  }

  lemma {:induction false} PartitionOfAssignment(name: string, value: string)
    requires '=' !in name
    ensures Partition(name + "=" + value) == Some(Assignment(name, value))
  {
    var s := name + "=" + value;
    if name == "" {
      assert s[1..] == value;
    } else {
      assert s[1..] == name[1..] + "=" + value;
      PartitionOfAssignment(name[1..], value);
      assert [s[0]] + name[1..] == name;
    }
  }

  lemma {:induction false} PartitionInverts(s: string)
    ensures Partition(s).Some? ==>
      s == Partition(s).value.name + "=" + Partition(s).value.value && '=' !in Partition(s).value.name
  {
    if s != "" {
      assert s == [s[0]] + s[1..];
      if s[0] == '=' { assert s == "" + "=" + s[1..]; } else { PartitionInverts(s[1..]); }
    }
  }

  predicate IsNameCharacter(c: char) {
    'A' <= c <= 'Z' || c == '_'
  }

  predicate PlainName(s: string) {
    s != "" && forall i :: 0 <= i < |s| ==> IsNameCharacter(s[i])
  }

  lemma PlainDatabaseUrl() ensures PlainName(DATABASE_URL) {}

  lemma PlainSmtpPassword() ensures PlainName(SMTP_PASSWORD) {}

  lemma PlainStripeKey() ensures PlainName(STRIPE_KEY) {}

  lemma PlainStripeWebhook() ensures PlainName(STRIPE_WEBHOOK) {}

  lemma SecretNamesAreClean(name: string)
    requires name in SECRET_NAME_SET
    ensures '=' !in name && '\0' !in name && NoBreaks(name) && name != ""
  {
    PlainDatabaseUrl();
    PlainSmtpPassword();
    PlainStripeKey();
    PlainStripeWebhook();
    PlainNamesAreClean(name);
  }

  lemma PlainNamesAreClean(s: string)
    requires PlainName(s)
    ensures '=' !in s && '\0' !in s && NoBreaks(s)
  {
  }

  lemma SecretNamesAreDistinct()
    ensures DistinctNames(SECRET_NAMES)
  {
    assert DATABASE_URL[0] == 'K' && SMTP_PASSWORD[1] == 'M' && STRIPE_KEY[7] == 'S' && STRIPE_WEBHOOK[7] == 'W';
    assert SMTP_PASSWORD[0] == 'S' && STRIPE_KEY[1] == 'T' && STRIPE_WEBHOOK[1] == 'T';
  }

  // ---------- parsing ----------

  predicate Acceptable(a: Assignment, values: Values) {
    && a.name in SECRET_NAME_SET && a.name !in values
    && !IsBlank(a.value) && a.value !in values.Values
  }

  function ParseLines(lines: seq<Line>, values: Values): Option<Values> {
    if lines == [] then Some(values) else
      match Partition(lines[0].content)
      case None => None
      case Some(a) => if Acceptable(a, values) then ParseLines(lines[1..], values[a.name := a.value]) else None
  }

  function Parse(text: string, requireComplete: bool, allowEmpty: bool): Result<Values, HygieneError> {
    if text == "" then if allowEmpty then Success(map[]) else Failure(InvalidInput)
    else if '\0' in text then Failure(InvalidInput)
    else match ParseLines(Split(text), map[])
      case None => Failure(InvalidInput)
      case Some(values) =>
        if values == map[] || (requireComplete && values.Keys != SECRET_NAME_SET) then Failure(InvalidInput)
        else Success(values)
  }

  method ParseValues(text: string, requireComplete: bool, allowEmpty: bool) returns (r: Result<Values, HygieneError>)
    ensures r == Parse(text, requireComplete, allowEmpty)
  {
    if text == "" {
      if allowEmpty { return Success(map[]); }
      return Failure(InvalidInput);
    }
    if '\0' in text { return Failure(InvalidInput); }
    var values: Values := map[];
    var seen: set<string> := {};
    var lines := Split(text);
    for i := 0 to |lines|
      invariant seen == values.Values
      invariant ParseLines(lines, map[]) == ParseLines(lines[i..], values)
    {
      assert lines[i..][1..] == lines[i + 1..];
      var a := Partition(lines[i].content);
      if a == None || a.value.name !in SECRET_NAME_SET { return Failure(InvalidInput); }
      var name, value := a.value.name, a.value.value;
      if name in values || value == "" || IsBlank(value) || value in seen { return Failure(InvalidInput); }
      AddedValue(values, name, value);
      values, seen := values[name := value], seen + {value};
    }
    if values == map[] || (requireComplete && values.Keys != SECRET_NAME_SET) { return Failure(InvalidInput); }
    r := Success(values);
  }

  lemma AddedValue(values: Values, name: string, value: string)
    requires name !in values
    ensures values[name := value].Values == values.Values + {value}
  {
    var after := values[name := value];
    assert name in after && after[name] == value;
    assert forall n :: n in values ==> n in after && after[n] == values[n];
  }

  // ---------- printing ----------

  function SerializeNames(names: seq<string>, values: Values): string {
    if names == [] then ""
    else (if names[0] in values then names[0] + "=" + values[names[0]] + "\n" else "") + SerializeNames(names[1..], values)
  }

  function Serialize(values: Values): string {
    SerializeNames(SECRET_NAMES, values)
  }

  // ---------- the round trip ----------

  predicate ValidValue(value: string) {
    !IsBlank(value) && NoBreaks(value) && '\0' !in value
  }

  /** What a values file may hold: some of the four names, with different, visible, one-line values. */
  ghost predicate ValidValues(values: Values) {
    && values.Keys <= SECRET_NAME_SET
    && (forall n :: n in values ==> ValidValue(values[n]))
    && forall n, m :: n in values && m in values && values[n] == values[m] ==> n == m
  }

  ghost predicate DistinctNames(names: seq<string>) {
    forall i, j :: 0 <= i < j < |names| ==> names[i] != names[j]
  }

  function Restricted(values: Values, names: seq<string>): Values {
    map n | n in values && n in names :: values[n]
  }

  /** These values have been read; none of them belongs to the names still to come. */
  ghost predicate ReadBefore(before: Values, names: seq<string>, values: Values) {
    forall n :: n in before ==> n !in names && n in values && values[n] == before[n]
  }

  lemma ReadOneMore(names: seq<string>, values: Values, before: Values)
    requires names != [] && DistinctNames(names) && names[0] in values && ReadBefore(before, names, values)
    ensures ReadBefore(before[names[0] := values[names[0]]], names[1..], values)
    ensures before[names[0] := values[names[0]]] + Restricted(values, names[1..]) == before + Restricted(values, names)
  {
    assert names == [names[0]] + names[1..];
  }

  lemma NextIsAcceptable(name: string, names: seq<string>, values: Values, before: Values)
    requires name in names && name in values && name in SECRET_NAME_SET && ValidValues(values)
    requires ReadBefore(before, names, values)
    ensures Acceptable(Assignment(name, values[name]), before)
  {
    assert forall n :: n in before ==> before[n] != values[name];
  }

  lemma SkipOne(names: seq<string>, values: Values)
    requires names != [] && names[0] !in values
    ensures Restricted(values, names[1..]) == Restricted(values, names)
    ensures SerializeNames(names, values) == SerializeNames(names[1..], values)
  {
    assert names == [names[0]] + names[1..];
  }

  /** Printed assignments are parsed back one by one. */
  lemma {:induction false} ParsePrinted(names: seq<string>, values: Values, before: Values)
    requires ValidValues(values) && DistinctNames(names) && forall n :: n in names ==> n in SECRET_NAME_SET
    requires ReadBefore(before, names, values)
    ensures ParseLines(Split(SerializeNames(names, values)), before) == Some(before + Restricted(values, names))
  {
    if names == [] {
      assert before + Restricted(values, []) == before;
    } else if names[0] in values {
      var name := names[0];
      PrintedLine(name, values[name], SerializeNames(names[1..], values));
      NextIsAcceptable(name, names, values, before);
      ReadOneMore(names, values, before);
      ParsePrinted(names[1..], values, before[name := values[name]]);
    } else {
      SkipOne(names, values);
      ParsePrinted(names[1..], values, before);
    }
  }

  lemma PrintedLine(name: string, value: string, rest: string)
    requires name in SECRET_NAME_SET && ValidValue(value)
    ensures var l := Line(name + "=" + value, "\n");
      Split(Text(l) + rest) == [l] + Split(rest) && Partition(l.content) == Some(Assignment(name, value))
  {
    SecretNamesAreClean(name);
    PartitionOfAssignment(name, value);
    SplitOneLine(Line(name + "=" + value, "\n"), rest);
  }

  lemma {:induction false} PrintedHasNoNul(names: seq<string>, values: Values)
    requires ValidValues(values) && forall n :: n in names ==> n in SECRET_NAME_SET
    ensures '\0' !in SerializeNames(names, values)
  {
    if names != [] {
      assert names[0] in names;
      SecretNamesAreClean(names[0]);
      PrintedHasNoNul(names[1..], values);
    }
  }

  lemma {:induction false} PrintedIsEmpty(names: seq<string>, values: Values)
    ensures SerializeNames(names, values) == "" <==> forall n :: n in names ==> n !in values
  {
    if names != [] {
      PrintedIsEmpty(names[1..], values);
      assert names == [names[0]] + names[1..];
    }
  }

  ghost predicate CleanLines(lines: seq<Line>) {
    forall i :: 0 <= i < |lines| ==> NoBreaks(lines[i].content) && '\0' !in lines[i].content
  }

  /** Whatever is parsed is valid. */
  lemma {:induction false} ParsedIsValid(lines: seq<Line>, values: Values)
    requires CleanLines(lines) && ValidValues(values) && ParseLines(lines, values).Some?
    ensures ValidValues(ParseLines(lines, values).value)
  {
    if lines != [] {
      var content := lines[0].content;
      var a := Partition(content).value;
      PartitionInverts(content);
      assert content[|a.name| + 1..] == a.value;
      assert forall i :: 0 <= i < |a.value| ==> a.value[i] == content[|a.name| + 1 + i];
      ParsedIsValid(lines[1..], values[a.name := a.value]);
    }
  }

  lemma {:induction false} SplitIsClean(text: string)
    requires '\0' !in text
    ensures CleanLines(Split(text))
    decreases |text|
  {
    if text != "" {
      var l := FirstLine(text);
      SplitUnfolds(text, l, text[|Text(l)|..]);
      SplitIsClean(text[|Text(l)|..]);
      assert forall i :: 0 <= i < |l.content| ==> l.content[i] == text[i];
    }
  }

  /** Printing and parsing is the identity exactly on valid values; an empty file needs `allowEmpty`, and a
      complete one all four names. */
  lemma RoundTripIffValid(values: Values, requireComplete: bool, allowEmpty: bool)
    ensures Parse(Serialize(values), requireComplete, allowEmpty) == Success(values) <==>
      ValidValues(values)
      && (if values == map[] then allowEmpty else requireComplete ==> values.Keys == SECRET_NAME_SET)
  {
    if ValidValues(values) {
      ValidPrintsBack(values);
    } else if Parse(Serialize(values), requireComplete, allowEmpty).Success? {
      ParseIsValid(Serialize(values), requireComplete, allowEmpty);
    }
  }

  lemma ValidPrintsBack(values: Values)
    requires ValidValues(values)
    ensures ParseLines(Split(Serialize(values)), map[]) == Some(values) && '\0' !in Serialize(values)
    ensures Serialize(values) == "" <==> values == map[]
  {
    SecretNamesAreDistinct();
    ParsePrinted(SECRET_NAMES, values, map[]);
    PrintedHasNoNul(SECRET_NAMES, values);
    PrintedIsEmpty(SECRET_NAMES, values);
    assert map[] + Restricted(values, SECRET_NAMES) == values;
    if n :| n in values { assert n in SECRET_NAMES; }
  }

  /** Whatever a values file parses to is valid. */
  lemma ParseIsValid(text: string, requireComplete: bool, allowEmpty: bool)
    requires Parse(text, requireComplete, allowEmpty).Success?
    ensures ValidValues(Parse(text, requireComplete, allowEmpty).value)
  {
    if text != "" {
      SplitIsClean(text);
      ParsedIsValid(Split(text), map[]);
    }
  }

  // ---------- rewriting an environment file ----------

  /** The secret a line assigns, if it does. */
  function SecretOf(l: Line): Option<string> {
    match Partition(l.content)
    case None => None
    case Some(a) => if a.name in SECRET_NAME_SET then Some(a.name) else None
  }

  /** The endings the program recognises; a line with any other loses it when it is rewritten. */
  predicate KnownEnding(e: string) {
    e == "" || e == "\n" || e == "\r" || e == "\r\n"
  }

  function KeptEnding(e: string): string {
    if KnownEnding(e) then e else ""
  }

  function RewrittenText(l: Line, replacements: Values): string
    requires SECRET_NAME_SET <= replacements.Keys
  {
    match SecretOf(l)
    case None => Text(l)
    case Some(name) => name + "=" + replacements[name] + KeptEnding(l.ending)
  }

  function RewriteLines(lines: seq<Line>, replacements: Values, replaced: set<string>): Option<string>
    requires SECRET_NAME_SET <= replacements.Keys
  {
    if lines == [] then if replaced == SECRET_NAME_SET then Some("") else None else
      var name := SecretOf(lines[0]);
      if name.Some? && name.value in replaced then None else
        match RewriteLines(lines[1..], replacements, if name.Some? then replaced + {name.value} else replaced)
        case None => None
        case Some(rest) => Some(RewrittenText(lines[0], replacements) + rest)
  }

  function Rewrite(target: string, replacements: Values): Result<(string, nat), HygieneError>
    requires SECRET_NAME_SET <= replacements.Keys
  {
    match RewriteLines(Split(target), replacements, {})
    case None => Failure(InvalidInput)
    case Some(text) => Success((text, |Split(target)|))
  }

  method RewriteTarget(target: string, replacements: Values) returns (r: Result<(string, nat), HygieneError>)
    requires SECRET_NAME_SET <= replacements.Keys
    ensures r == Rewrite(target, replacements)
  {
    var lines := Split(target);
    var replaced: set<string> := {};
    var rewritten: string := "";
    assert lines[0..] == lines;
    PrependedNothing(RewriteLines(lines, replacements, {}));
    for i := 0 to |lines|
      invariant Prepended(rewritten, RewriteLines(lines[i..], replacements, replaced)) == RewriteLines(lines, replacements, {})
    {
      var line := lines[i];
      assert lines[i..][0] == line && lines[i..][1..] == lines[i + 1..];
      var name := SecretOf(line);
      if name.Some? {
        if name.value in replaced { return Failure(InvalidInput); }
        replaced := replaced + {name.value};
      }
      PrependedTwice(rewritten, RewrittenText(line, replacements), RewriteLines(lines[i + 1..], replacements, replaced));
      rewritten := rewritten + RewrittenText(line, replacements);
    }
    if replaced != SECRET_NAME_SET { return Failure(InvalidInput); }
    assert rewritten + "" == rewritten;
    r := Success((rewritten, |lines|));
  }

  function Prepended(text: string, rest: Option<string>): Option<string> {
    match rest case None => None case Some(r) => Some(text + r)
  }

  lemma PrependedNothing(rest: Option<string>)
    ensures Prepended("", rest) == rest
  {
    if rest.Some? { assert "" + rest.value == rest.value; }
  }

  lemma PrependedTwice(a: string, b: string, rest: Option<string>)
    ensures Prepended(a, Prepended(b, rest)) == Prepended(a + b, rest)
  {
    if rest.Some? { assert a + (b + rest.value) == a + b + rest.value; }
  }

  // ---------- when it succeeds ----------

  function Occurrences(lines: seq<Line>, name: string): nat {
    if lines == [] then 0 else Occurrences(lines[1..], name) + if SecretOf(lines[0]) == Some(name) then 1 else 0
  }

  /** Exactly when each of the four names is assigned exactly once. */
  lemma {:induction false} RewritesIffOnceEach(lines: seq<Line>, replacements: Values, replaced: set<string>)
    requires SECRET_NAME_SET <= replacements.Keys && replaced <= SECRET_NAME_SET
    ensures RewriteLines(lines, replacements, replaced).Some? <==>
      forall n :: n in SECRET_NAME_SET ==> Occurrences(lines, n) == if n in replaced then 0 else 1
  {
    if lines != [] {
      var name := SecretOf(lines[0]);
      if name == None {
        RewritesIffOnceEach(lines[1..], replacements, replaced);
        assert forall n :: Occurrences(lines, n) == Occurrences(lines[1..], n);
      } else if name.value in replaced {
        assert Occurrences(lines, name.value) >= 1;
      } else {
        RewritesIffOnceEach(lines[1..], replacements, replaced + {name.value});
        forall n ensures Occurrences(lines, n) == Occurrences(lines[1..], n) + if n == name.value then 1 else 0 {
        }
      }
    }
  }

  // ---------- what it writes ----------

  /** The same line with the new value, or the same line. */
  function Updated(l: Line, replacements: Values): Line
    requires SECRET_NAME_SET <= replacements.Keys
  {
    match SecretOf(l)
    case None => l
    case Some(name) => Line(name + "=" + replacements[name], l.ending)
  }

  function UpdatedAll(lines: seq<Line>, replacements: Values): seq<Line>
    requires SECRET_NAME_SET <= replacements.Keys
  {
    if lines == [] then [] else [Updated(lines[0], replacements)] + UpdatedAll(lines[1..], replacements)
  }

  ghost predicate OneLineValues(replacements: Values) {
    forall n :: n in replacements ==> NoBreaks(replacements[n])
  }

  /** No secret stands on a line with an ending the program does not recognise. */
  ghost predicate SecretsEndKnown(lines: seq<Line>) {
    forall i :: 0 <= i < |lines| && SecretOf(lines[i]).Some? ==> KnownEnding(lines[i].ending)
  }

  lemma UpdatedKeepsName(l: Line, replacements: Values)
    requires SECRET_NAME_SET <= replacements.Keys
    ensures SecretOf(Updated(l, replacements)) == SecretOf(l)
    ensures SecretOf(l).Some? ==>
      Partition(Updated(l, replacements).content) == Some(Assignment(SecretOf(l).value, replacements[SecretOf(l).value]))
  {
    if SecretOf(l).Some? {
      SecretNamesAreClean(SecretOf(l).value);
      PartitionOfAssignment(SecretOf(l).value, replacements[SecretOf(l).value]);
    }
  }

  lemma UpdatedLineIsProper(l: Line, replacements: Values)
    requires SECRET_NAME_SET <= replacements.Keys && OneLineValues(replacements)
    ensures NoBreaks(l.content) ==> NoBreaks(Updated(l, replacements).content)
    ensures SecretOf(l).Some? ==> Updated(l, replacements).content != "" && !StartsWithLineFeed(Updated(l, replacements))
  {
    if SecretOf(l).Some? {
      var name := SecretOf(l).value;
      var content := name + "=" + replacements[name];
      SecretNamesAreClean(name);
      assert content[0] == name[0] && !IsBreak(name[0]);
      assert forall i :: 0 <= i < |content| ==>
        (if i < |name| then content[i] == name[i] else if i == |name| then content[i] == '='
         else content[i] == replacements[name][i - |name| - 1]);
    }
  }

  lemma {:induction false} UpdatedStaysProper(lines: seq<Line>, replacements: Values)
    requires SECRET_NAME_SET <= replacements.Keys && OneLineValues(replacements) && Proper(lines)
    ensures Proper(UpdatedAll(lines, replacements)) && |UpdatedAll(lines, replacements)| == |lines|
  {
    if lines != [] {
      UpdatedStaysProper(lines[1..], replacements);
      UpdatedLineIsProper(lines[0], replacements);
      if |lines| > 1 { UpdatedLineIsProper(lines[1], replacements); }
      assert UpdatedAll(lines, replacements)[1..] == UpdatedAll(lines[1..], replacements);
    }
  }

  /** The written text is the updated lines, less the endings that were not recognised. */
  lemma {:induction false} WrittenLength(lines: seq<Line>, replacements: Values, replaced: set<string>)
    requires SECRET_NAME_SET <= replacements.Keys && RewriteLines(lines, replacements, replaced).Some?
    ensures var text := RewriteLines(lines, replacements, replaced).value;
      && |text| <= |Join(UpdatedAll(lines, replacements))|
      && (SecretsEndKnown(lines) ==> text == Join(UpdatedAll(lines, replacements)))
      && (|text| == |Join(UpdatedAll(lines, replacements))| ==> SecretsEndKnown(lines))
  {
    if lines != [] {
      var l, rest := lines[0], lines[1..];
      var more := if SecretOf(l).Some? then replaced + {SecretOf(l).value} else replaced;
      WrittenLength(rest, replacements, more);
      assert UpdatedAll(lines, replacements)[1..] == UpdatedAll(rest, replacements);
      assert SecretsEndKnown(lines) <==>
        SecretsEndKnown(rest) && (SecretOf(l).Some? ==> KnownEnding(l.ending)) by {
        KnownFirst(lines);
      }
    }
  }

  lemma KnownFirst(lines: seq<Line>)
    requires lines != []
    ensures SecretsEndKnown(lines) <==>
      SecretsEndKnown(lines[1..]) && (SecretOf(lines[0]).Some? ==> KnownEnding(lines[0].ending))
  {
    if SecretsEndKnown(lines[1..]) && (SecretOf(lines[0]).Some? ==> KnownEnding(lines[0].ending)) {
      forall i | 0 <= i < |lines| && SecretOf(lines[i]).Some? ensures KnownEnding(lines[i].ending) {
        if i > 0 { assert lines[i] == lines[1..][i - 1]; }
      }
    }
    if SecretsEndKnown(lines) {
      forall i | 0 <= i < |lines| - 1 && SecretOf(lines[1..][i]).Some? ensures KnownEnding(lines[1..][i].ending) {
        assert lines[1..][i] == lines[i + 1];
      }
    }
  }

  /** A successful rewrite keeps every other line and every ending, and gives each secret its new value, if and
      only if no secret stands on a line with an ending that is not recognised. */
  lemma RewriteKeepsLinesIff(target: string, replacements: Values)
    requires SECRET_NAME_SET <= replacements.Keys && OneLineValues(replacements) && Rewrite(target, replacements).Success?
    ensures Split(Rewrite(target, replacements).value.0) == UpdatedAll(Split(target), replacements)
      <==> SecretsEndKnown(Split(target))
  {
    var lines, text := Split(target), Rewrite(target, replacements).value.0;
    WrittenLength(lines, replacements, {});
    SplitIsProper(target);
    UpdatedStaysProper(lines, replacements);
    SplitOfJoin(UpdatedAll(lines, replacements));
    JoinOfSplit(text);
  }

  function AssignmentLine(name: string, value: string, ending: string): Line {
    Line(name + "=" + value, ending)
  }

  /** Four assignments, one a line, of which only the first ends in a vertical tab. */
  function VerticalTabLines(values: Values): seq<Line>
    requires SECRET_NAME_SET <= values.Keys
  {
    [AssignmentLine(DATABASE_URL, values[DATABASE_URL], "\U{000B}"),
     AssignmentLine(SMTP_PASSWORD, values[SMTP_PASSWORD], "\n"),
     AssignmentLine(STRIPE_KEY, values[STRIPE_KEY], "\n"),
     AssignmentLine(STRIPE_WEBHOOK, values[STRIPE_WEBHOOK], "\n")]
  }

  lemma AssignmentIsOne(name: string, value: string, ending: string)
    requires name in SECRET_NAME_SET && NoBreaks(value)
    ensures var l := AssignmentLine(name, value, ending);
      && SecretOf(l) == Some(name) && NoBreaks(l.content) && l.content != "" && !StartsWithLineFeed(l)
  {
    SecretNamesAreClean(name);
    PartitionOfAssignment(name, value);
    var content := name + "=" + value;
    assert content[0] == name[0] && !IsBreak(name[0]);
    assert forall i :: 0 <= i < |content| ==>
      (if i < |name| then content[i] == name[i] else if i == |name| then content[i] == '='
       else content[i] == value[i - |name| - 1]);
  }

  /** A rare ending does merge two lines: a file whose first secret ends in a vertical tab is rewritten without
      an error, and the result has lost that line. */
  lemma VerticalTabMergesLines(values: Values, replacements: Values)
    requires SECRET_NAME_SET <= values.Keys && SECRET_NAME_SET <= replacements.Keys
    requires OneLineValues(values) && OneLineValues(replacements)
    ensures var target := Join(VerticalTabLines(values));
      && Split(target) == VerticalTabLines(values) && Rewrite(target, replacements).Success?
      && Split(Rewrite(target, replacements).value.0) != UpdatedAll(VerticalTabLines(values), replacements)
  {
    var lines := VerticalTabLines(values);
    VerticalTabLinesAreProper(values);
    SplitOfJoin(lines);
    VerticalTabOccurrences(values);
    RewritesIffOnceEach(lines, replacements, {});
    RewriteKeepsLinesIff(Join(lines), replacements);
    assert SecretOf(lines[0]).Some? && !KnownEnding(lines[0].ending);
  }

  lemma VerticalTabLinesAreProper(values: Values)
    requires SECRET_NAME_SET <= values.Keys && OneLineValues(values)
    ensures Proper(VerticalTabLines(values))
    ensures forall i :: 0 <= i < 4 ==> SecretOf(VerticalTabLines(values)[i]) == Some(SECRET_NAMES[i])
  {
    var lines := VerticalTabLines(values);
    forall i | 0 <= i < 4
      ensures SecretOf(lines[i]) == Some(SECRET_NAMES[i]) && NoBreaks(lines[i].content) && IsEnding(lines[i].ending)
    {
      assert SECRET_NAMES[i] in SECRET_NAME_SET;
      AssignmentIsOne(SECRET_NAMES[i], values[SECRET_NAMES[i]], lines[i].ending);
    }
    assert lines[3..] == [lines[3]] && lines[2..][1..] == lines[3..] && lines[1..][1..] == lines[2..];
    assert Proper(lines[3..]);
    assert Proper(lines[2..]);
    assert Proper(lines[1..]);
  }

  lemma VerticalTabOccurrences(values: Values)
    requires SECRET_NAME_SET <= values.Keys && OneLineValues(values)
    ensures forall n :: n in SECRET_NAME_SET ==> Occurrences(VerticalTabLines(values), n) == 1
  {
    var lines := VerticalTabLines(values);
    VerticalTabLinesAreProper(values);
    SecretNamesAreDistinct();
    assert lines[3..] == [lines[3]] && lines[2..][1..] == lines[3..] && lines[1..][1..] == lines[2..];
    forall n | n in SECRET_NAME_SET ensures Occurrences(lines, n) == 1 {
      assert Occurrences(lines[3..], n) == if n == SECRET_NAMES[3] then 1 else 0;
      assert Occurrences(lines[2..], n) == Occurrences(lines[3..], n) + if n == SECRET_NAMES[2] then 1 else 0;
      assert Occurrences(lines[1..], n) == Occurrences(lines[2..], n) + if n == SECRET_NAMES[1] then 1 else 0;
    }
  }

  /** A text separated by line feeds and carriage returns only. */
  predicate PlainText(text: string) {
    forall i :: 0 <= i < |text| && IsBreak(text[i]) ==> text[i] == '\n' || text[i] == '\r'
  }

  lemma PlainFirstLine(text: string)
    requires text != "" && PlainText(text)
    ensures KnownEnding(FirstLine(text).ending) && PlainText(text[|Text(FirstLine(text))|..])
  {
    var l := FirstLine(text);
    var rest := text[|Text(l)|..];
    assert forall i :: 0 <= i < |rest| ==> rest[i] == text[|Text(l)| + i];
    if l.ending != "" && l.ending != "\r\n" {
      assert Text(l)[|l.content|] == text[|l.content|];
      assert l.ending == [text[|l.content|]];
    }
  }

  lemma {:induction false} PlainTextEndsKnown(text: string)
    requires PlainText(text)
    ensures SecretsEndKnown(Split(text))
    decreases |text|
  {
    if text != "" {
      var l := FirstLine(text);
      var rest := text[|Text(l)|..];
      PlainFirstLine(text);
      SplitUnfolds(text, l, rest);
      PlainTextEndsKnown(rest);
      KnownFirst(Split(text));
    }
  }

  // ---------- the new file ----------

  lemma {:induction false} UpdatedOccurrences(lines: seq<Line>, replacements: Values, name: string)
    requires SECRET_NAME_SET <= replacements.Keys
    ensures Occurrences(UpdatedAll(lines, replacements), name) == Occurrences(lines, name)
    ensures UpdatedAll(UpdatedAll(lines, replacements), replacements) == UpdatedAll(lines, replacements)
    ensures SecretsEndKnown(lines) ==> SecretsEndKnown(UpdatedAll(lines, replacements))
  {
    if lines != [] {
      var l, after := lines[0], UpdatedAll(lines, replacements);
      UpdatedOccurrences(lines[1..], replacements, name);
      UpdatedKeepsName(l, replacements);
      assert after[0] == Updated(l, replacements) && after[1..] == UpdatedAll(lines[1..], replacements);
      KnownFirst(lines);
      KnownFirst(after);
    }
  }

  lemma {:induction false} UpdatedAt(lines: seq<Line>, replacements: Values, i: nat)
    requires SECRET_NAME_SET <= replacements.Keys && i < |lines|
    ensures |UpdatedAll(lines, replacements)| == |lines|
    ensures UpdatedAll(lines, replacements)[i] == Updated(lines[i], replacements)
  {
    if i > 0 { UpdatedAt(lines[1..], replacements, i - 1); } else if |lines| > 1 { UpdatedAt(lines[1..], replacements, 0); }
  }

  /** For a text of the usual separators: as many lines as before, every other line and every ending as it was,
      and each of the four names exactly once, with its new value. */
  lemma RewriteReplacesSecretsOnly(target: string, replacements: Values, i: nat)
    requires SECRET_NAME_SET <= replacements.Keys && OneLineValues(replacements) && PlainText(target)
    requires Rewrite(target, replacements).Success? && i < |Split(target)|
    ensures var before, after := Split(target)[i], Split(Rewrite(target, replacements).value.0);
      && |after| == |Split(target)| == Rewrite(target, replacements).value.1
      && after[i].ending == before.ending
      && (SecretOf(before) == None ==> after[i] == before)
      && (SecretOf(before).Some? ==>
           Partition(after[i].content) == Some(Assignment(SecretOf(before).value, replacements[SecretOf(before).value])))
    ensures forall n :: n in SECRET_NAME_SET ==> Occurrences(Split(Rewrite(target, replacements).value.0), n) == 1
  {
    var lines := Split(target);
    PlainTextEndsKnown(target);
    RewriteKeepsLinesIff(target, replacements);
    RewritesIffOnceEach(lines, replacements, {});
    UpdatedAt(lines, replacements, i);
    UpdatedKeepsName(lines[i], replacements);
    forall n | n in SECRET_NAME_SET ensures Occurrences(UpdatedAll(lines, replacements), n) == 1 {
      UpdatedOccurrences(lines, replacements, n);
    }
  }

  lemma {:induction false} UpdatedLinesRewriteAlike(lines: seq<Line>, replacements: Values, replaced: set<string>)
    requires SECRET_NAME_SET <= replacements.Keys
    ensures RewriteLines(UpdatedAll(lines, replacements), replacements, replaced) == RewriteLines(lines, replacements, replaced)
  {
    if lines != [] {
      var l, rest, after := lines[0], lines[1..], UpdatedAll(lines, replacements);
      var name := SecretOf(l);
      assert after[0] == Updated(l, replacements) && after[1..] == UpdatedAll(rest, replacements);
      UpdatedKeepsName(l, replacements);
      assert RewrittenText(Updated(l, replacements), replacements) == RewrittenText(l, replacements);
      UpdatedLinesRewriteAlike(rest, replacements, if name.Some? then replaced + {name.value} else replaced);
    }
  }

  /** Rewriting the written file again changes nothing. */
  lemma RewriteIsIdempotent(target: string, replacements: Values)
    requires SECRET_NAME_SET <= replacements.Keys && OneLineValues(replacements) && PlainText(target)
    requires Rewrite(target, replacements).Success?
    ensures Rewrite(Rewrite(target, replacements).value.0, replacements) == Rewrite(target, replacements)
  {
    var lines := Split(target);
    PlainTextEndsKnown(target);
    RewriteKeepsLinesIff(target, replacements);
    UpdatedLinesRewriteAlike(lines, replacements, {});
    SplitIsProper(target);
    UpdatedStaysProper(lines, replacements);
  }
}
