/** Splitting text into lines as Python's `str.splitlines` does, and joining them again. */
module Lines {

  /** Every character that ends a line. */
  predicate IsBreak(c: char) {
    c == '\n' || c == '\r' || c == '\U{000B}' || c == '\U{000C}'
    || '\U{001C}' <= c <= '\U{001E}' || c == '\U{0085}' || c == '\U{2028}' || c == '\U{2029}'
  }

  predicate NoBreaks(s: string) {
    forall i :: 0 <= i < |s| ==> !IsBreak(s[i])
  }

  datatype Line = Line(content: string, ending: string)

  function FirstBreak(text: string): (i: nat)
    ensures i <= |text| && NoBreaks(text[..i])
    ensures i < |text| ==> IsBreak(text[i])
  {
    if text == "" || IsBreak(text[0]) then 0 else
      var i := FirstBreak(text[1..]);
      assert text[..i + 1] == [text[0]] + text[1..][..i];
      i + 1
  }

  /** A carriage return and a line feed together are one ending. */
  function EndingLength(text: string, i: nat): nat
    requires i < |text|
  {
    if text[i] == '\r' && i + 1 < |text| && text[i + 1] == '\n' then 2 else 1
  }

  predicate IsEnding(e: string) {
    (|e| == 1 && IsBreak(e[0])) || e == "\r\n"
  }

  function Text(l: Line): string {
    l.content + l.ending
  }

  function FirstLine(text: string): (l: Line)
    requires text != ""
    ensures Text(l) != "" && Text(l) <= text && NoBreaks(l.content)
    ensures IsEnding(l.ending) || (l.ending == "" && l.content == text)
    ensures l.ending == "\r" && |Text(l)| < |text| ==> text[|Text(l)|] != '\n'
  {
    var i := FirstBreak(text);
    if i == |text| then
      assert text[..i] == text;
      Line(text, "")
    else
      var n := i + EndingLength(text, i);
      assert text[..n] == text[..i] + text[i..n];
      assert if n == i + 2 then text[i..n] == "\r\n" else text[i..n] == [text[i]];
      Line(text[..i], text[i..n])
  }

  function Split(text: string): seq<Line> {
    if text == "" then [] else
      var l := FirstLine(text);
      [l] + Split(text[|Text(l)|..])
  }

  function Join(lines: seq<Line>): string {
    if lines == [] then "" else Text(lines[0]) + Join(lines[1..])
  }

  /** Lines that a text can be split into: only the last may lack an ending, and a carriage return is not
      followed by a line that starts with a line feed. */
  ghost predicate Proper(lines: seq<Line>) {
    lines == [] ||
      (&& NoBreaks(lines[0].content)
       && (if |lines| == 1 && lines[0].ending == "" then lines[0].content != "" else IsEnding(lines[0].ending))
       && (lines[0].ending == "\r" && |lines| > 1 ==> !StartsWithLineFeed(lines[1]))
       && Proper(lines[1..]))
  }

  predicate StartsWithLineFeed(l: Line) {
    Text(l) != "" && Text(l)[0] == '\n'
  }

  lemma SplitUnfolds(text: string, l: Line, rest: string)
    requires text != "" && l == FirstLine(text) && rest == text[|Text(l)|..]
    ensures text == Text(l) + rest
    ensures Split(text) == [l] + Split(rest) && Split(text)[0] == l && Split(text)[1..] == Split(rest)
  {
  }

  lemma {:induction false} JoinOfSplit(text: string)
    ensures Join(Split(text)) == text
    decreases |text|
  {
    if text != "" {
      var l := FirstLine(text);
      var rest := text[|Text(l)|..];
      SplitUnfolds(text, l, rest);
      JoinOfSplit(rest);
    }
  }

  lemma {:induction false} SplitIsProper(text: string)
    ensures Proper(Split(text))
    ensures text != "" ==> Split(text) != [] && Text(Split(text)[0]) != "" && Text(Split(text)[0])[0] == text[0]
    decreases |text|
  {
    if text != "" {
      var l := FirstLine(text);
      var rest := text[|Text(l)|..];
      SplitUnfolds(text, l, rest);
      SplitIsProper(rest);
    }
  }

  lemma {:induction false} FirstBreakAt(text: string, i: nat)
    requires i <= |text| && NoBreaks(text[..i]) && (i < |text| ==> IsBreak(text[i]))
    ensures FirstBreak(text) == i
  {
    if i > 0 {
      assert !IsBreak(text[..i][0]);
      assert text[1..][..i - 1] == text[..i][1..];
      FirstBreakAt(text[1..], i - 1);
    }
  }

  lemma FirstLineIs(l: Line, rest: string)
    requires NoBreaks(l.content) && IsEnding(l.ending)
    requires l.ending == "\r" && rest != "" ==> rest[0] != '\n'
    ensures FirstLine(Text(l) + rest) == l
  {
    var text, i := Text(l) + rest, |l.content|;
    assert text[..i] == l.content && text[i] == l.ending[0];
    FirstBreakAt(text, i);
    assert EndingLength(text, i) == |l.ending|;
    assert text[i..i + |l.ending|] == l.ending;
  }

  lemma SplitOneLine(l: Line, rest: string)
    requires NoBreaks(l.content) && IsEnding(l.ending)
    requires l.ending == "\r" && rest != "" ==> rest[0] != '\n'
    ensures Split(Text(l) + rest) == [l] + Split(rest)
  {
    FirstLineIs(l, rest);
    SplitUnfolds(Text(l) + rest, l, rest);
  }

  lemma {:induction false} JoinStarts(lines: seq<Line>)
    requires Proper(lines) && lines != []
    ensures Join(lines) != "" && Text(lines[0]) != "" && Join(lines)[0] == Text(lines[0])[0]
  {
  }

  /** Proper lines are exactly those that splitting gives back. */
  lemma {:induction false} SplitOfJoin(lines: seq<Line>)
    requires Proper(lines)
    ensures Split(Join(lines)) == lines
  {
    if lines != [] {
      var l, rest := lines[0], lines[1..];
      SplitOfJoin(rest);
      assert lines == [l] + rest;
      if l.ending == "" {
        assert rest == [] && Join(lines) == l.content;
        assert l.content[..|l.content|] == l.content;
        FirstBreakAt(l.content, |l.content|);
        SplitUnfolds(l.content, l, "");
      } else {
        if rest != [] { JoinStarts(rest); }
        SplitOneLine(l, Join(rest));
      }
    }
  }
}
