/** The alert text built for one offense (`create_offense_for_telegram`). */
module Formatter {

  import opened Wrappers
  import opened Decimal
  import opened Severity
  import opened Offenses

  /** The text printed for an absent optional key. */
  const NotAvailable: string := "N/A"

  /** Fixed path and query of the SIEM console's offense summary page, before the id. */
  const SummaryPath: string :=
    "console/qradar/jsp/" + "QRadar.jsp?appName=Sem" + "&pageId=OffenseSummary" + "&summaryId="

  /** The two characters backslash and `n`: an escaped newline written out literally. */
  const EscapedNewline: string := "\\n"

  // ---------------------------------------------------------------------------
  // Description sanitising: `description.replace("\\n", "")`

  predicate EscapeAt(s: string, i: int) {
    0 <= i && i + 1 < |s| && s[i] == '\\' && s[i + 1] == 'n'
  }

  predicate HasEscape(s: string) {
    exists i :: 0 <= i < |s| && EscapeAt(s, i)
  }

  /** Removes every escaped newline, scanning left to right and never looking at
      the same character twice, as Python's `str.replace` does. */
  function StripEscapes(s: string): (r: string)
    ensures |r| <= |s|
    ensures forall c :: c in r ==> c in s
    decreases |s|
  {
    if |s| < 2 then s
    else if s[0] == '\\' && s[1] == 'n' then StripEscapes(s[2..])
    else [s[0]] + StripEscapes(s[1..])
  }

  /** Text without an escaped newline is left as it is. */
  lemma {:induction false} StripWithoutEscape(s: string)
    requires !HasEscape(s)
    ensures StripEscapes(s) == s
    decreases |s|
  {
    if |s| >= 2 {
      assert !EscapeAt(s, 0);
      assert !HasEscape(s[1..]) by {
        forall i | EscapeAt(s[1..], i) ensures EscapeAt(s, i + 1) { }
      }
      StripWithoutEscape(s[1..]);
    }
  }

  /** Each escaped newline is cut out and the text on either side is kept
      (and sanitised on its own): the removal never reaches across an occurrence. */
  lemma {:induction false} StripSplits(a: string, b: string)
    ensures StripEscapes(a + EscapedNewline + b) == StripEscapes(a) + StripEscapes(b)
    decreases |a|
  {
    var s := a + EscapedNewline + b;
    if |a| == 0 {
      assert s == EscapedNewline + b;
      assert s[2..] == b;
    } else if |a| == 1 {
      assert s[1] == '\\' && s[1..] == EscapedNewline + b;
      assert s[1..][2..] == b;
      assert StripEscapes(s) == [a[0]] + StripEscapes(s[1..]);
    } else if a[0] == '\\' && a[1] == 'n' {
      assert s[2..] == a[2..] + EscapedNewline + b;
      StripSplits(a[2..], b);
      assert StripEscapes(s) == StripEscapes(s[2..]);
    } else {
      assert s[1..] == a[1..] + EscapedNewline + b;
      StripSplits(a[1..], b);
      assert StripEscapes(s) == [s[0]] + StripEscapes(s[1..]);
      assert StripEscapes(a) == [a[0]] + StripEscapes(a[1..]);
    }
  }

  /** A single pass can join a backslash and an `n` that were apart: the text
      backslash, backslash, `n`, `n` becomes backslash, `n`. */
  lemma StripCanLeaveEscape()
    ensures StripEscapes("\\\\nn") == EscapedNewline
    ensures HasEscape(StripEscapes("\\\\nn"))
  {
    assert "\\\\nn"[1..] == "\\nn";
    assert "\\nn"[2..] == "n";
    assert EscapeAt(EscapedNewline, 0);
  }

  // ---------------------------------------------------------------------------
  // The message: eight labelled lines in a fixed order

  datatype Field = OffenseId | Time | Category | OffenseSource | SourceNetwork
                 | DestinationNetworks | SeverityBar | Link

  /** The fields of a message, in the order they appear. */
  const FieldOrder: seq<Field> :=
    [OffenseId, Time, Category, OffenseSource, SourceNetwork, DestinationNetworks, SeverityBar, Link]

  /** The bold Markdown label that opens each line. */
  function Label(f: Field): (s: string)
    ensures |s| > 0 && s[0] == '*'
  {
    match f
    case OffenseId => "*Offense id*:"
    case Time => "*Time:*"
    case Category => "*Category:*"
    case OffenseSource => "*Offense Source:*"
    case SourceNetwork => "*Source Network:*"
    case DestinationNetworks => "*Destination Networks:*"
    case SeverityBar => "*Severity:*"
    case Link => "*URL:*"
  }

  datatype Line = Line(field: Field, value: string)

  /** Deep link to the offense's summary page in the SIEM console. */
  function OffenseUrl(siemUrl: string, id: Id): (u: string)
    ensures |u| == |siemUrl| + |SummaryPath| + |IdText(id)|
    ensures u[..|siemUrl|] == siemUrl
    ensures u[|siemUrl|..|siemUrl| + |SummaryPath|] == SummaryPath
    ensures u[|siemUrl| + |SummaryPath|..] == IdText(id)
  {
    siemUrl + SummaryPath + IdText(id)
  }

  /** The lines of the alert for `o`. `showTime` stands for the conversion of the
      start time (epoch milliseconds) to local date-time text. */
  function Format(siemUrl: string, showTime: int -> string, o: Offense): (m: seq<Line>)
    ensures |m| == |FieldOrder|
    ensures forall k :: 0 <= k < |m| ==> m[k].field == FieldOrder[k]
  {
    [ Line(OffenseId, IdText(o.id) + " - " + StripEscapes(o.description)),
      Line(Time, showTime(o.startTime)),
      Line(Category, o.categories.GetOr(NotAvailable)),
      Line(OffenseSource, o.offenseSource.GetOr(NotAvailable)),
      Line(SourceNetwork, o.sourceNetwork.GetOr(NotAvailable)),
      Line(DestinationNetworks, o.destinationNetworks.GetOr(NotAvailable)),
      Line(SeverityBar, BarText(o.severity)),
      Line(Link, "[click here](" + OffenseUrl(siemUrl, o.id) + ")") ]
  }

  /** An absent optional key shows as `N/A`; a present one shows its own text. */
  lemma FormatDefaults(siemUrl: string, showTime: int -> string, o: Offense)
    ensures Format(siemUrl, showTime, o)[2].value == if o.categories.None? then NotAvailable else o.categories.value
    ensures Format(siemUrl, showTime, o)[3].value == if o.offenseSource.None? then NotAvailable else o.offenseSource.value
    ensures Format(siemUrl, showTime, o)[4].value == if o.sourceNetwork.None? then NotAvailable else o.sourceNetwork.value
    ensures Format(siemUrl, showTime, o)[5].value ==
      if o.destinationNetworks.None? then NotAvailable else o.destinationNetworks.value
  {
  }

  /** The Time line shows the converted start time, and the Severity line shows
      the offense's bar: the tier's square as many times as the fill count, then
      blank squares up to six. */
  lemma FormatValues(siemUrl: string, showTime: int -> string, o: Offense)
    ensures Format(siemUrl, showTime, o)[1].value == showTime(o.startTime)
    ensures Format(siemUrl, showTime, o)[6].value == BarText(o.severity)
    ensures Format(siemUrl, showTime, o)[6].value ==
      Repeat(Glyph(TierColor(o.severity)), ExpectedFill(o.severity))
      + Repeat(Glyph(Blank), BarWidth - ExpectedFill(o.severity))
  {
  }

  /** The first line reads back as the offense id, then ` - `, then the
      sanitised description. */
  lemma FormatHeadline(siemUrl: string, showTime: int -> string, o: Offense)
    ensures var v := Format(siemUrl, showTime, o)[0].value;
      var n := |IdText(o.id)|;
      n + 3 <= |v| && ParseId(v[..n]) == Some(o.id) && v[n..n + 3] == " - " &&
      v[n + 3..] == StripEscapes(o.description)
  {
    var v := Format(siemUrl, showTime, o)[0].value;
    var n := |IdText(o.id)|;
    assert v[..n] == IdText(o.id);
    ParseIdText(o.id);
  }

  /** The link line wraps the deep link, whose tail after the fixed summary path
      reads back as the offense id: two offenses share a link exactly when they
      share an id. */
  lemma FormatLink(siemUrl: string, showTime: int -> string, o: Offense, p: Offense)
    ensures var v := Format(siemUrl, showTime, o)[7].value;
      var u := v[13..|v| - 1];
      v[..13] == "[click here](" && v[|v| - 1] == ')' &&
      u[..|siemUrl| + |SummaryPath|] == siemUrl + SummaryPath &&
      ParseId(u[|siemUrl| + |SummaryPath|..]) == Some(o.id)
    ensures Format(siemUrl, showTime, o)[7] == Format(siemUrl, showTime, p)[7] <==> o.id == p.id
  {
    var v := Format(siemUrl, showTime, o)[7].value;
    var u := OffenseUrl(siemUrl, o.id);
    assert v[13..|v| - 1] == u;
    assert u[..|siemUrl| + |SummaryPath|] == siemUrl + SummaryPath;
    ParseIdText(o.id);
    if Format(siemUrl, showTime, o)[7] == Format(siemUrl, showTime, p)[7] {
      var w := Format(siemUrl, showTime, p)[7].value;
      var u' := OffenseUrl(siemUrl, p.id);
      assert w[13..|w| - 1] == u';
      assert IdText(o.id) == IdText(p.id);
      IdTextInjective(o.id, p.id);
    }
  }

  // ---------------------------------------------------------------------------
  // Rendering: the lines joined by newline characters

  function LineText(l: Line): string {
    Label(l.field) + " " + l.value
  }

  function JoinLines(ls: seq<string>): string {
    if |ls| == 0 then "" else if |ls| == 1 then ls[0] else ls[0] + "\n" + JoinLines(ls[1..])
  }

  /** Splits text at every newline character, as Python's `str.split("\n")`. */
  function SplitLines(s: string): (r: seq<string>)
    ensures |r| > 0
  {
    if s == [] then [""]
    else if s[0] == '\n' then [""] + SplitLines(s[1..])
    else var rest := SplitLines(s[1..]); [[s[0]] + rest[0]] + rest[1..]
  }

  /** The lines joined by newline characters: the text opens with the first
      line and closes with the last. */
  function Render(m: seq<Line>): (r: string)
    ensures |m| > 0 ==> |LineText(m[0])| <= |r| && r[..|LineText(m[0])|] == LineText(m[0])
    ensures |m| > 0 ==> |LineText(m[|m| - 1])| <= |r| && r[|r| - |LineText(m[|m| - 1])|..] == LineText(m[|m| - 1])
  {
    var ls := seq(|m|, k requires 0 <= k < |m| => LineText(m[k]));
    JoinLinesEnds(ls);
    JoinLines(ls)
  }

  /** The text `create_offense_for_telegram` returns: it opens with the bold id
      label, the id and ` - `, and closes with the deep link in parentheses. */
  function Message(siemUrl: string, showTime: int -> string, o: Offense): (r: string)
    ensures var head := Label(OffenseId) + " " + IdText(o.id) + " - ";
      |head| <= |r| && r[..|head|] == head
    ensures var tail := "(" + OffenseUrl(siemUrl, o.id) + ")";
      |tail| <= |r| && r[|r| - |tail|..] == tail
  {
    MessageBounds(siemUrl, showTime, o);
    Render(Format(siemUrl, showTime, o))
  }

  lemma MessageBounds(siemUrl: string, showTime: int -> string, o: Offense)
    ensures var r := Render(Format(siemUrl, showTime, o));
      var head := Label(OffenseId) + " " + IdText(o.id) + " - ";
      |head| <= |r| && r[..|head|] == head
    ensures var r := Render(Format(siemUrl, showTime, o));
      var tail := "(" + OffenseUrl(siemUrl, o.id) + ")";
      |tail| <= |r| && r[|r| - |tail|..] == tail
  {
    var m := Format(siemUrl, showTime, o);
    var head := Label(OffenseId) + " " + IdText(o.id) + " - ";
    var tail := "(" + OffenseUrl(siemUrl, o.id) + ")";
    FirstLineText(siemUrl, showTime, o);
    LastLineText(siemUrl, showTime, o);
    MessageEnds(m, head, tail);
  }

  lemma FirstLineText(siemUrl: string, showTime: int -> string, o: Offense)
    ensures LineText(Format(siemUrl, showTime, o)[0]) ==
      Label(OffenseId) + " " + IdText(o.id) + " - " + StripEscapes(o.description)
  {
  }

  lemma LastLineText(siemUrl: string, showTime: int -> string, o: Offense)
    ensures var m := Format(siemUrl, showTime, o);
      LineText(m[|m| - 1]) == Label(Link) + " [click here]" + ("(" + OffenseUrl(siemUrl, o.id) + ")")
  {
  }

  lemma MessageEnds(m: seq<Line>, head: string, tail: string)
    requires |m| > 0
    requires |head| <= |LineText(m[0])| && LineText(m[0])[..|head|] == head
    requires |tail| <= |LineText(m[|m| - 1])|
    requires LineText(m[|m| - 1])[|LineText(m[|m| - 1])| - |tail|..] == tail
    ensures |head| <= |Render(m)| && Render(m)[..|head|] == head
    ensures |tail| <= |Render(m)| && Render(m)[|Render(m)| - |tail|..] == tail
  {
    var r := Render(m);
    var first := LineText(m[0]);
    var last := LineText(m[|m| - 1]);
    assert r[..|head|] == r[..|first|][..|head|];
    assert r[|r| - |tail|..] == r[|r| - |last|..][|last| - |tail|..];
  }

  lemma {:induction false} JoinLinesEnds(ls: seq<string>)
    ensures |ls| > 0 ==> |ls[0]| <= |JoinLines(ls)| && JoinLines(ls)[..|ls[0]|] == ls[0]
    ensures |ls| > 0 ==>
      |ls[|ls| - 1]| <= |JoinLines(ls)| && JoinLines(ls)[|JoinLines(ls)| - |ls[|ls| - 1]|..] == ls[|ls| - 1]
  {
    if |ls| > 1 {
      JoinLinesEnds(ls[1..]);
      var rest := JoinLines(ls[1..]);
      var r := JoinLines(ls);
      assert r == ls[0] + "\n" + rest;
      assert r[..|ls[0]|] == ls[0];
      assert ls[1..][|ls[1..]| - 1] == ls[|ls| - 1];
      assert r[|r| - |ls[|ls| - 1]|..] == rest[|rest| - |ls[|ls| - 1]|..];
    }
  }

  lemma {:induction false} SplitAfterLine(a: string, b: string)
    requires '\n' !in a
    ensures SplitLines(a + "\n" + b) == [a] + SplitLines(b)
    ensures SplitLines(a) == [a]
    decreases |a|
  {
    if a == [] {
      assert a + "\n" + b == "\n" + b;
      assert ("\n" + b)[1..] == b;
    } else {
      assert (a + "\n" + b)[1..] == a[1..] + "\n" + b;
      SplitAfterLine(a[1..], b);
      assert [a[0]] + a[1..] == a;
    }
  }

  /** Joining lines that hold no newline and splitting the result gives the lines back. */
  lemma {:induction false} SplitJoin(ls: seq<string>)
    requires |ls| > 0
    requires forall k :: 0 <= k < |ls| ==> '\n' !in ls[k]
    ensures SplitLines(JoinLines(ls)) == ls
  {
    if |ls| == 1 {
      SplitAfterLine(ls[0], "");
    } else {
      SplitAfterLine(ls[0], JoinLines(ls[1..]));
      SplitJoin(ls[1..]);
    }
  }

  lemma {:induction false} NoNewlineInCells(cells: seq<Cell>)
    ensures '\n' !in CellsText(cells)
  {
    if cells != [] {
      NoNewlineInCells(cells[1..]);
    }
  }

  lemma NoNewlineInBar(severity: int)
    ensures '\n' !in BarText(severity)
  {
    NoNewlineInCells(Bar(severity));
  }

  lemma NoNewlineInLink(siemUrl: string, id: Id)
    requires '\n' !in siemUrl
    ensures '\n' !in "[click here](" + OffenseUrl(siemUrl, id) + ")"
  {
    var t := IdText(id);
    assert '\n' !in t;
    NoNewlineInPath();
    var u := siemUrl + SummaryPath + t;
    assert '\n' !in u;
    assert u == OffenseUrl(siemUrl, id);
  }

  lemma NoNewlineInPath()
    ensures '\n' !in SummaryPath
  {
  }

  predicate NoNewline(t: Option<string>) {
    t.Some? ==> '\n' !in t.value
  }

  /** When no input text holds a newline character, the message is exactly eight
      lines, in the fixed field order, each opening with its label. */
  lemma MessageLines(siemUrl: string, showTime: int -> string, o: Offense)
    requires '\n' !in siemUrl && '\n' !in o.description && '\n' !in showTime(o.startTime)
    requires NoNewline(o.categories) && NoNewline(o.offenseSource)
    requires NoNewline(o.sourceNetwork) && NoNewline(o.destinationNetworks)
    ensures var ls := SplitLines(Message(siemUrl, showTime, o));
      |ls| == |FieldOrder| &&
      forall k :: 0 <= k < |ls| ==>
        ls[k] == Label(FieldOrder[k]) + " " + Format(siemUrl, showTime, o)[k].value
  {
    var m := Format(siemUrl, showTime, o);
    FormatWithoutNewline(siemUrl, showTime, o);
    ValuesWithoutNewline(m);
    var ls := SplitLines(Message(siemUrl, showTime, o));
    assert ls == seq(|m|, k requires 0 <= k < |m| => LineText(m[k]));
    forall k | 0 <= k < |ls|
      ensures ls[k] == Label(FieldOrder[k]) + " " + m[k].value
    {
      assert ls[k] == LineText(m[k]);
    }
  }

  lemma FormatWithoutNewline(siemUrl: string, showTime: int -> string, o: Offense)
    requires '\n' !in siemUrl && '\n' !in o.description && '\n' !in showTime(o.startTime)
    requires NoNewline(o.categories) && NoNewline(o.offenseSource)
    requires NoNewline(o.sourceNetwork) && NoNewline(o.destinationNetworks)
    ensures forall k :: 0 <= k < |Format(siemUrl, showTime, o)| ==> '\n' !in Format(siemUrl, showTime, o)[k].value
  {
    var m := Format(siemUrl, showTime, o);
    var id := IdText(o.id);
    assert '\n' !in id;
    assert '\n' !in m[0].value by {
      var d := StripEscapes(o.description);
      assert '\n' !in d;
      assert m[0].value == id + " - " + d;
    }
    assert '\n' !in m[6].value by {
      NoNewlineInBar(o.severity);
    }
    assert '\n' !in m[7].value by {
      NoNewlineInLink(siemUrl, o.id);
    }
    forall k | 0 <= k < |m| ensures '\n' !in m[k].value {
      if 1 <= k <= 5 {
        assert m[k].value in [showTime(o.startTime), o.categories.GetOr(NotAvailable),
          o.offenseSource.GetOr(NotAvailable), o.sourceNetwork.GetOr(NotAvailable),
          o.destinationNetworks.GetOr(NotAvailable)];
      }
    }
  }

  lemma ValuesWithoutNewline(m: seq<Line>)
    requires |m| > 0
    requires forall k :: 0 <= k < |m| ==> '\n' !in m[k].value
    ensures SplitLines(Render(m)) == seq(|m|, k requires 0 <= k < |m| => LineText(m[k]))
  {
    var ts := seq(|m|, k requires 0 <= k < |m| => LineText(m[k]));
    forall k | 0 <= k < |ts| ensures '\n' !in ts[k] {
      LabelWithoutNewline(m[k]);
    }
    assert Render(m) == JoinLines(ts);
    SplitJoin(ts);
  }

  lemma LabelWithoutNewline(l: Line)
    requires '\n' !in l.value
    ensures '\n' !in LineText(l)
  {
    assert '\n' !in Label(l.field);
  }
}
