/** The six-cell severity bar shown in every alert (`get_severity_appearance`). */
module Severity {

  /** One cell of the bar: a coloured square for each tier, or the neutral white square. */
  datatype Cell = Blue | Green | Yellow | Orange | Red | Blank

  const BarWidth: nat := 6

  /** The bar for a severity: five tiers chosen by inclusive thresholds 2, 4, 6 and 8. */
  function Bar(severity: int): (bar: seq<Cell>)
    ensures |bar| == BarWidth
  {
    if severity <= 2 then [Blue, Blue, Blank, Blank, Blank, Blank]
    else if severity <= 4 then [Green, Green, Green, Blank, Blank, Blank]
    else if severity <= 6 then [Yellow, Yellow, Yellow, Yellow, Blank, Blank]
    else if severity <= 8 then [Orange, Orange, Orange, Orange, Orange, Blank]
    else [Red, Red, Red, Red, Red, Red]
  }

  /** Number of coloured cells in a bar. */
  function Filled(bar: seq<Cell>): (n: nat)
    ensures n <= |bar|
  {
    if bar == [] then 0 else (if bar[0] == Blank then 0 else 1) + Filled(bar[1..])
  }

  /** Reference fill count, by arithmetic instead of a chain of comparisons:
      one extra cell per two severity points above 2, between 2 and 6 cells. */
  function ExpectedFill(severity: int): (n: nat)
    ensures 2 <= n <= BarWidth
  {
    if severity <= 2 then 2 else if severity >= 9 then 6 else (severity + 1) / 2 + 1
  }

  /** The tier colour of a severity. */
  function TierColor(severity: int): (c: Cell)
    ensures c != Blank
  {
    if severity <= 2 then Blue
    else if severity <= 4 then Green
    else if severity <= 6 then Yellow
    else if severity <= 8 then Orange
    else Red
  }

  /** The bar has the reference fill count, its coloured cells come first and all
      have the tier colour, and the rest are blank. */
  lemma BarShape(severity: int)
    ensures Filled(Bar(severity)) == ExpectedFill(severity)
    ensures forall i :: 0 <= i < BarWidth ==>
      Bar(severity)[i] == if i < ExpectedFill(severity) then TierColor(severity) else Blank
  {
    var b := Bar(severity);
    assert Filled(b[6..]) == 0;
    assert Filled(b[5..]) == (if b[5] == Blank then 0 else 1);
    assert Filled(b[4..]) == (if b[4] == Blank then 0 else 1) + Filled(b[5..]);
    assert Filled(b[3..]) == (if b[3] == Blank then 0 else 1) + Filled(b[4..]);
    assert Filled(b[2..]) == (if b[2] == Blank then 0 else 1) + Filled(b[3..]);
    assert Filled(b[1..]) == (if b[1] == Blank then 0 else 1) + Filled(b[2..]);
  }

  /** The fill count is the five-tier step function: 2 up to severity 2, 3 up to 4,
      4 up to 6, 5 up to 8 and 6 above, each boundary belonging to the lower tier. */
  lemma FillTiers(severity: int)
    ensures Filled(Bar(severity)) == 2 <==> severity <= 2
    ensures Filled(Bar(severity)) == 3 <==> 2 < severity <= 4
    ensures Filled(Bar(severity)) == 4 <==> 4 < severity <= 6
    ensures Filled(Bar(severity)) == 5 <==> 6 < severity <= 8
    ensures Filled(Bar(severity)) == 6 <==> 8 < severity
  {
    BarShape(severity);
  }

  /** A higher severity never shows fewer coloured cells. */
  lemma FillMonotone(a: int, b: int)
    requires a <= b
    ensures Filled(Bar(a)) <= Filled(Bar(b))
  {
    BarShape(a);
    BarShape(b);
  }

  /** The text of one cell; the blank cell is a white square followed by the
      emoji variation selector. */
  function Glyph(c: Cell): (s: string)
    ensures |s| == if c == Blank then 2 else 1
  {
    match c
    case Blue => "\U{1F7E6}"
    case Green => "\U{1F7E9}"
    case Yellow => "\U{1F7E8}"
    case Orange => "\U{1F7E7}"
    case Red => "\U{1F7E5}"
    case Blank => "\U{2B1C}\U{FE0F}"
  }

  function CellsText(cells: seq<Cell>): string
  {
    if cells == [] then "" else Glyph(cells[0]) + CellsText(cells[1..])
  }

  /** `n` copies of a text, one after the other. */
  function Repeat(t: string, n: nat): string
  {
    if n == 0 then "" else t + Repeat(t, n - 1)
  }

  /** The bar as it appears in the message: the tier's coloured square as many
      times as the fill count, then the blank square for the remaining cells. */
  function BarText(severity: int): (s: string)
    ensures s == Repeat(Glyph(TierColor(severity)), ExpectedFill(severity))
               + Repeat(Glyph(Blank), BarWidth - ExpectedFill(severity))
  {
    BarTextRuns(severity);
    CellsText(Bar(severity))
  }

  lemma BarTextRuns(severity: int)
    ensures CellsText(Bar(severity)) == Repeat(Glyph(TierColor(severity)), ExpectedFill(severity))
                                      + Repeat(Glyph(Blank), BarWidth - ExpectedFill(severity))
  {
    var k := ExpectedFill(severity);
    var c := TierColor(severity);
    BarShape(severity);
    assert Bar(severity) == Run(c, k) + Run(Blank, BarWidth - k);
    CellsTextAppend(Run(c, k), Run(Blank, BarWidth - k));
    CellsTextRun(c, k);
    CellsTextRun(Blank, BarWidth - k);
  }

  /** `n` cells of one kind. */
  function Run(c: Cell, n: nat): (cells: seq<Cell>)
    ensures |cells| == n && forall i :: 0 <= i < n ==> cells[i] == c
  {
    seq(n, _ => c)
  }

  lemma {:induction false} CellsTextAppend(a: seq<Cell>, b: seq<Cell>)
    ensures CellsText(a + b) == CellsText(a) + CellsText(b)
  {
    if a != [] {
      assert (a + b)[1..] == a[1..] + b;
      CellsTextAppend(a[1..], b);
    } else {
      assert a + b == b;
    }
  }

  lemma {:induction false} CellsTextRun(c: Cell, n: nat)
    ensures CellsText(Run(c, n)) == Repeat(Glyph(c), n)
  {
    if n > 0 {
      assert Run(c, n)[1..] == Run(c, n - 1);
      CellsTextRun(c, n - 1);
    }
  }

  /** The text of a row of cells has one character per coloured cell and two per
      blank one. */
  lemma {:induction false} CellsTextLength(cells: seq<Cell>)
    ensures |CellsText(cells)| == Filled(cells) + 2 * (|cells| - Filled(cells))
  {
    if cells != [] {
      CellsTextLength(cells[1..]);
    }
  }
}
