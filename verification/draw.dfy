/** The renderer (draw/draw.go). The Go `Draw` writes to an `io.Writer`; here each
    drawing step is a function returning the text it appends to the writer. */
module Draw {
  import opened Text
  import opened Rows

  /** The two sections of a table, each with its own border style. */
  datatype Section = Head | Body

  /** The six line switches, the glyphs of both sections and the column capacities. */
  datatype Drawer = Drawer(
    lineHeadTop: bool, lineHeadBot: bool, lineHeadV: bool,
    lineBodyTop: bool, lineBodyBot: bool, lineBodyV: bool,
    headEdge: char, headLineH: char, headLineV: char,
    bodyEdge: char, bodyLineH: char, bodyLineV: char,
    columnCap: ColumnCap)

  // ---------------------------------------------------------------------------
  // Section selectors
  // ---------------------------------------------------------------------------

  /** Whether the section draws its own vertical lines. */
  function IsLineV(d: Drawer, s: Section): bool
  {
    if s == Body then d.lineBodyV else d.lineHeadV
  }

  /** Whether the other section draws vertical lines. */
  function IsOppositeVLineTrue(d: Drawer, s: Section): bool
  {
    if s == Body then d.lineHeadV else d.lineBodyV
  }

  function EdgeRune(d: Drawer, s: Section): char
  {
    if s == Body then d.bodyEdge else d.headEdge
  }

  function HLineRune(d: Drawer, s: Section): char
  {
    if s == Body then d.bodyLineH else d.headLineH
  }

  function VLineRune(d: Drawer, s: Section): char
  {
    if s == Body then d.bodyLineV else d.headLineV
  }

  /** Whether a vertical line runs anywhere in the table. */
  predicate AnyLineV(d: Drawer)
  {
    d.lineHeadV || d.lineBodyV
  }

  // ---------------------------------------------------------------------------
  // The cross-section rule
  // ---------------------------------------------------------------------------

  /** The glyph at an edge or separator position of a rule line: the section's own
      edge glyph when it draws vertical lines; otherwise its horizontal glyph when
      the other section draws them, so that the columns stay aligned; otherwise
      nothing. */
  function WriteEdge(vLine: bool, oppositeVLineTrue: bool, edge: char, hline: char): (r: string)
    ensures |r| == (if vLine || oppositeVLineTrue then 1 else 0)
    ensures vLine ==> r == [edge]
    ensures !vLine && oppositeVLineTrue ==> r == [hline]
  {
    if vLine then [edge]
    else if oppositeVLineTrue then [hline]
    else []
  }

  /** What `writeEdge` appends when called for section `s`. */
  function SectionEdge(d: Drawer, s: Section): string
  {
    WriteEdge(IsLineV(d, s), IsOppositeVLineTrue(d, s), EdgeRune(d, s), HLineRune(d, s))
  }

  /** The separator in a cell line: the section's vertical glyph when it draws
      vertical lines, a space when only the other section does, else nothing. It is
      exactly as wide as the section's rule-line edge. */
  function LineV(d: Drawer, s: Section): (r: string)
    ensures |r| == |SectionEdge(d, s)|
    ensures IsLineV(d, s) ==> r == [VLineRune(d, s)]
    ensures !IsLineV(d, s) && IsOppositeVLineTrue(d, s) ==> r == " "
    ensures !AnyLineV(d) ==> r == ""
  {
    if IsLineV(d, s) then [VLineRune(d, s)]
    else if IsOppositeVLineTrue(d, s) then " "
    else ""
  }

  /** Both sections put a one-character marker at every edge and separator position
      as soon as either draws vertical lines, and none otherwise, so head and body
      lines line up. */
  lemma CouplingAligns(d: Drawer)
    ensures |SectionEdge(d, Head)| == |SectionEdge(d, Body)| == |LineV(d, Head)| == |LineV(d, Body)|
    ensures |SectionEdge(d, Head)| == if AnyLineV(d) then 1 else 0
  {
  }

  // ---------------------------------------------------------------------------
  // lineH
  // ---------------------------------------------------------------------------

  /** The columns of a rule line after its leading edge: `hline` repeated over each
      capacity, each run followed by the edge text. */
  function RuleCells(caps: seq<int>, hline: char, edge: string): string
  {
    if |caps| == 0 then ""
    else Repeat(hline, caps[0]) + edge + RuleCells(caps[1..], hline, edge)
  }

  /** A rule line: the edge, then per column `hline` repeated over the column's
      capacity followed by the edge. */
  function LineH(caps: seq<int>, hline: char, edge: string): string
  {
    edge + RuleCells(caps, hline, edge)
  }

  /** Each column of a rule is as wide as its capacity plus the edge text. */
  lemma {:induction false} RuleCellsLength(caps: seq<int>, hline: char, edge: string)
    ensures |RuleCells(caps, hline, edge)| == SumPos(caps) + |caps| * |edge|
  {
    if |caps| > 0 {
      RuleCellsLength(caps[1..], hline, edge);
      assert |caps| * |edge| == |edge| + (|caps| - 1) * |edge|;
    }
  }

  /** A rule line is as wide as the capacities plus one edge per column and one more. */
  lemma LineHLength(caps: seq<int>, hline: char, edge: string)
    ensures |LineH(caps, hline, edge)| == SumPos(caps) + (|caps| + 1) * |edge|
  {
    RuleCellsLength(caps, hline, edge);
    assert (|caps| + 1) * |edge| == |edge| + |caps| * |edge|;
  }

  /** The columns of a rule hold only `hline` and edge glyphs. */
  lemma {:induction false} RuleCellsGlyphs(caps: seq<int>, hline: char, edge: string)
    ensures forall i :: 0 <= i < |RuleCells(caps, hline, edge)| ==>
      RuleCells(caps, hline, edge)[i] == hline || RuleCells(caps, hline, edge)[i] in edge
  {
    if |caps| > 0 {
      var run := Repeat(hline, caps[0]);
      var rest := RuleCells(caps[1..], hline, edge);
      RuleCellsGlyphs(caps[1..], hline, edge);
      var r := run + edge + rest;
      forall i | 0 <= i < |r| ensures r[i] == hline || r[i] in edge {
        if i < |run| {
        } else if i < |run| + |edge| {
          assert r[i] == edge[i - |run|];
        } else {
          assert r[i] == rest[i - |run| - |edge|];
        }
      }
    }
  }

  /** A rule line holds only `hline` and edge glyphs. */
  lemma LineHGlyphs(caps: seq<int>, hline: char, edge: string)
    ensures forall i :: 0 <= i < |LineH(caps, hline, edge)| ==>
      LineH(caps, hline, edge)[i] == hline || LineH(caps, hline, edge)[i] in edge
  {
    var cells := RuleCells(caps, hline, edge);
    RuleCellsGlyphs(caps, hline, edge);
    forall i | 0 <= i < |edge + cells| ensures (edge + cells)[i] == hline || (edge + cells)[i] in edge {
      if i >= |edge| {
        assert (edge + cells)[i] == cells[i - |edge|];
      }
    }
  }

  /** With no vertical lines anywhere a rule is `hline` repeated over the total width. */
  lemma {:induction false} RuleCellsPlain(caps: seq<int>, hline: char)
    ensures RuleCells(caps, hline, "") == Repeat(hline, SumPos(caps))
  {
    if |caps| > 0 {
      RuleCellsPlain(caps[1..], hline);
      RepeatAppend(hline, Clamp0(caps[0]), SumPos(caps[1..]));
    }
  }

  /** The rule line section `s` draws. */
  function Rule(d: Drawer, s: Section): string
  {
    LineH(d.columnCap, HLineRune(d, s), SectionEdge(d, s))
  }

  // ---------------------------------------------------------------------------
  // writeRow
  // ---------------------------------------------------------------------------

  /** Every cell fits its column (`TrimTextToMaxLength` panics otherwise), and the
      row has no more cells than there are columns (indexing would panic). */
  predicate Fits(d: Drawer, r: Row)
  {
    CellsFit(r, d.columnCap)
  }

  /** A fitting row with a cell for every column. */
  predicate Complete(d: Drawer, r: Row)
  {
    Fits(d, r) && |r| == |d.columnCap|
  }

  predicate AllComplete(d: Drawer, rows: seq<Row>)
  {
    AllFit(d, rows) && forall k :: 0 <= k < |rows| ==> |rows[k]| == |d.columnCap|
  }

  /** Each of the first `|r|` capacities holds its cell. */
  predicate CellsFit(r: Row, caps: seq<int>)
  {
    |r| <= |caps| && forall i :: 0 <= i < |r| ==> |r[i]| <= caps[i]
  }

  /** Dropping the first cell and the first capacity keeps the rest fitting. */
  lemma CellsFitTail(r: Row, caps: seq<int>)
    requires |r| > 0 && CellsFit(r, caps)
    ensures CellsFit(r[1..], caps[1..])
  {
    forall i | 0 <= i < |r| - 1 ensures |r[1..][i]| <= caps[1..][i] {
      assert r[1..][i] == r[i + 1] && caps[1..][i] == caps[i + 1];
    }
  }

  /** The cells of a cell line after its leading separator: each cell padded to its
      column's capacity and followed by the separator. */
  function RowCells(r: Row, caps: seq<int>, v: string): string
    requires CellsFit(r, caps)
  {
    if |r| == 0 then ""
    else
      CellsFitTail(r, caps);
      Pad(r[0], caps[0]) + v + RowCells(r[1..], caps[1..], v)
  }

  /** Each cell is padded to exactly its column's capacity and followed by `v`. */
  lemma {:induction false} RowCellsLength(r: Row, caps: seq<int>, v: string)
    requires CellsFit(r, caps)
    ensures |RowCells(r, caps, v)| == SumPos(caps[..|r|]) + |r| * |v|
  {
    if |r| > 0 {
      CellsFitTail(r, caps);
      RowCellsLength(r[1..], caps[1..], v);
      assert caps[..|r|][1..] == caps[1..][..|r| - 1];
      assert |r| * |v| == |v| + (|r| - 1) * |v|;
    }
  }

  /** A cell line: the separator, then every cell padded to its column's capacity
      and followed by the separator. */
  function WriteRow(d: Drawer, r: Row, s: Section): string
    requires Fits(d, r)
  {
    LineV(d, s) + RowCells(r, d.columnCap, LineV(d, s))
  }

  // ---------------------------------------------------------------------------
  // head, bodyRow, body, Draw
  // ---------------------------------------------------------------------------

  /** The header: optional top rule, the header cells, optional bottom rule. */
  function HeadText(d: Drawer, r: Row): string
    requires Fits(d, r)
  {
    (if d.lineHeadTop then Rule(d, Head) + "\n" else "")
    + WriteRow(d, r, Head)
    + (if d.lineHeadBot then "\n" + Rule(d, Head) else "")
  }

  /** One body row, preceded by a rule unless it is the first row and the header
      already drew its bottom rule. */
  function BodyRow(d: Drawer, r: Row, firstRow: bool): string
    requires Fits(d, r)
  {
    var printFirstRow := firstRow && !d.lineHeadBot && d.lineBodyTop;
    var printNonFirstRow := !firstRow && d.lineBodyTop;
    (if printFirstRow || printNonFirstRow then Rule(d, Body) + "\n" else "")
    + WriteRow(d, r, Body)
  }

  predicate AllFit(d: Drawer, rows: seq<Row>)
  {
    forall k :: 0 <= k < |rows| ==> Fits(d, rows[k])
  }

  /** The loop of `body` from row `i` on: each row, then a newline unless it is the last. */
  function BodyLoop(d: Drawer, rows: seq<Row>, i: nat): string
    requires i <= |rows| && AllFit(d, rows)
    decreases |rows| - i
  {
    if i == |rows| then ""
    else BodyRow(d, rows[i], i == 0) + (if i < |rows| - 1 then "\n" else "") + BodyLoop(d, rows, i + 1)
  }

  /** The body rows, then an optional bottom rule. */
  function BodyText(d: Drawer, rows: seq<Row>): string
    requires AllFit(d, rows)
  {
    BodyLoop(d, rows, 0) + (if d.lineBodyBot then "\n" + Rule(d, Body) else "")
  }

  /** The whole table: the header and a newline when there is a header, then the
      body when there are body rows. */
  function Draw(d: Drawer, head: Row, body: seq<Row>): string
    requires Fits(d, head) && AllFit(d, body)
  {
    (if |head| > 0 then HeadText(d, head) + "\n" else "")
    + (if |body| > 0 then BodyText(d, body) else "")
  }

  // ---------------------------------------------------------------------------
  // The same output described line by line
  // ---------------------------------------------------------------------------

  /** Whether a body row is preceded by a rule: rules are on, and the row is not
      the first one right under a header bottom rule. */
  predicate RuledRow(d: Drawer, firstRow: bool)
  {
    d.lineBodyTop && (!firstRow || !d.lineHeadBot)
  }

  /** The header's lines: optional top rule, cell line, optional bottom rule. */
  function HeadLines(d: Drawer, r: Row): seq<string>
    requires Fits(d, r)
  {
    (if d.lineHeadTop then [Rule(d, Head)] else [])
    + [WriteRow(d, r, Head)]
    + (if d.lineHeadBot then [Rule(d, Head)] else [])
  }

  /** A body row's lines: its rule when it is ruled, then its cell line. */
  function RowLines(d: Drawer, r: Row, firstRow: bool): seq<string>
    requires Fits(d, r)
  {
    (if RuledRow(d, firstRow) then [Rule(d, Body)] else []) + [WriteRow(d, r, Body)]
  }

  /** The lines of body rows `i` onwards. */
  function BodyRowsLines(d: Drawer, rows: seq<Row>, i: nat): seq<string>
    requires i <= |rows| && AllFit(d, rows)
    decreases |rows| - i
  {
    if i == |rows| then [] else RowLines(d, rows[i], i == 0) + BodyRowsLines(d, rows, i + 1)
  }

  /** The body's lines: its rows' lines, then the bottom rule when it is on. */
  function BodyLines(d: Drawer, rows: seq<Row>): seq<string>
    requires AllFit(d, rows)
  {
    BodyRowsLines(d, rows, 0) + (if d.lineBodyBot then [Rule(d, Body)] else [])
  }

  /** The lines of the whole output. A header with no body ends in a newline, which
      shows as a final empty line. */
  function DrawLines(d: Drawer, head: Row, body: seq<Row>): seq<string>
    requires Fits(d, head) && AllFit(d, body)
  {
    (if |head| > 0 then HeadLines(d, head) else [])
    + (if |body| > 0 then BodyLines(d, body) else if |head| > 0 then [""] else [])
  }

  /** The header is its optional top rule, its cell line and its optional bottom
      rule, one per line. */
  lemma HeadIsLines(d: Drawer, r: Row)
    requires Fits(d, r)
    ensures HeadText(d, r) == Join(HeadLines(d, r))
    ensures |HeadLines(d, r)| == 1 + (if d.lineHeadTop then 1 else 0) + (if d.lineHeadBot then 1 else 0)
  {
    JoinFramed(d.lineHeadTop, Rule(d, Head), WriteRow(d, r, Head), d.lineHeadBot, Rule(d, Head));
  }

  /** A body row is preceded by a rule exactly when rules are on and it is not a
      first row sitting under the header's bottom rule. */
  lemma BodyRowIsLines(d: Drawer, r: Row, firstRow: bool)
    requires Fits(d, r)
    ensures BodyRow(d, r, firstRow) == Join(RowLines(d, r, firstRow))
    ensures |RowLines(d, r, firstRow)| == if d.lineBodyTop && (!firstRow || !d.lineHeadBot) then 2 else 1
  {
    JoinFramed(RuledRow(d, firstRow), Rule(d, Body), WriteRow(d, r, Body), false, "");
    assert RowLines(d, r, firstRow) == (if RuledRow(d, firstRow) then [Rule(d, Body)] else []) + [WriteRow(d, r, Body)] + [];
  }

  /** The loop from row `i` on joins the lines of those rows with single newlines. */
  lemma {:induction false} BodyLoopIsLines(d: Drawer, rows: seq<Row>, i: nat)
    requires i < |rows| && AllFit(d, rows)
    ensures BodyLoop(d, rows, i) == Join(BodyRowsLines(d, rows, i))
    ensures |BodyRowsLines(d, rows, i)| > 0
    decreases |rows| - i
  {
    BodyRowIsLines(d, rows[i], i == 0);
    var here, rest := RowLines(d, rows[i], i == 0), BodyRowsLines(d, rows, i + 1);
    assert BodyRowsLines(d, rows, i) == here + rest;
    if i < |rows| - 1 {
      BodyLoopIsLines(d, rows, i + 1);
    } else {
      assert rest == [];
    }
    assert BodyLoop(d, rows, i + 1) == Join(rest);
    JoinGlue(here, rest);
  }

  /** The body joins its rows' lines with single newlines and ends with the bottom
      rule when it is on; no newline follows its last line. */
  lemma BodyIsLines(d: Drawer, rows: seq<Row>)
    requires |rows| > 0 && AllFit(d, rows)
    ensures BodyText(d, rows) == Join(BodyLines(d, rows))
  {
    BodyLoopIsLines(d, rows, 0);
    if d.lineBodyBot {
      JoinAppend(BodyRowsLines(d, rows, 0), [Rule(d, Body)]);
    } else {
      assert BodyLines(d, rows) == BodyRowsLines(d, rows, 0);
    }
  }

  /** `Draw` writes the header's lines and the body's lines, one newline between
      consecutive lines and none after the last (unless there is a header but no
      body, where the header's trailing newline remains). */
  lemma DrawIsLines(d: Drawer, head: Row, body: seq<Row>)
    requires Fits(d, head) && AllFit(d, body)
    ensures Draw(d, head, body) == Join(DrawLines(d, head, body))
  {
    if |head| > 0 {
      HeadIsLines(d, head);
      if |body| > 0 {
        BodyIsLines(d, body);
        JoinAppend(HeadLines(d, head), BodyLines(d, body));
      } else {
        JoinAppend(HeadLines(d, head), [""]);
      }
    } else if |body| > 0 {
      BodyIsLines(d, body);
      assert DrawLines(d, head, body) == BodyLines(d, body);
    }
  }

  // ---------------------------------------------------------------------------
  // Alignment
  // ---------------------------------------------------------------------------

  /** The width every line of a table has: the column capacities plus one marker per
      edge and separator position when a vertical line runs anywhere. */
  function TableWidth(d: Drawer): nat
  {
    SumPos(d.columnCap) + (|d.columnCap| + 1) * (if AnyLineV(d) then 1 else 0)
  }

  /** A rule of either section spans the table width. */
  lemma RuleWidth(d: Drawer, s: Section)
    ensures |Rule(d, s)| == TableWidth(d)
  {
    LineHLength(d.columnCap, HLineRune(d, s), SectionEdge(d, s));
    CouplingAligns(d);
  }

  /** A cell line of a complete row spans the table width in either section. */
  lemma RowWidth(d: Drawer, r: Row, s: Section)
    requires Complete(d, r)
    ensures |WriteRow(d, r, s)| == TableWidth(d)
  {
    RowCellsLength(r, d.columnCap, LineV(d, s));
    assert d.columnCap[..|r|] == d.columnCap;
    CouplingAligns(d);
    assert (|r| + 1) * |LineV(d, s)| == |LineV(d, s)| + |r| * |LineV(d, s)|;
  }

  /** Every line of the body rows from row `i` on spans the table width. */
  lemma {:induction false} BodyRowsLinesWidth(d: Drawer, rows: seq<Row>, i: nat)
    requires i <= |rows| && AllComplete(d, rows)
    ensures forall k :: 0 <= k < |BodyRowsLines(d, rows, i)| ==> |BodyRowsLines(d, rows, i)[k]| == TableWidth(d)
    decreases |rows| - i
  {
    if i < |rows| {
      var here, rest := RowLines(d, rows[i], i == 0), BodyRowsLines(d, rows, i + 1);
      assert forall k :: 0 <= k < |here| ==> |here[k]| == TableWidth(d) by {
        assert Complete(d, rows[i]);
        RowWidth(d, rows[i], Body);
        RuleWidth(d, Body);
      }
      BodyRowsLinesWidth(d, rows, i + 1);
      UniformAppend(here, rest, TableWidth(d));
    }
  }

  /** Every line of the output, header and body alike, has the same width as long as
      each row has one fitting cell per column: the cross-section rule keeps a
      section that draws no vertical lines aligned with one that does. */
  lemma DrawLinesAligned(d: Drawer, head: Row, body: seq<Row>)
    requires |head| == 0 || Complete(d, head)
    requires |body| > 0 && AllComplete(d, body)
    ensures forall k :: 0 <= k < |DrawLines(d, head, body)| ==> |DrawLines(d, head, body)[k]| == TableWidth(d)
  {
    var top: seq<string> := if |head| > 0 then HeadLines(d, head) else [];
    if |head| > 0 {
      HeadLinesWidth(d, head);
    }
    BodyLinesWidth(d, body);
    UniformAppend(top, BodyLines(d, body), TableWidth(d));
  }

  /** Every header line spans the table width. */
  lemma HeadLinesWidth(d: Drawer, head: Row)
    requires Complete(d, head)
    ensures forall k :: 0 <= k < |HeadLines(d, head)| ==> |HeadLines(d, head)[k]| == TableWidth(d)
  {
    RuleWidth(d, Head);
    RowWidth(d, head, Head);
  }

  /** Every body line, the bottom rule included, spans the table width. */
  lemma BodyLinesWidth(d: Drawer, body: seq<Row>)
    requires AllComplete(d, body)
    ensures forall k :: 0 <= k < |BodyLines(d, body)| ==> |BodyLines(d, body)[k]| == TableWidth(d)
  {
    BodyRowsLinesWidth(d, body, 0);
    RuleWidth(d, Body);
    UniformAppend(BodyRowsLines(d, body, 0), if d.lineBodyBot then [Rule(d, Body)] else [], TableWidth(d));
  }

  // ---------------------------------------------------------------------------
  // Line breaks
  // ---------------------------------------------------------------------------

  /** The body's glyphs are not newlines and no cell holds one; `New` leaves no
      newline in a cell. */
  predicate BreakFree(d: Drawer, rows: seq<Row>)
  {
    GlyphsBreakFree(d) && forall k :: 0 <= k < |rows| ==> CellsBreakFree(rows[k])
  }

  /** None of the body's glyphs is a newline. */
  predicate GlyphsBreakFree(d: Drawer)
  {
    d.bodyEdge != '\n' && d.bodyLineH != '\n' && d.bodyLineV != '\n'
  }

  /** No cell of the row holds a newline. */
  predicate CellsBreakFree(r: Row)
  {
    forall i :: 0 <= i < |r| ==> '\n' !in r[i]
  }

  /** Padding only adds spaces. */
  lemma PadBreakFree(s: string, n: int)
    requires |s| <= n && '\n' !in s
    ensures '\n' !in Pad(s, n)
  {
    var p := Pad(s, n);
    forall i | 0 <= i < |p| ensures p[i] != '\n' {
      if i < |s| {
        assert p[i] == p[..|s|][i];
      }
    }
  }

  /** Newline-free cells and separator give a newline-free cell line. */
  lemma {:induction false} RowCellsBreakFree(r: Row, caps: seq<int>, v: string)
    requires CellsFit(r, caps) && '\n' !in v && CellsBreakFree(r)
    ensures '\n' !in RowCells(r, caps, v)
  {
    if |r| > 0 {
      CellsFitTail(r, caps);
      PadBreakFree(r[0], caps[0]);
      assert CellsBreakFree(r[1..]) by {
        forall i | 0 <= i < |r| - 1 ensures '\n' !in r[1..][i] {
          assert r[1..][i] == r[i + 1];
        }
      }
      RowCellsBreakFree(r[1..], caps[1..], v);
    }
  }

  /** No line of a break-free body contains a newline. */
  lemma {:induction false} BodyRowsLinesBreakFree(d: Drawer, rows: seq<Row>, i: nat)
    requires i <= |rows| && AllFit(d, rows) && BreakFree(d, rows)
    ensures BreakFreeLines(BodyRowsLines(d, rows, i))
    decreases |rows| - i
  {
    if i < |rows| {
      var here, rest := RowLines(d, rows[i], i == 0), BodyRowsLines(d, rows, i + 1);
      RowLinesBreakFree(d, rows[i], i == 0);
      BodyRowsLinesBreakFree(d, rows, i + 1);
      assert BodyRowsLines(d, rows, i) == here + rest;
      BreakFreeAppend(here, rest);
    }
  }

  /** Neither a body row's rule nor its cell line holds a newline. */
  lemma RowLinesBreakFree(d: Drawer, r: Row, firstRow: bool)
    requires Fits(d, r) && GlyphsBreakFree(d) && CellsBreakFree(r)
    ensures BreakFreeLines(RowLines(d, r, firstRow))
  {
    RuleBreakFree(d, Body);
    RowCellsBreakFree(r, d.columnCap, LineV(d, Body));
    assert '\n' !in WriteRow(d, r, Body);
  }

  /** A rule holds no newline when its glyphs are not newlines. */
  lemma RuleBreakFree(d: Drawer, s: Section)
    requires HLineRune(d, s) != '\n' && EdgeRune(d, s) != '\n'
    ensures '\n' !in Rule(d, s)
  {
    LineHGlyphs(d.columnCap, HLineRune(d, s), SectionEdge(d, s));
  }

  /** The number of body lines: one per row, one rule before each row when body
      rules are on (except before a first row under the header's bottom rule), and
      the bottom rule. */
  lemma {:induction false} BodyRowsLinesCount(d: Drawer, rows: seq<Row>, i: nat)
    requires i <= |rows| && AllFit(d, rows)
    ensures |BodyRowsLines(d, rows, i)| == (|rows| - i)
      + (if d.lineBodyTop then (|rows| - i) - (if i == 0 && |rows| > 0 && d.lineHeadBot then 1 else 0) else 0)
    decreases |rows| - i
  {
    if i < |rows| {
      BodyRowIsLines(d, rows[i], i == 0);
      BodyRowsLinesCount(d, rows, i + 1);
    }
  }

  /** The body of `k` break-free rows is `k` cell lines and the rules between and
      after them, separated by single newlines: it holds one newline fewer than
      that many lines. Without body rules that is `k - 1` newlines. */
  lemma BodyNewlines(d: Drawer, rows: seq<Row>)
    requires |rows| > 0 && AllFit(d, rows) && BreakFree(d, rows)
    ensures Count(BodyText(d, rows), '\n') == |rows| - 1
      + (if d.lineBodyTop then |rows| - (if d.lineHeadBot then 1 else 0) else 0)
      + (if d.lineBodyBot then 1 else 0)
  {
    var lines, bot := BodyRowsLines(d, rows, 0), if d.lineBodyBot then [Rule(d, Body)] else [];
    BodyIsLines(d, rows);
    BodyRowsLinesCount(d, rows, 0);
    BodyRowsLinesBreakFree(d, rows, 0);
    assert BreakFreeLines(bot) by {
      if d.lineBodyBot {
        RuleBreakFree(d, Body);
      }
    }
    BreakFreeAppend(lines, bot);
    JoinNewlines(lines + bot);
  }

  // ---------------------------------------------------------------------------
  // No decoration at all
  // ---------------------------------------------------------------------------

  /** All six switches off. */
  predicate Undecorated(d: Drawer)
  {
    !d.lineHeadTop && !d.lineHeadBot && !d.lineHeadV
    && !d.lineBodyTop && !d.lineBodyBot && !d.lineBodyV
  }

  /** A row's padded cells run together. */
  function PlainRow(d: Drawer, r: Row): string
    requires Fits(d, r)
  {
    RowCells(r, d.columnCap, "")
  }

  /** Without vertical lines anywhere a cell line is its padded cells run together. */
  lemma RowWithoutLineV(d: Drawer, r: Row, s: Section)
    requires !AnyLineV(d) && Fits(d, r)
    ensures WriteRow(d, r, s) == PlainRow(d, r)
  {
    assert LineV(d, s) == "";
    assert "" + RowCells(r, d.columnCap, "") == RowCells(r, d.columnCap, "");
  }

  /** Without body rules or vertical lines a body row is one line of padded cells. */
  lemma PlainRowLines(d: Drawer, r: Row, firstRow: bool)
    requires !d.lineBodyTop && !AnyLineV(d) && Fits(d, r)
    ensures RowLines(d, r, firstRow) == [PlainRow(d, r)]
  {
    RowWithoutLineV(d, r, Body);
  }

  /** The padded-cell lines of rows `i` onwards, one per row. */
  function PlainLines(d: Drawer, rows: seq<Row>, i: nat): seq<string>
    requires i <= |rows| && AllFit(d, rows)
  {
    seq(|rows| - i, k requires 0 <= k < |rows| - i => PlainRow(d, rows[i + k]))
  }

  /** The lines from row `i` on are row `i`'s line followed by those from row `i + 1` on. */
  lemma PlainLinesCons(d: Drawer, rows: seq<Row>, i: nat)
    requires i < |rows| && AllFit(d, rows)
    ensures PlainLines(d, rows, i) == [PlainRow(d, rows[i])] + PlainLines(d, rows, i + 1)
  {
    var lines, rest := PlainLines(d, rows, i), PlainLines(d, rows, i + 1);
    forall k | 0 < k < |lines| ensures lines[k] == rest[k - 1] {
      assert rows[i + k] == rows[(i + 1) + (k - 1)];
    }
  }

  /** Without body rules or vertical lines each body row is one line of padded cells. */
  lemma {:induction false} BodyRowsLinesPlain(d: Drawer, rows: seq<Row>, i: nat)
    requires !d.lineBodyTop && !AnyLineV(d) && i <= |rows| && AllFit(d, rows)
    ensures BodyRowsLines(d, rows, i) == PlainLines(d, rows, i)
    decreases |rows| - i
  {
    if i < |rows| {
      BodyRowsLinesPlain(d, rows, i + 1);
      PlainRowLines(d, rows[i], i == 0);
      PlainLinesCons(d, rows, i);
    }
  }

  /** Without body rules or vertical lines the body is its rows' padded cells, one
      row per line. */
  lemma PlainBody(d: Drawer, body: seq<Row>)
    requires !d.lineBodyTop && !d.lineBodyBot && !AnyLineV(d) && AllFit(d, body)
    ensures BodyLines(d, body) == seq(|body|, k requires 0 <= k < |body| => PlainRow(d, body[k]))
  {
    BodyRowsLinesPlain(d, body, 0);
    var lines := PlainLines(d, body, 0);
    assert BodyLines(d, body) == lines;
    forall k | 0 <= k < |body| ensures lines[k] == PlainRow(d, body[k]) {
      assert body[0 + k] == body[k];
    }
  }

  /** With every switch off the output is the rows' padded cells, one row per line. */
  lemma UndecoratedDraw(d: Drawer, head: Row, body: seq<Row>)
    requires Undecorated(d) && Fits(d, head) && AllFit(d, body) && |body| > 0
    ensures Draw(d, head, body) == Join((if |head| > 0 then [PlainRow(d, head)] else [])
      + seq(|body|, k requires 0 <= k < |body| => PlainRow(d, body[k])))
  {
    DrawIsLines(d, head, body);
    PlainBody(d, body);
    if |head| > 0 {
      RowWithoutLineV(d, head, Head);
      assert HeadLines(d, head) == [PlainRow(d, head)];
    }
  }
}
