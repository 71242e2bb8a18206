/** The table front end (table.go): defaults, the derivation of the renderer's line
    switches from the two styles, and the composition that renders a set of rows. */
module Tables {
  import opened Text
  import opened Styles
  import Rows
  import Draw

  datatype Option<T> = None | Some(value: T)

  /** A table's styles and switches, the trailing space count added to every cell
      and the column capacities. The CSV reader the Go table owns is not modelled. */
  datatype Table = Table(
    headStyle: Style,
    bodyStyle: Style,
    topLine: bool,
    bottomLine: bool,
    headOnlyBottomLine: bool,
    hasHeader: bool,
    postfixSpace: Rows.Uint8,
    columnCap: Rows.ColumnCap)

  /** The default configuration: square header with only a bottom rule, blank body. */
  function NewTable(hasHeader: bool, c: Rows.ColumnCap, postfixSpace: Rows.Uint8): (t: Table)
    ensures t.headStyle == StyleSquare() && t.bodyStyle == StyleEmpty()
    ensures t.topLine && t.headOnlyBottomLine && !t.bottomLine
    ensures t.hasHeader == hasHeader && t.columnCap == c && t.postfixSpace == postfixSpace
  {
    Table(StyleSquare(), StyleEmpty(), true, false, true, hasHeader, postfixSpace, c)
  }

  /** The streaming constructor: capacities come from the caller's widths plus one
      trailing space per cell. */
  function ReadFrom(header: bool, runesPerColumn: seq<Int64>): (t: Table)
    ensures t.postfixSpace == 1 && t.hasHeader == header
    ensures |t.columnCap| == |runesPerColumn|
    ensures forall i :: 0 <= i < |runesPerColumn| ==>
      t.columnCap[i] == if runesPerColumn[i] < IntMax then Clamp0(runesPerColumn[i]) + 1 else -IntMax - 1
    ensures t.headStyle == StyleSquare() && t.bodyStyle == StyleEmpty()
    ensures t.topLine && t.headOnlyBottomLine && !t.bottomLine
  {
    var postfixSpace := 1;
    NewTable(header, Rows.ConvRunesPerColumn(runesPerColumn, postfixSpace), postfixSpace)
  }

  /** The batch constructor: capacities are measured from all rows, header included,
      with one trailing space per cell. With no rows Go returns its zero `Table`,
      whose nil styles and nil reader make every later render panic; that table is
      `None` here. `rows[0]` fixes the number of columns. */
  function New(hasHeader: bool, rows: seq<Rows.Row>): (t: Option<Table>)
    requires forall k :: 0 <= k < |rows| ==> |rows[k]| <= |rows[0]|
    ensures t.None? <==> |rows| == 0
    ensures t.Some? ==> t.value.postfixSpace == 1 && t.value.hasHeader == hasHeader
    ensures t.Some? ==> |t.value.columnCap| == |rows[0]|
    ensures t.Some? ==> forall r, i :: r in rows && 0 <= i < |r| ==>
      |Rows.Purge(r[i])| + 1 <= t.value.columnCap[i]
    ensures t.Some? ==> t.value.headStyle == StyleSquare() && t.value.bodyStyle == StyleEmpty()
    ensures t.Some? ==> t.value.topLine && t.value.headOnlyBottomLine && !t.value.bottomLine
  {
    if |rows| == 0 then None
    else
      var postfixSpace := 1;
      Rows.ColumnCapFits(rows, postfixSpace);
      Some(NewTable(hasHeader, Rows.ColumnCapOf(rows, postfixSpace), postfixSpace))
  }

  /** The renderer configuration a table produces. A horizontally blank style draws
      no rules, a fully blank style no vertical lines; the top-line switch governs the
      header's rules and the body's row rules, the bottom-line switch only the body's
      final rule, and head-only-bottom-line suppresses the header's top rule. */
  function NewDraw(t: Table): (d: Draw.Drawer)
    ensures d.lineHeadTop ==> d.lineHeadBot
    ensures d.lineHeadTop <==> t.topLine && !IsEmptyH(t.headStyle) && !t.headOnlyBottomLine
    ensures t.headOnlyBottomLine ==> !d.lineHeadTop
    ensures !t.topLine ==> !d.lineHeadTop && !d.lineHeadBot && !d.lineBodyTop
    ensures d.lineHeadBot <==> t.topLine && !IsEmptyH(t.headStyle)
    ensures d.lineBodyTop <==> t.topLine && !IsEmptyH(t.bodyStyle)
    ensures d.lineBodyBot <==> t.bottomLine && !IsEmptyH(t.bodyStyle)
    ensures IsEmptyH(t.headStyle) ==> !d.lineHeadTop && !d.lineHeadBot
    ensures IsEmptyH(t.bodyStyle) ==> !d.lineBodyTop && !d.lineBodyBot
    ensures d.lineHeadV <==> t.headStyle.vLines && !IsAllEmpty(t.headStyle)
    ensures d.lineBodyV <==> t.bodyStyle.vLines && !IsAllEmpty(t.bodyStyle)
    ensures d.headEdge == t.headStyle.edge && d.headLineH == t.headStyle.lineH && d.headLineV == t.headStyle.lineV
    ensures d.bodyEdge == t.bodyStyle.edge && d.bodyLineH == t.bodyStyle.lineH && d.bodyLineV == t.bodyStyle.lineV
    ensures d.columnCap == t.columnCap
  {
    Draw.Drawer(
      lineHeadTop := t.topLine && !IsEmptyH(t.headStyle) && !t.headOnlyBottomLine,
      lineHeadBot := t.topLine && !IsEmptyH(t.headStyle),
      lineHeadV := t.headStyle.vLines && !IsAllEmpty(t.headStyle),
      lineBodyTop := t.topLine && !IsEmptyH(t.bodyStyle),
      lineBodyBot := t.bottomLine && !IsEmptyH(t.bodyStyle),
      lineBodyV := t.bodyStyle.vLines && !IsAllEmpty(t.bodyStyle),
      headEdge := t.headStyle.edge, headLineH := t.headStyle.lineH, headLineV := t.headStyle.lineV,
      bodyEdge := t.bodyStyle.edge, bodyLineH := t.bodyStyle.lineH, bodyLineV := t.bodyStyle.lineV,
      columnCap := t.columnCap)
  }

  /** The bottom-line switch changes nothing but the body's final rule. */
  lemma BottomLineOnlyAffectsBodyBot(t: Table, b: bool)
    ensures NewDraw(t.(bottomLine := b)) == NewDraw(t).(lineBodyBot := b && !IsEmptyH(t.bodyStyle))
  {
  }

  /** Under the defaults only the header's bottom rule is drawn: no header top rule,
      no body rules and no vertical lines. */
  lemma DefaultDraw(hasHeader: bool, c: Rows.ColumnCap, postfixSpace: Rows.Uint8)
    ensures var d := NewDraw(NewTable(hasHeader, c, postfixSpace));
      d.lineHeadBot && !d.lineHeadTop && !d.lineHeadV
      && !d.lineBodyTop && !d.lineBodyBot && !d.lineBodyV
  {
    PresetBlankness();
  }

  /** The default layout with a header: the header's padded cells, a rule of `=` as
      wide as the columns, then each body row's padded cells, one per line. */
  lemma DefaultLayout(c: Rows.ColumnCap, postfixSpace: Rows.Uint8, head: Rows.Row, body: seq<Rows.Row>)
    requires var d := NewDraw(NewTable(true, c, postfixSpace)); Draw.Fits(d, head) && Draw.AllFit(d, body)
    requires |head| > 0 && |body| > 0
    ensures var d := NewDraw(NewTable(true, c, postfixSpace));
      Draw.DrawLines(d, head, body)
      == [Draw.PlainRow(d, head), Repeat('=', SumPos(c))]
      + seq(|body|, k requires 0 <= k < |body| => Draw.PlainRow(d, body[k]))
  {
    var d := NewDraw(NewTable(true, c, postfixSpace));
    DefaultDraw(true, c, postfixSpace);
    Draw.RowWithoutLineV(d, head, Draw.Head);
    Draw.RuleCellsPlain(c, '=');
    assert Draw.SectionEdge(d, Draw.Head) == "";
    assert Draw.Rule(d, Draw.Head) == Repeat('=', SumPos(c));
    assert Draw.HeadLines(d, head) == [Draw.PlainRow(d, head), Repeat('=', SumPos(c))];
    Draw.PlainBody(d, body);
  }

  /** Whether row `i` of the input is the first body row: the first row without a
      header, the second with one. */
  function IsFirstBodyRow(t: Table, i: int): (r: bool)
    ensures r <==> i == (if t.hasHeader then 1 else 0)
  {
    if i == 0 && !t.hasHeader then true
    else if i == 1 && t.hasHeader then true
    else false
  }

  /** Exactly one row index is the first body row. */
  lemma OneFirstBodyRow(t: Table)
    ensures exists i :: IsFirstBodyRow(t, i)
    ensures forall i, j :: IsFirstBodyRow(t, i) && IsFirstBodyRow(t, j) ==> i == j
  {
    assert IsFirstBodyRow(t, if t.hasHeader then 1 else 0);
  }

  // ---------------------------------------------------------------------------
  // Rendering
  // ---------------------------------------------------------------------------

  /** Capacities that leave room for the trailing spaces, as both constructors give. */
  predicate RoomForPostfix(t: Table)
  {
    forall i :: 0 <= i < |t.columnCap| ==> t.columnCap[i] >= t.postfixSpace
  }

  /** Every input row normalised against the table's capacities. */
  function Normalised(t: Table, rows: seq<Rows.Row>): (norm: seq<Rows.Row>)
    requires RoomForPostfix(t)
    ensures |norm| == |rows|
    ensures Draw.AllFit(NewDraw(t), norm)
  {
    seq(|rows|, k requires 0 <= k < |rows| => Rows.New(t.columnCap, rows[k], t.postfixSpace))
  }

  /** The rendered table: each row normalised, the renderer configured from the
      table, the first row drawn as the header when there is one and the rest as
      the body. */
  function Render(t: Table, rows: seq<Rows.Row>): string
    requires RoomForPostfix(t)
  {
    var d := NewDraw(t);
    var norm := Normalised(t, rows);
    if t.hasHeader && |rows| > 0 then Draw.Draw(d, norm[0], norm[1..])
    else Draw.Draw(d, [], norm)
  }

  /** `Render` draws input row `k` as body row `j` (one position earlier when the
      first row is the header), and the body loop treats it as its first row exactly
      when `IsFirstBodyRow` says so: its lines are those of a row drawn with that flag,
      followed by the lines of the later rows. */
  lemma RenderFirstBodyRow(t: Table, rows: seq<Rows.Row>, k: int)
    requires RoomForPostfix(t) && 0 <= k < |rows| && !(t.hasHeader && k == 0)
    ensures var norm, d := Normalised(t, rows), NewDraw(t);
      var head: Rows.Row := if t.hasHeader then norm[0] else [];
      var body := if t.hasHeader then norm[1..] else norm;
      var j := if t.hasHeader then k - 1 else k;
      Draw.AllFit(d, body) && 0 <= j < |body| && body[j] == norm[k]
      && Render(t, rows) == Draw.Draw(d, head, body)
      && Draw.BodyRowsLines(d, body, j)
         == Draw.RowLines(d, norm[k], IsFirstBodyRow(t, k)) + Draw.BodyRowsLines(d, body, j + 1)
  {
    var norm, d := Normalised(t, rows), NewDraw(t);
    var body := if t.hasHeader then norm[1..] else norm;
    assert Draw.AllFit(d, body) by {
      forall i | 0 <= i < |body| ensures Draw.Fits(d, body[i]) {
        assert body[i] == norm[if t.hasHeader then i + 1 else i];
      }
    }
  }

  /** Both constructors leave room for the trailing space, except that a width of
      the largest `int` overflows to the smallest one in `ReadFrom`. */
  lemma ConstructorsLeaveRoom(hasHeader: bool, rows: seq<Rows.Row>, runesPerColumn: seq<Int64>)
    requires forall k :: 0 <= k < |rows| ==> |rows[k]| <= |rows[0]|
    ensures New(hasHeader, rows).Some? ==> RoomForPostfix(New(hasHeader, rows).value)
    ensures RoomForPostfix(ReadFrom(hasHeader, runesPerColumn))
      <==> forall i :: 0 <= i < |runesPerColumn| ==> runesPerColumn[i] < IntMax
  {
    if |rows| > 0 {
      Rows.ColumnCapFits(rows, 1);
    }
  }

  /** A table built from rows of equal arity renders every line, header and body,
      at the same width. */
  lemma RenderAligned(hasHeader: bool, rows: seq<Rows.Row>)
    requires |rows| > 0 && forall k :: 0 <= k < |rows| ==> |rows[k]| == |rows[0]|
    requires hasHeader ==> |rows| > 1
    ensures var t := New(hasHeader, rows).value;
      var norm := Normalised(t, rows);
      var d := NewDraw(t);
      Render(t, rows) == Join(if hasHeader then Draw.DrawLines(d, norm[0], norm[1..]) else Draw.DrawLines(d, [], norm))
      && var lines := if hasHeader then Draw.DrawLines(d, norm[0], norm[1..]) else Draw.DrawLines(d, [], norm);
        forall k :: 0 <= k < |lines| ==> |lines[k]| == Draw.TableWidth(d)
  {
    var t := New(hasHeader, rows).value;
    ConstructorsLeaveRoom(hasHeader, rows, []);
    var norm := Normalised(t, rows);
    var d := NewDraw(t);
    assert Draw.AllComplete(d, norm);
    if hasHeader {
      assert Draw.AllComplete(d, norm[1..]) by {
        forall k | 0 <= k < |norm[1..]| ensures Draw.Fits(d, norm[1..][k]) && |norm[1..][k]| == |d.columnCap| {
          assert norm[1..][k] == norm[k + 1];
        }
      }
      Draw.DrawIsLines(d, norm[0], norm[1..]);
      Draw.DrawLinesAligned(d, norm[0], norm[1..]);
    } else {
      Draw.DrawIsLines(d, [], norm);
      Draw.DrawLinesAligned(d, [], norm);
    }
  }
}
