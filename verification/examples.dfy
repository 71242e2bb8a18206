/** A concrete rendering the repository's tests expect, derived from the model. */
module Examples {
  import opened Text
  import Rows
  import Draw
  import opened Tables

  const DefaultRows: seq<Rows.Row> :=
    [["Name:", "Count:"], ["Obi Wan Kenobi", "1"], ["Banana", "80"], ["Hinz & Kunz", "2"]]

  /** A two-cell row with neither line break in either cell. */
  predicate Clean2(r: Rows.Row)
  {
    |r| == 2 && '\n' !in r[0] && '\r' !in r[0] && '\n' !in r[1] && '\r' !in r[1]
  }

  /** Column `i`'s width over four clean two-cell rows is the longest of the four cells. */
  lemma Width4(r0: Rows.Row, r1: Rows.Row, r2: Rows.Row, r3: Rows.Row, i: nat)
    requires Clean2(r0) && Clean2(r1) && Clean2(r2) && Clean2(r3) && i < 2
    ensures Rows.Width([r0, r1, r2, r3], i)
      == Max(Max(Max(|r0[i]|, |r1[i]|), |r2[i]|), |r3[i]|)
  {
    Rows.PurgeClean(r0[i]);
    Rows.PurgeClean(r1[i]);
    Rows.PurgeClean(r2[i]);
    Rows.PurgeClean(r3[i]);
    Rows.WidthSnoc([], r0, i);
    Rows.WidthSnoc([r0], r1, i);
    Rows.WidthSnoc([r0, r1], r2, i);
    Rows.WidthSnoc([r0, r1, r2], r3, i);
    assert [] + [r0] == [r0];
    assert [r0] + [r1] == [r0, r1];
    assert [r0, r1] + [r2] == [r0, r1, r2];
    assert [r0, r1, r2] + [r3] == [r0, r1, r2, r3];
    assert Rows.Width([], i) == 0;
  }

  /** Four clean two-cell rows give each column its longest cell plus one. */
  lemma Caps4(r0: Rows.Row, r1: Rows.Row, r2: Rows.Row, r3: Rows.Row, w0: nat, w1: nat)
    requires Clean2(r0) && Clean2(r1) && Clean2(r2) && Clean2(r3)
    requires w0 == Max(Max(Max(|r0[0]|, |r1[0]|), |r2[0]|), |r3[0]|)
    requires w1 == Max(Max(Max(|r0[1]|, |r1[1]|), |r2[1]|), |r3[1]|)
    ensures Rows.ColumnCapOf([r0, r1, r2, r3], 1) == [w0 + 1, w1 + 1]
  {
    Width4(r0, r1, r2, r3, 0);
    Width4(r0, r1, r2, r3, 1);
    var c := Rows.ColumnCapOf([r0, r1, r2, r3], 1);
    assert |c| == 2 && c[0] == w0 + 1 && c[1] == w1 + 1;
  }

  /** The default test rows are clean two-cell rows. */
  lemma DefaultClean()
    ensures Clean2(["Name:", "Count:"]) && Clean2(["Obi Wan Kenobi", "1"])
    ensures Clean2(["Banana", "80"]) && Clean2(["Hinz & Kunz", "2"])
  {
  }

  /** The capacities measured from the default test rows. */
  lemma DefaultCaps()
    ensures Rows.ColumnCapOf(DefaultRows, 1) == [15, 7]
  {
    DefaultClean();
    Caps4(["Name:", "Count:"], ["Obi Wan Kenobi", "1"], ["Banana", "80"], ["Hinz & Kunz", "2"], 14, 6);
  }

  /** The batch constructor applied to the default test rows. */
  lemma DefaultTableValue()
    ensures New(true, DefaultRows) == Some(NewTable(true, [15, 7], 1))
  {
    DefaultCaps();
  }

  /** A two-cell row that fits under capacities 15 and 7 gains one trailing space per cell. */
  lemma NormalisedRow(rows: seq<Rows.Row>, k: nat, a: string, b: string, a': string, b': string)
    requires k < |rows| && rows[k] == [a, b]
    requires '\n' !in a && '\r' !in a && '\n' !in b && '\r' !in b
    requires |a| + 1 <= 15 && |b| + 1 <= 7
    requires a' == a + " " && b' == b + " "
    ensures Normalised(NewTable(true, [15, 7], 1), rows)[k] == [a', b']
  {
    Rows.NewKeepsFittingCells([15, 7], [a, b], 1);
    assert Repeat(' ', 1) == " ";
    var r := Rows.New([15, 7], [a, b], 1);
    assert r[0] == a + " " && r[1] == b + " ";
  }

  /** Each default test row normalised: its two cells followed by one space. */
  lemma DefaultNormalised()
    ensures RoomForPostfix(NewTable(true, [15, 7], 1))
    ensures Normalised(NewTable(true, [15, 7], 1), DefaultRows) == [
      ["Name: ", "Count: "], ["Obi Wan Kenobi ", "1 "], ["Banana ", "80 "], ["Hinz & Kunz ", "2 "]]
  {
    var rows := DefaultRows;
    NormalisedRow(rows, 0, "Name:", "Count:", "Name: ", "Count: ");
    NormalisedRow(rows, 1, "Obi Wan Kenobi", "1", "Obi Wan Kenobi ", "1 ");
    NormalisedRow(rows, 2, "Banana", "80", "Banana ", "80 ");
    NormalisedRow(rows, 3, "Hinz & Kunz", "2", "Hinz & Kunz ", "2 ");
    var norm := Normalised(NewTable(true, [15, 7], 1), rows);
    assert |norm| == 4;
  }

  /** A padded cell is determined by its contract. */
  lemma PadIs(s: string, n: int, out: string)
    requires |s| <= n && |out| == n && out[..|s|] == s
    requires forall i :: |s| <= i < n ==> out[i] == ' '
    ensures Rows.Pad(s, n) == out
  {
    var p := Rows.Pad(s, n);
    forall i | 0 <= i < n ensures p[i] == out[i] {
      if i < |s| {
        assert p[i] == p[..|s|][i] && out[i] == out[..|s|][i];
      }
    }
  }

  /** A plain two-cell line: each cell padded to its column's capacity. */
  lemma PlainRow2(d: Draw.Drawer, a: string, b: string, a': string, b': string)
    requires d.columnCap == [|a'|, |b'|] && |a| <= |a'| && |b| <= |b'|
    requires a'[..|a|] == a && forall i :: |a| <= i < |a'| ==> a'[i] == ' '
    requires b'[..|b|] == b && forall i :: |b| <= i < |b'| ==> b'[i] == ' '
    ensures Draw.PlainRow(d, [a, b]) == a' + b'
  {
    PadIs(a, |a'|, a');
    PadIs(b, |b'|, b');
    assert [a, b][1..] == [b];
    assert [|a'|, |b'|][1..] == [|b'|];
    assert Draw.RowCells([b], [|b'|], "") == b' + "" + "";
  }

  /** Cell line `k` of the default table, each a `PlainRow2` instance. */
  lemma DefaultLine(d: Draw.Drawer, k: nat)
    requires d.columnCap == [15, 7] && k < 4
    ensures k == 0 ==> Draw.PlainRow(d, ["Name: ", "Count: "]) == "Name:          Count: "
    ensures k == 1 ==> Draw.PlainRow(d, ["Obi Wan Kenobi ", "1 "]) == "Obi Wan Kenobi 1      "
    ensures k == 2 ==> Draw.PlainRow(d, ["Banana ", "80 "]) == "Banana         80     "
    ensures k == 3 ==> Draw.PlainRow(d, ["Hinz & Kunz ", "2 "]) == "Hinz & Kunz    2      "
  {
    if k == 0 {
      PlainRow2(d, "Name: ", "Count: ", "Name:          ", "Count: ");
    } else if k == 1 {
      PlainRow2(d, "Obi Wan Kenobi ", "1 ", "Obi Wan Kenobi ", "1      ");
    } else if k == 2 {
      PlainRow2(d, "Banana ", "80 ", "Banana         ", "80     ");
    } else {
      PlainRow2(d, "Hinz & Kunz ", "2 ", "Hinz & Kunz    ", "2      ");
    }
  }

  /** A run of `c` spelled out. */
  lemma RepeatIs(c: char, n: nat, out: string)
    requires |out| == n && forall i :: 0 <= i < n ==> out[i] == c
    ensures Repeat(c, n) == out
  {
  }

  /** The default layout of a header and three body rows, line by line. */
  lemma Layout3Lines(d: Draw.Drawer, c: Rows.ColumnCap, head: Rows.Row, b0: Rows.Row, b1: Rows.Row, b2: Rows.Row)
    requires d == NewDraw(NewTable(true, c, 1))
    requires |head| > 0 && Draw.Fits(d, head)
    requires Draw.Fits(d, b0) && Draw.Fits(d, b1) && Draw.Fits(d, b2)
    ensures Draw.AllFit(d, [b0, b1, b2])
    ensures Draw.DrawLines(d, head, [b0, b1, b2]) == [Draw.PlainRow(d, head), Repeat('=', SumPos(c)),
      Draw.PlainRow(d, b0), Draw.PlainRow(d, b1), Draw.PlainRow(d, b2)]
  {
    var body := [b0, b1, b2];
    Plain3(d, b0, b1, b2);
    DefaultLayout(c, 1, head, body);
  }

  /** Three rows' padded-cell lines, listed. */
  lemma Plain3(d: Draw.Drawer, b0: Rows.Row, b1: Rows.Row, b2: Rows.Row)
    requires Draw.Fits(d, b0) && Draw.Fits(d, b1) && Draw.Fits(d, b2)
    ensures Draw.AllFit(d, [b0, b1, b2])
    ensures var body := [b0, b1, b2];
      seq(|body|, k requires 0 <= k < |body| => Draw.PlainRow(d, body[k]))
      == [Draw.PlainRow(d, b0), Draw.PlainRow(d, b1), Draw.PlainRow(d, b2)]
  {
    var body := [b0, b1, b2];
    assert Draw.AllFit(d, body);
    var plain := seq(|body|, k requires 0 <= k < |body| => Draw.PlainRow(d, body[k]));
    assert plain[0] == Draw.PlainRow(d, b0) && plain[1] == Draw.PlainRow(d, b1) && plain[2] == Draw.PlainRow(d, b2);
  }

  /** The default rendering of a header and three body rows. */
  lemma Layout3(d: Draw.Drawer, c: Rows.ColumnCap, head: Rows.Row, b0: Rows.Row, b1: Rows.Row, b2: Rows.Row)
    requires d == NewDraw(NewTable(true, c, 1))
    requires |head| > 0 && Draw.Fits(d, head)
    requires Draw.Fits(d, b0) && Draw.Fits(d, b1) && Draw.Fits(d, b2)
    ensures Draw.Draw(d, head, [b0, b1, b2]) == Join([Draw.PlainRow(d, head), Repeat('=', SumPos(c)),
      Draw.PlainRow(d, b0), Draw.PlainRow(d, b1), Draw.PlainRow(d, b2)])
  {
    Layout3Lines(d, c, head, b0, b1, b2);
    Draw.DrawIsLines(d, head, [b0, b1, b2]);
  }

  /** The rule under the default header. */
  lemma DefaultRule()
    ensures Repeat('=', SumPos([15, 7])) == "======================"
  {
    assert SumPos([15, 7]) == 22;
    RepeatIs('=', 22, "======================");
  }

  /** The default test rows rendered: the normalised header over the normalised body. */
  lemma DefaultRendersNormalised()
    ensures RoomForPostfix(NewTable(true, [15, 7], 1))
    ensures Render(NewTable(true, [15, 7], 1), DefaultRows)
      == Draw.Draw(NewDraw(NewTable(true, [15, 7], 1)), ["Name: ", "Count: "],
        [["Obi Wan Kenobi ", "1 "], ["Banana ", "80 "], ["Hinz & Kunz ", "2 "]])
  {
    DefaultNormalised();
  }

  /** The normalised default rows drawn in the default style. */
  lemma DefaultDrawn()
    ensures Draw.Draw(NewDraw(NewTable(true, [15, 7], 1)), ["Name: ", "Count: "],
        [["Obi Wan Kenobi ", "1 "], ["Banana ", "80 "], ["Hinz & Kunz ", "2 "]])
      == Join(["Name:          Count: ", "======================",
        "Obi Wan Kenobi 1      ", "Banana         80     ", "Hinz & Kunz    2      "])
  {
    var d := NewDraw(NewTable(true, [15, 7], 1));
    Layout3(d, [15, 7], ["Name: ", "Count: "], ["Obi Wan Kenobi ", "1 "], ["Banana ", "80 "], ["Hinz & Kunz ", "2 "]);
    DefaultLine(d, 0);
    DefaultLine(d, 1);
    DefaultLine(d, 2);
    DefaultLine(d, 3);
    DefaultRule();
  }

  /** table_test.go, TestTable_defaults: the header, a rule of `=`, and the body,
      every cell padded to its column's capacity. */
  lemma DefaultTable()
    ensures New(true, DefaultRows).Some?
    ensures RoomForPostfix(New(true, DefaultRows).value)
    ensures Render(New(true, DefaultRows).value, DefaultRows) == Join([
      "Name:          Count: ",
      "======================",
      "Obi Wan Kenobi 1      ",
      "Banana         80     ",
      "Hinz & Kunz    2      "])
  {
    DefaultTableValue();
    DefaultRendersNormalised();
    DefaultDrawn();
  }

  /** A cell longer than two characters, against capacity 3 and one trailing
      space: a hard cut to two characters, then the space. */
  lemma CutCell(cell: string)
    requires '\n' !in cell && '\r' !in cell && |cell| > 2
    ensures Rows.NewCell(3, cell, 1) == [cell[0], cell[1], ' ']
  {
    Rows.PurgeClean(cell);
    assert Repeat(' ', 1) == " ";
    var t := Rows.TrimCell(cell, 2);
    assert t == cell[..2] && t[0] == cell[0] && t[1] == cell[1];
  }

  /** A newline-free cell with room for it and one space is kept whole. */
  lemma KeptCell(cap: Int64, cell: string)
    requires '\n' !in cell && '\r' !in cell && |cell| + 1 <= cap
    ensures Rows.NewCell(cap, cell, 1) == cell + " "
  {
    Rows.PurgeClean(cell);
    assert Repeat(' ', 1) == " ";
  }

  /** A two-cell row normalises cell by cell. */
  lemma New2(c: Rows.ColumnCap, a: string, b: string, a': string, b': string)
    requires |c| == 2 && Rows.NewCell(c[0], a, 1) == a' && Rows.NewCell(c[1], b, 1) == b'
    ensures Rows.New(c, [a, b], 1) == [a', b']
  {
  }

  /** The streaming constructor with widths 2 and 2. */
  lemma CutCaps()
    ensures ReadFrom(true, [2, 2]) == NewTable(true, [3, 3], 1)
  {
    var t := ReadFrom(true, [2, 2]);
    assert t.columnCap == [3, 3];
  }

  const CutRows: seq<Rows.Row> := [["Name:", "Count:"], ["Obi Wan Kenobi", "1"]]

  /** A clean two-cell row against capacities 3 and 3: a long first cell is cut to
      two characters, the second is cut when long and kept when short, and each
      gains one space. */
  lemma CutRowAt(rows: seq<Rows.Row>, k: nat, a: string, b: string, a': string, b': string)
    requires k < |rows| && rows[k] == [a, b] && Clean2([a, b]) && |a| > 2
    requires a' == [a[0], a[1], ' ']
    requires (|b| > 2 && b' == [b[0], b[1], ' ']) || (|b| == 1 && b' == [b[0], ' '])
    ensures Normalised(NewTable(true, [3, 3], 1), rows)[k] == [a', b']
  {
    assert [a, b][0] == a && [a, b][1] == b;
    CutCell(a);
    if |b| > 2 {
      CutCell(b);
    } else {
      KeptCell(3, b);
      assert b + " " == [b[0], ' '];
    }
    New2([3, 3], a, b, a', b');
  }

  /** The first two characters of each long test cell. */
  lemma CutStarts()
    ensures "Na " == ["Name:"[0], "Name:"[1], ' ']
    ensures "Co " == ["Count:"[0], "Count:"[1], ' ']
    ensures "Ob " == ["Obi Wan Kenobi"[0], "Obi Wan Kenobi"[1], ' ']
    ensures "1 " == ["1"[0], ' ']
  {
  }

  /** Capacities 3 and 3 leave room for one trailing space. */
  lemma CutRoom()
    ensures RoomForPostfix(NewTable(true, [3, 3], 1))
  {
  }

  /** The header row normalised against capacities 3 and 3. */
  lemma CutHeadRow()
    ensures RoomForPostfix(NewTable(true, [3, 3], 1))
    ensures Normalised(NewTable(true, [3, 3], 1), CutRows)[0] == ["Na ", "Co "]
  {
    CutStarts();
    CutRoom();
    DefaultClean();
    CutRowAt(CutRows, 0, "Name:", "Count:", "Na ", "Co ");
  }

  /** The body row normalised against capacities 3 and 3. */
  lemma CutBodyRow()
    ensures RoomForPostfix(NewTable(true, [3, 3], 1))
    ensures Normalised(NewTable(true, [3, 3], 1), CutRows)[1] == ["Ob ", "1 "]
  {
    CutStarts();
    CutRoom();
    DefaultClean();
    CutRowAt(CutRows, 1, "Obi Wan Kenobi", "1", "Ob ", "1 ");
  }

  /** The two test rows normalised against capacities 3 and 3. */
  lemma CutNormalised()
    ensures RoomForPostfix(NewTable(true, [3, 3], 1))
    ensures Normalised(NewTable(true, [3, 3], 1), CutRows) == [["Na ", "Co "], ["Ob ", "1 "]]
  {
    CutHeadRow();
    CutBodyRow();
    var norm := Normalised(NewTable(true, [3, 3], 1), CutRows);
    assert |norm| == 2;
  }

  /** The two test rows rendered: the normalised header over the normalised body row. */
  lemma CutRendersNormalised()
    ensures RoomForPostfix(NewTable(true, [3, 3], 1))
    ensures Render(NewTable(true, [3, 3], 1), CutRows)
      == Draw.Draw(NewDraw(NewTable(true, [3, 3], 1)), ["Na ", "Co "], [["Ob ", "1 "]])
  {
    CutNormalised();
  }

  /** The default layout of a header and one body row, line by line. */
  lemma Layout1(d: Draw.Drawer, c: Rows.ColumnCap, head: Rows.Row, b0: Rows.Row)
    requires d == NewDraw(NewTable(true, c, 1))
    requires |head| > 0 && Draw.Fits(d, head) && Draw.Fits(d, b0)
    ensures Draw.Draw(d, head, [b0])
      == Join([Draw.PlainRow(d, head), Repeat('=', SumPos(c)), Draw.PlainRow(d, b0)])
  {
    var body := [b0];
    assert Draw.AllFit(d, body);
    DefaultLayout(c, 1, head, body);
    Draw.DrawIsLines(d, head, body);
    var plain := seq(|body|, k requires 0 <= k < |body| => Draw.PlainRow(d, body[k]));
    assert plain[0] == Draw.PlainRow(d, b0);
    assert plain == [Draw.PlainRow(d, b0)];
  }

  /** The two cell lines of the cut table. */
  lemma CutLines(d: Draw.Drawer)
    requires d.columnCap == [3, 3]
    ensures Draw.PlainRow(d, ["Na ", "Co "]) == "Na Co "
    ensures Draw.PlainRow(d, ["Ob ", "1 "]) == "Ob 1  "
  {
    PlainRow2(d, "Na ", "Co ", "Na ", "Co ");
    PlainRow2(d, "Ob ", "1 ", "Ob ", "1  ");
  }

  /** The rule under the cut header. */
  lemma CutRule()
    ensures Repeat('=', SumPos([3, 3])) == "======"
  {
    assert SumPos([3, 3]) == 6;
    RepeatIs('=', 6, "======");
  }

  /** The normalised cut rows drawn in the default style. */
  lemma CutDrawn()
    ensures Draw.Draw(NewDraw(NewTable(true, [3, 3], 1)), ["Na ", "Co "], [["Ob ", "1 "]])
      == Join(["Na Co ", "======", "Ob 1  "])
  {
    var d := NewDraw(NewTable(true, [3, 3], 1));
    Layout1(d, [3, 3], ["Na ", "Co "], ["Ob ", "1 "]);
    CutLines(d);
    CutRule();
  }

  /** table_test.go, TestReadFrom_cutCell: widths 2 and 2 cut each long cell to two
      characters and a space. */
  lemma CutCellTable()
    ensures RoomForPostfix(ReadFrom(true, [2, 2]))
    ensures Render(ReadFrom(true, [2, 2]), CutRows) == Join(["Na Co ", "======", "Ob 1  "])
  {
    CutCaps();
    CutRendersNormalised();
    CutDrawn();
  }

  /** row/row_test.go, TestTrimTextToMaxLength: `a` widened to 2 characters. */
  lemma TrimTextToMaxLengthTest()
    ensures Rows.Pad("a", 2) == "a "
  {
    PadIs("a", 2, "a ");
  }

  /** The smallest capacity Go's `int` holds, with one trailing space: `cap - n`
      wraps to the largest `int`, so the cell is kept whole. */
  lemma UnderflowKeepsCell()
    ensures Rows.New([-IntMax - 1], ["abc"], 1) == ["abc "]
  {
    Rows.PurgeClean("abc");
    Rows.NewCellUnderflow(-IntMax - 1, "abc", 1);
    assert Repeat(' ', 1) == " ";
    var r := Rows.New([-IntMax - 1], ["abc"], 1);
    assert |r| == 1 && r[0] == Rows.NewCell(-IntMax - 1, "abc", 1) == "abc" + " " == "abc ";
  }
}
