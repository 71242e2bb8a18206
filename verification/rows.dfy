/** Cell normalisation and column sizing (row/row.go). */
module Rows {
  import opened Text

  /** Go's `uint8`, the type of the trailing-space count. */
  type Uint8 = n: nat | n < 256

  /** A row is a sequence of cells. */
  type Row = seq<string>

  /** Per-column widths, counted in characters (Go: `[]int`). */
  type ColumnCap = seq<int>

  // ---------------------------------------------------------------------------
  // purgeRunes
  // ---------------------------------------------------------------------------

  /** `strings.Replace(s, string(x), "", -1)`: every occurrence of `x` removed. */
  function RemoveAll(s: string, x: char): string
  {
    if |s| == 0 then s
    else (if s[0] == x then [] else [s[0]]) + RemoveAll(s[1..], x)
  }

  /** No `x` survives, and a string without `x` is returned unchanged. */
  lemma {:induction false} RemoveAllRemoves(s: string, x: char)
    ensures x !in RemoveAll(s, x)
    ensures x !in s ==> RemoveAll(s, x) == s
  {
    if |s| > 0 {
      RemoveAllRemoves(s[1..], x);
      var head: string := if s[0] == x then [] else [s[0]];
      assert x !in head;
      if x !in s {
        assert x !in s[1..];
        assert s == head + s[1..];
      }
    }
  }

  /** Removal keeps every other character, as often as it occurs. */
  lemma {:induction false} RemoveAllKeeps(s: string, x: char)
    ensures forall c :: c != x ==> multiset(RemoveAll(s, x))[c] == multiset(s)[c]
  {
    if |s| > 0 {
      assert s == [s[0]] + s[1..];
      RemoveAllKeeps(s[1..], x);
    }
  }

  /** Removal distributes over concatenation. */
  lemma {:induction false} RemoveAllAppend(s: string, t: string, x: char)
    ensures RemoveAll(s + t, x) == RemoveAll(s, x) + RemoveAll(t, x)
  {
    if |s| == 0 {
      assert s + t == t;
    } else {
      var head: string := if s[0] == x then [] else [s[0]];
      assert (s + t)[0] == s[0] && (s + t)[1..] == s[1..] + t;
      assert RemoveAll(s + t, x) == head + RemoveAll(s[1..] + t, x);
      RemoveAllAppend(s[1..], t, x);
      assert head + (RemoveAll(s[1..], x) + RemoveAll(t, x)) == (head + RemoveAll(s[1..], x)) + RemoveAll(t, x);
    }
  }

  /** Line breaks would break line-oriented output, so cells lose them. */
  function Purge(cell: string): string
  {
    RemoveAll(RemoveAll(cell, '\n'), '\r')
  }

  /** A purged cell holds no line break, and a cell without one is left as it is. */
  lemma PurgeClean(cell: string)
    ensures '\n' !in Purge(cell) && '\r' !in Purge(cell)
    ensures '\n' !in cell && '\r' !in cell ==> Purge(cell) == cell
  {
    var once := RemoveAll(cell, '\n');
    RemoveAllRemoves(cell, '\n');
    RemoveAllRemoves(once, '\r');
    RemoveAllKeeps(once, '\r');
    assert multiset(Purge(cell))['\n'] == multiset(once)['\n'] == 0;
  }

  /** Purging removes exactly the line breaks: every other character is kept as
      often as it occurs. */
  lemma PurgeKeeps(cell: string)
    ensures forall c :: c != '\n' && c != '\r' ==> multiset(Purge(cell))[c] == multiset(cell)[c]
  {
    var once := RemoveAll(cell, '\n');
    RemoveAllKeeps(cell, '\n');
    RemoveAllKeeps(once, '\r');
  }

  /** Purging works character by character: it distributes over concatenation,
      so the kept characters stay in their original order. */
  lemma PurgeAppend(s: string, t: string)
    ensures Purge(s + t) == Purge(s) + Purge(t)
  {
    RemoveAllAppend(s, t, '\n');
    RemoveAllAppend(RemoveAll(s, '\n'), RemoveAll(t, '\n'), '\r');
  }

  /** Purging an already purged cell changes nothing. */
  lemma PurgeIdempotent(cell: string)
    ensures Purge(Purge(cell)) == Purge(cell)
  {
    PurgeClean(cell);
    PurgeClean(Purge(cell));
  }

  // ---------------------------------------------------------------------------
  // trimCell
  // ---------------------------------------------------------------------------

  /** Cuts a cell to at most `max` characters: a hard cut when `max` is at most 3,
      otherwise the kept prefix is followed by a `...` marker. A negative `max` is
      treated as 0. The cut is by characters; see the Findings for the byte-level
      cut of the Go code. */
  function TrimCell(cell: string, max: int): (r: string)
    ensures |r| == Min(|cell|, Clamp0(max))
    ensures |cell| <= max ==> r == cell
    ensures Clamp0(max) <= 3 ==> r == cell[..|r|]
    ensures max > 3 && |cell| > max ==> r[..max - 3] == cell[..max - 3] && r[max - 3..] == "..."
  {
    var m := Clamp0(max);
    if |cell| <= m then cell
    else if m <= 3 then cell[..m]
    else cell[..m - 3] + "..."
  }

  /** Trimming twice to the same limit is trimming once. */
  lemma TrimCellIdempotent(cell: string, max: int)
    ensures TrimCell(TrimCell(cell, max), max) == TrimCell(cell, max)
  {
  }

  // ---------------------------------------------------------------------------
  // TrimTextToMaxLength
  // ---------------------------------------------------------------------------

  /** Right-pads `s` with spaces to exactly `n` characters. A longer `s` makes the
      Go code call `strings.Repeat` with a negative count, which panics. */
  function Pad(s: string, n: int): (r: string)
    requires |s| <= n
    ensures |r| == n
    ensures r[..|s|] == s
    ensures forall i :: |s| <= i < n ==> r[i] == ' '
  {
    if |s| == n then s else s + Repeat(' ', n - |s|)
  }

  /** Padding is the identity on a string already of the target length, so
      padding twice is padding once. */
  lemma PadIdempotent(s: string, n: int)
    requires |s| <= n
    ensures Pad(s, |s|) == s
    ensures Pad(Pad(s, n), n) == Pad(s, n)
  {
  }

  // ---------------------------------------------------------------------------
  // NewColumnCap
  // ---------------------------------------------------------------------------

  /** Characters cell `i` of `row` needs after purging; 0 when the row has no cell `i`. */
  function CellWidth(row: Row, i: nat): nat
  {
    if i < |row| then |Purge(row[i])| else 0
  }

  /** Widest purged cell of column `i` over `rows` (0 for no rows). */
  function Width(rows: seq<Row>, i: nat): nat
  {
    if |rows| == 0 then 0
    else Max(Width(rows[..|rows| - 1], i), CellWidth(rows[|rows| - 1], i))
  }

  /** `Width` is the maximum: an upper bound of every cell that some cell attains. */
  lemma {:induction false} WidthIsMax(rows: seq<Row>, i: nat)
    ensures forall r :: r in rows ==> CellWidth(r, i) <= Width(rows, i)
    ensures Width(rows, i) == 0 || exists r :: r in rows && CellWidth(r, i) == Width(rows, i)
  {
    if |rows| > 0 {
      var init := rows[..|rows| - 1];
      assert rows == init + [rows[|rows| - 1]];
      WidthIsMax(init, i);
    }
  }

  /** Adding one row widens a column to that row's cell when it is wider. */
  lemma WidthSnoc(rows: seq<Row>, r: Row, i: nat)
    ensures Width(rows + [r], i) == Max(Width(rows, i), CellWidth(r, i))
  {
    assert (rows + [r])[..|rows|] == rows;
  }

  /** The widest cell determines `Width`: a bound every cell keeps and some cell meets. */
  lemma WidthIs(rows: seq<Row>, i: nat, w: nat)
    requires forall r :: r in rows ==> CellWidth(r, i) <= w
    requires exists r :: r in rows && CellWidth(r, i) == w
    ensures Width(rows, i) == w
  {
    WidthIsMax(rows, i);
  }

  /** Column widths depend only on which rows there are, not on their order. */
  lemma WidthPermutation(rows: seq<Row>, rows': seq<Row>, i: nat)
    requires multiset(rows) == multiset(rows')
    ensures Width(rows, i) == Width(rows', i)
  {
    WidthIsMax(rows, i);
    WidthIsMax(rows', i);
    assert forall r :: r in rows <==> r in rows' by {
      forall r ensures r in rows <==> r in rows' {
        assert r in rows <==> r in multiset(rows);
        assert r in rows' <==> r in multiset(rows');
      }
    }
  }

  /** A zero width is raised to 1 so that an all-empty column still occupies space. */
  function AtLeastOne(x: int): int
  {
    if x == 0 then 1 else x
  }

  /** The capacities `NewColumnCap` computes: one per cell of the first row, each the
      widest purged cell of that column plus `n`, and never 0. */
  function ColumnCapOf(rows: seq<Row>, n: Uint8): (c: ColumnCap)
    requires |rows| > 0
    ensures |c| == |rows[0]|
  {
    seq(|rows[0]|, i requires 0 <= i < |rows[0]| => AtLeastOne(Width(rows, i) + n))
  }

  /** Every purged cell fits in its column with `n` characters to spare, and every
      capacity is at least 1. */
  lemma ColumnCapFits(rows: seq<Row>, n: Uint8)
    requires |rows| > 0
    ensures forall i :: 0 <= i < |rows[0]| ==> ColumnCapOf(rows, n)[i] >= 1
    ensures forall r, i :: r in rows && 0 <= i < |r| && i < |rows[0]| ==>
      |Purge(r[i])| + n <= ColumnCapOf(rows, n)[i]
  {
    forall i | 0 <= i < |rows[0]| {
      WidthIsMax(rows, i);
    }
  }

  /** Reordering the rows, the first one's arity kept, does not change the capacities. */
  lemma ColumnCapPermutation(rows: seq<Row>, rows': seq<Row>, n: Uint8)
    requires |rows| > 0 && |rows'| > 0 && |rows[0]| == |rows'[0]|
    requires multiset(rows) == multiset(rows')
    ensures ColumnCapOf(rows, n) == ColumnCapOf(rows', n)
  {
    forall i | 0 <= i < |rows[0]| {
      WidthPermutation(rows, rows', i);
    }
  }

  /** Capacity of column `i` once the first `k` rows have been scanned: untouched
      (0) before any row, afterwards the widest cell so far plus `n`, lifted to 1. */
  function Seen(rows: seq<Row>, k: nat, i: nat, n: Uint8): int
    requires k <= |rows|
  {
    if k == 0 then 0 else AtLeastOne(Width(rows[..k], i) + n)
  }

  /** Adding row `k` to the rows seen so far widens column `i` to that row's cell. */
  lemma WidthStep(rows: seq<Row>, k: nat, i: nat)
    requires k < |rows|
    ensures Width(rows[..k + 1], i) == Max(Width(rows[..k], i), CellWidth(rows[k], i))
  {
    assert rows[..k + 1][..k] == rows[..k];
  }

  /** One cell visit of the loop below: raise to the cell's count, then lift 0 to 1. */
  lemma SeenStep(rows: seq<Row>, k: nat, i: nat, n: Uint8, prev: int)
    requires k < |rows| && i < |rows[k]|
    requires prev == Seen(rows, k, i, n)
    ensures AtLeastOne(Max(prev, |Purge(rows[k][i])| + n)) == Seen(rows, k + 1, i, n)
  {
    WidthStep(rows, k, i);
  }

  /** A row without cell `i` leaves column `i` as it was. */
  lemma SeenSkip(rows: seq<Row>, k: nat, i: nat, n: Uint8)
    requires 0 < k < |rows| && i >= |rows[k]|
    ensures Seen(rows, k, i, n) == Seen(rows, k + 1, i, n)
  {
    WidthStep(rows, k, i);
  }

  /** The Go loop: for every row and every cell, raise the column's capacity to the
      cell's purged length plus `n`, then lift a 0 to 1. `rows[0]` fixes the number of
      columns, so a longer later row would index past the end and panic. */
  method NewColumnCap(rows: seq<Row>, n: Uint8) returns (c: ColumnCap)
    requires |rows| > 0
    requires forall k :: 0 <= k < |rows| ==> |rows[k]| <= |rows[0]|
    ensures c == ColumnCapOf(rows, n)
    ensures forall i :: 0 <= i < |c| ==> c[i] >= 1
  {
    c := seq(|rows[0]|, _ => 0);
    var k := 0;
    while k < |rows|
      invariant 0 <= k <= |rows|
      invariant |c| == |rows[0]|
      invariant forall i :: 0 <= i < |c| ==> c[i] == Seen(rows, k, i, n)
    {
      var row := rows[k];
      var j := 0;
      while j < |row|
        invariant 0 <= j <= |row|
        invariant |c| == |rows[0]|
        invariant forall i :: 0 <= i < j ==> c[i] == Seen(rows, k + 1, i, n)
        invariant forall i :: j <= i < |c| ==> c[i] == Seen(rows, k, i, n)
      {
        SeenStep(rows, k, j, n, c[j]);
        var count := |Purge(row[j])| + n;
        if count > c[j] {
          c := c[j := count];
        }
        if c[j] == 0 {
          c := c[j := 1];
        }
        j := j + 1;
      }
      if k > 0 {
        forall i | |row| <= i < |c|
          ensures c[i] == Seen(rows, k + 1, i, n)
        {
          SeenSkip(rows, k, i, n);
        }
      }
      k := k + 1;
    }
    assert rows[..k] == rows;
    assert forall i :: 0 <= i < |c| ==> c[i] == ColumnCapOf(rows, n)[i];
  }

  // ---------------------------------------------------------------------------
  // ConvRunesPerColumn
  // ---------------------------------------------------------------------------

  /** Capacities from caller-given widths: a negative width counts as 0, `n` is
      added in Go's 64-bit `int`, and a resulting 0 is raised to 1. A width within
      `n` of the largest `int` overflows to a negative capacity. */
  function ConvRunesPerColumn(runesPerColumn: seq<Int64>, n: Uint8): (c: ColumnCap)
    ensures |c| == |runesPerColumn|
    ensures forall i :: 0 <= i < |c| && runesPerColumn[i] <= IntMax - n ==>
      c[i] >= 1 && c[i] >= n && c[i] - n >= runesPerColumn[i]
    ensures forall i :: 0 <= i < |c| && (runesPerColumn[i] > 0 || n > 0) && runesPerColumn[i] <= IntMax - n ==>
      c[i] - n == Clamp0(runesPerColumn[i])
    ensures forall i :: 0 <= i < |c| && Clamp0(runesPerColumn[i]) + n == 0 ==> c[i] == 1
    ensures forall i :: 0 <= i < |c| && runesPerColumn[i] > IntMax - n ==>
      c[i] < 0 && c[i] == runesPerColumn[i] + n - 0x1_0000_0000_0000_0000
  {
    seq(|runesPerColumn|, i requires 0 <= i < |runesPerColumn| =>
      AtLeastOne(Wrap64(Clamp0(runesPerColumn[i]) + n)))
  }

  /** Converting non-negative widths gives each width plus the trailing spaces, or
      one for an empty column without trailing spaces. */
  lemma ConvOfWidths(widths: seq<Int64>, n: Uint8, caps: ColumnCap)
    requires |caps| == |widths|
    requires forall i :: 0 <= i < |widths| ==> 0 <= widths[i] <= IntMax - n && caps[i] == AtLeastOne(widths[i] + n)
    ensures ConvRunesPerColumn(widths, n) == caps
  {
    var conv := ConvRunesPerColumn(widths, n);
    forall i | 0 <= i < |widths| ensures conv[i] == caps[i] {
      assert Clamp0(widths[i]) == widths[i];
    }
  }

  /** Giving the content's own column widths explicitly yields the same capacities
      as measuring the rows, as long as no width is within `n` of the largest `int`. */
  lemma ConvAgreesWithColumnCap(rows: seq<Row>, widths: seq<Int64>, n: Uint8)
    requires |rows| > 0 && |widths| == |rows[0]|
    requires forall i :: 0 <= i < |widths| ==> widths[i] == Width(rows, i) && widths[i] <= IntMax - n
    ensures ConvRunesPerColumn(widths, n) == ColumnCapOf(rows, n)
  {
    var cap := ColumnCapOf(rows, n);
    assert forall i :: 0 <= i < |widths| ==> 0 <= widths[i] <= IntMax - n && cap[i] == AtLeastOne(widths[i] + n);
    ConvOfWidths(widths, n, cap);
  }

  // ---------------------------------------------------------------------------
  // New
  // ---------------------------------------------------------------------------

  /** Normalises `row` against the capacities: extra cells beyond `|c|` are dropped,
      each kept cell is purged, trimmed to `c[i] - n` (a subtraction in Go's 64-bit
      `int`) and followed by `n` spaces. */
  function New(c: ColumnCap, row: Row, n: Uint8): (r: Row)
    ensures |r| == Min(|row|, |c|)
    ensures forall i :: 0 <= i < |r| ==> '\n' !in r[i] && '\r' !in r[i]
    ensures forall i :: 0 <= i < |r| ==>
      |r[i]| >= n && r[i][|r[i]| - n..] == Repeat(' ', n)
    ensures forall i :: 0 <= i < |r| && c[i] >= n ==> |r[i]| <= c[i]
  {
    var k := Min(|row|, |c|);
    seq(k, i requires 0 <= i < k => NewCell(c[i], row[i], n))
  }

  /** One normalised cell of `New`. */
  function NewCell(cap: int, cell: string, n: Uint8): (r: string)
    ensures '\n' !in r && '\r' !in r
    ensures |r| >= n && r[|r| - n..] == Repeat(' ', n)
    ensures cap >= n ==> |r| <= cap
  {
    var t := TrimCell(Purge(cell), Wrap64(cap - n));
    assert '\n' !in t && '\r' !in t by {
      PurgeClean(cell);
      assert t == Purge(cell)[..|t|] || t == Purge(cell)[..|t| - 3] + "...";
    }
    assert (t + Repeat(' ', n))[|t|..] == Repeat(' ', n);
    t + Repeat(' ', n)
  }

  /** The text of a normalised cell before its `n` spaces, with `m` the limit
      `cap - n` as Go's 64-bit `int` computes it: the purged cell when it fits `m`
      characters, its first `m` characters when `m` is at most 3, and otherwise its
      first `m - 3` characters followed by `...`. */
  lemma NewCellText(cap: int, cell: string, n: Uint8)
    ensures var r, p, m := NewCell(cap, cell, n), Purge(cell), Clamp0(Wrap64(cap - n));
      r[..|r| - n] == (if |p| <= m then p else if m <= 3 then p[..m] else p[..m - 3] + "...")
  {
    var r, p, m := NewCell(cap, cell, n), Purge(cell), Clamp0(Wrap64(cap - n));
    var t := TrimCell(p, Wrap64(cap - n));
    assert r == t + Repeat(' ', n);
    assert r[..|r| - n] == t;
    if |p| > m && m > 3 {
      assert t == t[..m - 3] + t[m - 3..];
    }
  }

  /** A capacity so low that `cap - n` underflows Go's 64-bit `int` wraps to a
      large limit, so the purged cell is kept whole. */
  lemma NewCellUnderflow(cap: Int64, cell: string, n: Uint8)
    requires cap - n < -IntMax - 1 && |Purge(cell)| <= IntMax + 1 - n
    ensures NewCell(cap, cell, n) == Purge(cell) + Repeat(' ', n)
  {
    assert Wrap64(cap - n) == cap - n + 0x1_0000_0000_0000_0000;
  }

  /** Every cell of a normalised row is its purged text, cut as `NewCellText`
      describes, followed by `n` spaces. */
  lemma NewText(c: ColumnCap, row: Row, n: Uint8)
    ensures var r := New(c, row, n);
      forall i :: 0 <= i < |r| ==>
        var p, m := Purge(row[i]), Clamp0(Wrap64(c[i] - n));
        r[i][..|r[i]| - n] == (if |p| <= m then p else if m <= 3 then p[..m] else p[..m - 3] + "...")
  {
    var r := New(c, row, n);
    forall i | 0 <= i < |r|
      ensures var p, m := Purge(row[i]), Clamp0(Wrap64(c[i] - n));
        r[i][..|r[i]| - n] == (if |p| <= m then p else if m <= 3 then p[..m] else p[..m - 3] + "...")
    {
      NewCellText(c[i], row[i], n);
    }
  }

  /** A newline-free cell that fits with room for the trailing spaces is kept whole,
      for capacities that are values of Go's `int`. */
  lemma NewKeepsFittingCells(c: ColumnCap, row: Row, n: Uint8)
    requires |row| <= |c|
    requires forall i :: 0 <= i < |row| ==>
      '\n' !in row[i] && '\r' !in row[i] && |row[i]| + n <= c[i] <= IntMax
    ensures |New(c, row, n)| == |row|
    ensures forall i :: 0 <= i < |row| ==> New(c, row, n)[i] == row[i] + Repeat(' ', n)
  {
    forall i | 0 <= i < |row| ensures Purge(row[i]) == row[i] {
      PurgeClean(row[i]);
    }
  }

  /** Against capacities measured from the same rows nothing is ever cut: each cell
      is its purged text followed by `n` spaces. The capacities are values of Go's
      `int`, which every real column width plus `n` is. */
  lemma NewUnderColumnCap(rows: seq<Row>, row: Row, n: Uint8)
    requires |rows| > 0 && row in rows && |row| == |rows[0]|
    requires forall i :: 0 <= i < |row| ==> Width(rows, i) + n <= IntMax
    ensures New(ColumnCapOf(rows, n), row, n) == seq(|row|, i requires 0 <= i < |row| =>
      Purge(row[i]) + Repeat(' ', n))
  {
    var c := ColumnCapOf(rows, n);
    ColumnCapFits(rows, n);
    forall i | 0 <= i < |row|
      ensures New(c, row, n)[i] == Purge(row[i]) + Repeat(' ', n)
    {
      assert |Purge(row[i])| + n <= c[i] <= IntMax;
    }
  }
}
