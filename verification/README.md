# thibran/table: the layout engine in Dafny

`thibran/table` is a Go library. It prints rows of strings as a fixed-width text
table with optional border lines. This project models its layout engine as pure Dafny
functions and proves properties of them. The engine has four parts:

- **Cell normalisation and column sizing** (`row/row.go`), module `Rows`:
  - line breaks are purged from cells;
  - too-long cells are cut, with a `...` marker when the limit exceeds 3;
  - cells are padded to their column's capacity;
  - capacities are measured from the rows (`NewColumnCap`) or derived from explicit
    widths (`ConvRunesPerColumn`).
- **Border styles and presets** (`style.go`), module `Styles`.
- **The renderer** (`draw/draw.go`), module `Draw`:
  - the six line switches and the glyphs of the header and body sections;
  - `writeEdge`/`lineV`, which implement the cross-section rule: a section without
    vertical lines still puts a one-character marker at every edge and separator
    position when the other section draws vertical lines;
  - rule lines (`lineH`), cell lines (`writeRow`), and the sequencing of header,
    body rows, newlines and rules (`head`, `bodyRow`, `body`, `Draw`).
- **The table front end** (`table.go`), module `Tables`:
  - the defaults of `newTable`;
  - the derivation of the renderer's switches from the table's styles and flags
    (`newDraw`);
  - `isFirstBodyRow`;
  - the two constructors' choice of capacities and trailing space;
  - `Render`, which composes normalisation, `newDraw` and `Draw`.

The Go renderer writes to an `io.Writer`. Here each drawing step is a function that
returns the text it would append, so the writer's content is string concatenation.
Besides the direct definitions, `Draw` describes the output a second way, as a list
of lines (`HeadLines`, `RowLines`, `BodyLines`, `DrawLines`). Lemmas tie the two
descriptions together, and the alignment, newline-count and plain-layout results are
stated over the lines.

Two further modules:

- `Text` holds the string helpers: `Repeat`, `SumPos`, `Join`, `Count`.
- `Examples` derives the exact outputs of two tests from the model:
  - `TestTable_defaults` (table_test.go:11-22);
  - `TestReadFrom_cutCell` (table_test.go:206-215).

Module `TrimBytes` models the byte-level cut of `trimCell` that the Go code actually
performs. See the Findings below.

Modelling choices:

- Strings are sequences of Unicode characters. Go's rune counts are sequence lengths.
- Integers are unbounded. Go's `int` is 64 bits wide, and the model makes that width explicit where a caller's value can reach it. `ConvRunesPerColumn` adds the trailing-space count to a caller-given width in Go's `int` (row/row.go:75). A width within `n` of the largest `int` wraps to a negative capacity, and the model reproduces this with `Text.Wrap64`. `row.New` subtracts the trailing-space count from a capacity in Go's `int` (row/row.go:28). A capacity within `n` of the smallest `int` wraps to a large limit, so the cell is kept whole, and `Rows.NewCell` reproduces this with `Text.Wrap64` as well. Cell lengths and the counts measured from them stay unbounded, because no real string comes near 2^63 characters.
- The trailing-space count is Go's `uint8`: type `Rows.Uint8`, values 0 to 255.
- Where the Go code would panic, the model has a precondition instead. Each one
  matches a panic in the source:
  - indexing `rows[0]` of no rows;
  - a row with more cells than capacities;
  - `strings.Repeat` with a negative count in `TrimTextToMaxLength`.
- `table.New` with no rows returns Go's zero `Table`. That table has nil styles and
  a nil reader, so any render of it panics. The model returns `None` for it.

## Model

| member | source | states |
|---|---|---|
| Rows.RemoveAllRemoves | row/row.go:84-85 | After `strings.Replace(s, x, "", -1)` no `x` is left, and a string without `x` comes back unchanged. |
| Rows.RemoveAllKeeps | row/row.go:84-85 | Removing `x` keeps every other character exactly as often as it occurred. |
| Rows.RemoveAllAppend | row/row.go:84-85 | Removing `x` from a concatenation is removing it from each part. |
| Rows.PurgeClean | row/row.go:83-87 | A purged cell contains neither `\n` nor `\r`, and a cell with neither is returned unchanged. |
| Rows.PurgeKeeps | row/row.go:83-87 | Purging filters out exactly `\n` and `\r`: every other character keeps its multiplicity. |
| Rows.PurgeAppend | row/row.go:83-87 | Purging distributes over concatenation. |
| Rows.PurgeIdempotent | row/row.go:83-87 | Purging twice is purging once. |
| Rows.TrimCell | row/row.go:34-48 | A negative limit counts as 0. The result has min(length, limit) characters, and the cell is unchanged when it fits. A limit of at most 3 gives a hard cut, a prefix of the cell. A larger limit keeps `max - 3` characters and adds `...`. |
| Rows.TrimCellIdempotent | row/row.go:34-48 | Trimming again to the same limit changes nothing. |
| Rows.Pad | row/row.go:89-96 | Requires the string to be no longer than `n`, because `strings.Repeat` panics on a negative count. The result has exactly `n` characters: the string, then only spaces. |
| Rows.PadIdempotent | row/row.go:91-94 | A string already `n` long is returned as it is, so padding twice is padding once. |
| Rows.WidthIsMax | row/row.go:53-59 | A column's width is the maximum purged cell length over the rows: every cell is within it and some cell reaches it. |
| Rows.WidthSnoc | row/row.go:53-59 | One more row widens a column exactly when its cell is wider. |
| Rows.WidthIs | row/row.go:53-59 | A bound every cell keeps and some cell meets is the width. |
| Rows.WidthPermutation | row/row.go:53-59 | Column widths do not depend on the order of the rows. |
| Rows.ColumnCapOf | row/row.go:51-52 | There is one capacity per cell of the first row. |
| Rows.ColumnCapFits | row/row.go:53-64 | Every capacity is at least 1, and every purged cell of every row fits its column with `n` characters to spare. |
| Rows.ColumnCapPermutation | row/row.go:53-64 | Reordering the rows, with the first row's arity kept, does not change the capacities. |
| Rows.NewColumnCap | row/row.go:50-66 | The nested loop computes, per column, the widest purged cell plus `n`, raised to 1 when 0. It requires at least one row and no row longer than the first, where the Go indexing would panic. |
| Rows.ConvRunesPerColumn | row/row.go:68-81 | The length is kept. For a width at most the largest `int` minus `n`, each capacity is at least 1 and at least `n`, and it leaves `n` characters beyond the width. It is exactly width + `n` when that is positive, and exactly 1 when the clamped width plus `n` is 0. A larger width overflows in Go's 64-bit `int` to the negative value width + `n` - 2^64. |
| Rows.ConvAgreesWithColumnCap | row/row.go:68-81 | Given the measured widths, each at most the largest `int` minus `n`, `ConvRunesPerColumn` yields the same capacities as `NewColumnCap`, so the two constructors agree. |
| Rows.New | row/row.go:19-32 | A row is cut to the number of capacities. Each cell has no line break and ends in `n` spaces, and it fits its capacity whenever the capacity is at least `n`. |
| Rows.NewCell | row/row.go:26-30 | One normalised cell: no line break, `n` trailing spaces, within the capacity when the capacity is at least `n`. |
| Rows.NewCellUnderflow | row/row.go:26-30 | When `cap - n` falls below the smallest `int`, Go's subtraction wraps to a large limit and the purged cell is kept whole, followed by `n` spaces. |
| Rows.NewCellText | row/row.go:27-48 | The text of a normalised cell before its `n` spaces, with `p` the purged cell and `m` the clamped `cap - n` as Go's 64-bit `int` computes it: `p` when it fits in `m`, `p[..m]` when `m` is at most 3, otherwise `p[..m-3]` followed by `...`. |
| Rows.NewText | row/row.go:21-32 | Every cell of a normalised row is its purged text, kept whole or cut as in `Rows.NewCellText`, followed by `n` spaces. |
| Rows.NewKeepsFittingCells | row/row.go:19-32 | A line-break-free cell with room for itself and the spaces, under a capacity that is a Go `int`, is kept whole, with `n` spaces added. |
| Rows.NewUnderColumnCap | row/row.go:19-32 | Against capacities measured from the same rows nothing is cut: each cell is its purged text plus `n` spaces. The capacities must be Go `int` values, which every real column width plus `n` is. |
| Styles.NewStyle | style.go:11-19 | The four arguments are stored unchanged. |
| Styles.AllEmptyIsEmptyH | style.go:21-27 | An all-blank style is horizontally blank. The converse fails as soon as the vertical glyph is not a space. |
| Styles.EmptyHIgnoresVertical | style.go:25-27 | Horizontal blankness reads only the edge and horizontal glyphs. |
| Styles.Presets | style.go:37-71 | The four presets' glyphs and vertical-line flags. |
| Styles.PresetBlankness | style.go:37-71 | The empty preset draws no rules but is not all-blank, so with vertical lines on it draws them. The other three presets draw rules. |
| Draw.WriteEdge | draw/draw.go:110-118 | The edge glyph if the section draws vertical lines. Otherwise the horizontal glyph if the other section does. Otherwise nothing. |
| Draw.LineV | draw/draw.go:131-139 | The vertical glyph if the section draws vertical lines. Otherwise a space if the other section does. Otherwise nothing. It is always exactly as wide as the section's rule edge. |
| Draw.CouplingAligns | draw/draw.go:110-139 | Both sections' edges and separators are one character wide as soon as either section draws vertical lines, and empty otherwise. |
| Draw.RuleCellsLength | draw/draw.go:123-128 | Each column of a rule line is its capacity in `hline` glyphs plus one edge. |
| Draw.LineHLength | draw/draw.go:120-129 | A rule line is as long as the capacities plus one edge per column and one more. |
| Draw.RuleCellsGlyphs | draw/draw.go:123-128 | The columns of a rule hold only the horizontal glyph and edge glyphs. |
| Draw.LineHGlyphs | draw/draw.go:120-129 | A rule line holds only the horizontal glyph and edge glyphs. |
| Draw.RuleCellsPlain | draw/draw.go:120-129 | With empty edges a rule is the horizontal glyph repeated over the sum of the capacities. |
| Draw.RowCellsLength | draw/draw.go:101-108 | After the leading separator, every cell is padded to exactly its column's capacity and followed by one separator. |
| Draw.HeadIsLines | draw/draw.go:42-62 | The header is an optional top rule, the cell line and an optional bottom rule, joined by newlines. |
| Draw.BodyRowIsLines | draw/draw.go:90-99 | A body row is preceded by a rule and a newline exactly when body rules are on and the row is not a first row under the header's bottom rule. |
| Draw.BodyLoopIsLines | draw/draw.go:75-82 | The loop writes the rows from `i` on with a newline after every row except the last. |
| Draw.BodyIsLines | draw/draw.go:64-88 | The body is its rows' lines plus the optional bottom rule, joined by newlines. |
| Draw.DrawIsLines | draw/draw.go:31-40 | The output is the header's lines then the body's lines, joined by newlines. A header without a body leaves its trailing newline. |
| Draw.RuleWidth | draw/draw.go:120-129 | A rule of either section spans the table width. |
| Draw.RowWidth | draw/draw.go:101-108 | The cell line of a complete row spans the table width in either section. |
| Draw.BodyRowsLinesWidth | draw/draw.go:75-82 | Every line of the body rows from row `i` on spans the table width. |
| Draw.HeadLinesWidth | draw/draw.go:42-62 | Every header line spans the table width. |
| Draw.BodyLinesWidth | draw/draw.go:64-88 | Every body line, the bottom rule included, spans the table width. |
| Draw.DrawLinesAligned | draw/draw.go:31-40 | When every row has one fitting cell per column, every output line has the same width, even when only one section draws vertical lines. |
| Draw.RowCellsBreakFree | draw/draw.go:101-108 | Cells and a separator without newlines give a cell line without newlines. |
| Draw.RuleBreakFree | draw/draw.go:120-129 | A rule holds no newline when its glyphs are not newlines. |
| Draw.BodyRowsLinesBreakFree | draw/draw.go:75-82 | No body line contains a newline when no cell or glyph does. |
| Draw.BodyRowsLinesCount | draw/draw.go:75-99 | The rows from `i` on give one cell line per row, plus one rule per row when body rules are on, except for a first row under the header's bottom rule. |
| Draw.BodyNewlines | draw/draw.go:64-88 | A body of `k` newline-free rows holds `k - 1` newlines, plus one per row rule and one for the bottom rule. |
| Draw.RowWithoutLineV | draw/draw.go:101-108 | Without vertical lines anywhere, a cell line is its padded cells run together. |
| Draw.PlainRowLines | draw/draw.go:90-99 | Without body rules or vertical lines, a body row is a single line of padded cells. |
| Draw.BodyRowsLinesPlain | draw/draw.go:75-82 | Without body rules or vertical lines, the rows from `i` on give one padded-cell line each. |
| Draw.PlainBody | draw/draw.go:64-88 | Without any body rule or vertical line, the body is its rows' padded cells, one row per line. |
| Draw.UndecoratedDraw | draw/draw.go:31-40 | With all six switches off, the output is the padded rows joined by newlines. |
| Tables.NewTable | table.go:74-89 | The defaults: square header style and empty body style, top line and head-only-bottom-line on, bottom line off. |
| Tables.ReadFrom | table.go:30-35 | The streaming constructor uses a trailing space of 1, on top of the defaults. The capacity for a given width `w` is `max(w, 0) + 1`, except that a width equal to the largest `int` wraps to the smallest one. |
| Tables.New | table.go:37-57 | No rows give no table. Otherwise the constructor uses a trailing space of 1 and one capacity per cell of the first row. Every purged cell fits with a space to spare. |
| Tables.NewDraw | table.go:91-112 | Derives the renderer's switches. The header top rule is on exactly when the top-line switch is on, the head style is not horizontally blank and head-only-bottom-line is off. A header top rule implies a header bottom rule. A horizontally blank style switches its section's rules off. An all-blank style switches its vertical lines off. Glyphs and capacities are copied. |
| Tables.BottomLineOnlyAffectsBodyBot | table.go:101-102 | The bottom-line switch changes only the body's final rule. |
| Tables.DefaultDraw | table.go:80-103 | Under the defaults only the header's bottom rule is on. |
| Tables.DefaultLayout | table.go:91-112 | The default layout is the header's padded cells, a rule of `=` as wide as the columns, then one line of padded cells per body row. |
| Tables.IsFirstBodyRow | table.go:137-144 | Row `i` is the first body row exactly when it is row 0 without a header or row 1 with one. |
| Tables.OneFirstBodyRow | table.go:137-144 | Exactly one index is the first body row. |
| Tables.RenderFirstBodyRow | table.go:125-144 | `Render` draws input row `k` at body position `k - 1` with a header and `k` without one. The body loop draws it as a first row exactly when `IsFirstBodyRow` holds for `k`. |
| Tables.Normalised | table.go:127 | Every input row is normalised with `row.New`, and the results fit the renderer's capacities. |
| Tables.ConstructorsLeaveRoom | table.go:30-57 | `New` always gives capacities that leave room for the trailing space. `ReadFrom` does so exactly when no width equals the largest `int`. |
| Tables.RenderAligned | table.go:125-131 | A table built from rows of equal arity renders as newline-joined lines of one common width. A table with a header needs at least one body row, because a header-only table ends in a newline in the model (see `Tables.Render` under Left out). |
| TrimBytes.TrimCellAsWritten | row/row.go:34-48 | The Go cut: the limit is compared with the character count, but the slice is taken in bytes. |
| TrimBytes.AsciiAgrees | row/row.go:34-48 | On ASCII cells the byte cut and the character cut give the same bytes. |
| TrimBytes.CutSplitsCharacter | row/row.go:45-46 | Five `é` cut to 4 give the bytes C3 2E 2E 2E: a lead byte whose continuation byte was cut off. |
| TrimBytes.NotAnEncoding | row/row.go:45-46 | No string encodes to those bytes. |
| TrimBytes.CharacterCutKeepsCharacter | row/row.go:34-48 | The character cut of the same cell keeps one whole `é`: `é...`. |
| Examples.DefaultCaps | table_test.go:12-16 | The default test rows give capacities 15 and 7. |
| Examples.DefaultNormalised | table_test.go:12-16 | Each default test row is normalised to its cells followed by one space. |
| Examples.DefaultTable | table_test.go:11-22 | The default table renders exactly the expected five lines. |
| Examples.CutNormalised | table_test.go:206-215 | Against capacities 3 and 3 the long cells are cut to two characters, then a space. |
| Examples.CutCellTable | table_test.go:206-215 | The streaming constructor with widths 2 and 2 renders exactly `Na Co `, `======`, `Ob 1  `. |
| Examples.UnderflowKeepsCell | row/row.go:26-30 | Against the smallest `int` capacity with one space, `abc` is kept whole as `abc `, because `cap - n` wraps. |
| Examples.TrimTextToMaxLengthTest | row/row_test.go:101-106 | Padding `a` to 2 characters gives exactly `a `, as the test expects. |

## Left out

- CSV: `table.New` encodes the rows as quoted CSV and reads them back through `csv.Reader` (table.go:43-54). `ReadFrom` reads CSV from an `io.Reader`. The model takes the rows as given. The reader's default record-length check is not modelled either.
- Tables.Render: matches the Go batch output only for cells without `\`, `"`, or control and other non-printable characters. The `%q` encoding in `table.New` writes `\n`, `\r`, `\t` and other non-printable characters as escapes of two or more characters, and it doubles `\`. The CSV reader keeps those escapes as cell text. A `"` in a cell makes the reader fail, so `String` panics. `NewColumnCap` measures the raw rows while `row.New` receives the escaped ones. So for such cells, `Rows.NewUnderColumnCap` and the fit clause of `Tables.New` do not carry over to the Go output. For example, rows `["a\nb"]` (with a real line break) and `["c"]` give capacity 3. Go draws `a\ ` and the model draws `ab `. In addition, `table.New` writes each row as one line, so a row with no cells becomes an empty line. `csv.Reader` skips empty lines, so Go drops such a row and `Render` draws it. For example, rows `["a"]`, `[]` and `["b"]` without a header give `a `, a newline and `b ` in Go. The model gives `a `, two newlines and `b `. Finally, a table with a header and no body rows ends in a newline in the model and not in Go. `drawRow` writes a newline only before each record after the first (table.go:128-130), and the model's `Draw.Draw` ends the header block with one. For example, `ReadFrom(true, [2, 2])` with the single row `["11", "22"]` gives `11 22 `, a newline, `======` and a newline in the model. Go stops after `======` (table_test.go:177). `Tables.RenderAligned` requires a body row for a table with a header, so it excludes this case.
- `drawRow`, `WriteTo` and `String` (table.go:59-72, 114-135) are not modelled. They call a renderer API (`Row`, `WriteNewline`, `WriteBottomBodyLine`, byte counts, a latched error) that draw/draw.go does not define. `Tables.Render` composes the functions that draw/draw.go does define.
- Byte output is not modelled. `writeString`/`writeRune` (draw/draw.go:181-190) encode runes as UTF-8 and count bytes, and the model's output is characters. The commented-out `Debug` is left out too.
- Concurrency is not modelled. The streaming test feeds rows through a goroutine.
- The arity-mismatch error value (row/row.go:16) is never returned by the code, so it has no model.
- The tests in row/row_test.go other than `TestTrimTextToMaxLength` call functions that row/row.go does not define, so they have no model. `TestTrimTextToMaxLength` is `Examples.TrimTextToMaxLengthTest`.
- Tables.New: does not state the capacities themselves. `Rows.ColumnCapOf` and its lemmas do.
- Rows.New: the model returns a new row. The Go `New` overwrites the caller's slice in place, and that aliasing is not modelled.
- Glyphs are Dafny characters, which are Unicode scalar values. A Go rune outside that range (a surrogate or a value above U+10FFFF) makes `writeRune` panic. There `utf8.RuneLen` returns -1 and `make([]byte, -1)` fails (draw/draw.go:186-187). A Dafny `char` cannot hold such a value.

## Notes

- The comment at draw/draw.go:78 says the body loop adds a line break on every line except the last. The body can still end in a newline. With no vertical lines anywhere, a row with no cells gives an empty cell line. For example, body rows `["a"]` and `[]` write `a ` and then a newline. `Draw.BodyNewlines` therefore states the exact newline count rather than a claim about the last character.
- The comment at row/row.go:34 says `trimCell` trims a cell that is longer than `max` runes, and the code slices bytes. The model's `Rows.TrimCell` follows the comment. The byte behaviour is recorded under Findings.

## Findings

| source | as written | input that shows it | evidently intended | confidence | as-written member | corrected member |
|---|---|---|---|---|---|---|
| row/row.go:39-46 | `trimCell` compares the limit with `utf8.RuneCountInString` but cuts with `cell[:max]` and `cell[:max-3]`, which index bytes | cell `ééééé` (two bytes per character), limit 4: the result is the bytes C3 2E 2E 2E, a lead byte without its continuation byte, which is not valid UTF-8 | cut after `max - 3` characters: `é...` | not executed | TrimBytes.TrimCellAsWritten | Rows.TrimCell |
