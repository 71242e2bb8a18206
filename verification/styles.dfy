/** Border styles and their presets (style.go). */
module Styles {

  /** Glyphs of one section: `edge` where a rule meets a vertical line, `lineH` for
      horizontal rules, `lineV` for vertical separators, and whether vertical lines
      are drawn at all. */
  datatype Style = Style(edge: char, lineH: char, lineV: char, vLines: bool)

  /** Stores its four arguments unchanged. */
  function NewStyle(edge: char, lineH: char, lineV: char, vLines: bool): (s: Style)
    ensures s.edge == edge && s.lineH == lineH && s.lineV == lineV && s.vLines == vLines
  {
    Style(edge, lineH, lineV, vLines)
  }

  /** All three glyphs are blank. */
  predicate IsAllEmpty(s: Style)
  {
    s.edge == ' ' && s.lineH == ' ' && s.lineV == ' '
  }

  /** The glyphs used by horizontal rules are blank; the vertical glyph does not matter. */
  predicate IsEmptyH(s: Style)
  {
    s.edge == ' ' && s.lineH == ' '
  }

  function StyleSquare(): Style
  {
    NewStyle('#', '=', '|', false)
  }

  function StyleBoring(): Style
  {
    NewStyle('=', '=', '|', false)
  }

  function StyleDot(): Style
  {
    NewStyle('•', '•', '|', true)
  }

  function StyleEmpty(): Style
  {
    NewStyle(' ', ' ', '|', false)
  }

  /** A fully blank style is also horizontally blank, but not the other way round. */
  lemma AllEmptyIsEmptyH(s: Style)
    ensures IsAllEmpty(s) ==> IsEmptyH(s)
    ensures IsEmptyH(s) && s.lineV != ' ' ==> !IsAllEmpty(s)
  {
  }

  /** Horizontal blankness reads only `edge` and `lineH`. */
  lemma EmptyHIgnoresVertical(s: Style, lineV: char, vLines: bool)
    ensures IsEmptyH(s.(lineV := lineV, vLines := vLines)) == IsEmptyH(s)
    ensures IsEmptyH(s) <==> IsEmptyH(NewStyle(s.edge, s.lineH, ' ', false))
  {
  }

  /** The presets' glyphs and flags. */
  lemma Presets()
    ensures StyleSquare() == Style('#', '=', '|', false)
    ensures StyleBoring() == Style('=', '=', '|', false)
    ensures StyleDot() == Style('•', '•', '|', true)
    ensures StyleEmpty() == Style(' ', ' ', '|', false)
  {
  }

  /** The empty preset draws no rules, yet still has a vertical glyph: switching its
      `vLines` on gives `|` separators. The three other presets draw rules. */
  lemma PresetBlankness()
    ensures IsEmptyH(StyleEmpty()) && !IsAllEmpty(StyleEmpty())
    ensures !IsAllEmpty(StyleEmpty().(vLines := true))
    ensures !IsEmptyH(StyleSquare()) && !IsEmptyH(StyleBoring()) && !IsEmptyH(StyleDot())
  {
  }
}
