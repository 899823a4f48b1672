/**
 * The installer's terminal colouring: a colour code and a style code from
 * two fixed tables, then the text, then the codes that switch bold, italic
 * and the colour back off.
 *
 * `Color` returns the format string it hands to `fmt.Sprintf`; the
 * substitution of the arguments is not modelled.
 */
module Colors {

  const ResetItalic: string := "\U{1b}[23m"
  const ResetBold: string := "\U{1b}[22m"
  const ColorDefault: string := "\U{1b}[39m"

  /** The three reset codes, in the order they are appended. */
  const Resets: string := ResetBold + ResetItalic + ColorDefault

  const ColorCodes: map<string, string> := map[
    "red" := "\U{1b}[91m",
    "green" := "\U{1b}[32m",
    "blue" := "\U{1b}[94m",
    "grey" := "\U{1b}[90m"
  ]

  const StyleCodes: map<string, string> := map[
    "bold" := "\U{1b}[1m",
    "italic" := "\U{1b}[3m"
  ]

  /** The colour's code, or nothing for a colour the table does not name. */
  function ColorCode(color: string): (code: string)
    ensures color !in ColorCodes ==> code == ""
    ensures color in ColorCodes ==> code == ColorCodes[color]
  {
    if color in ColorCodes then ColorCodes[color] else ""
  }

  /** The style's code, or nothing for a style the table does not name. */
  function StyleCode(style: string): (code: string)
    ensures style !in StyleCodes ==> code == ""
    ensures style in StyleCodes ==> code == StyleCodes[style]
  {
    if style in StyleCodes then StyleCodes[style] else ""
  }

  /** `Color`: the format string for `text` in the given colour and style. */
  function Color(color: string, style: string, text: string): (s: string)
  {
    ColorCode(color) + StyleCode(style) + text + Resets
  }

  /** Every colour code is five characters long, and different colours have different codes. */
  lemma ColorCodesDistinct(c1: string, c2: string)
    requires c1 in ColorCodes && c2 in ColorCodes && c1 != c2
    ensures |ColorCodes[c1]| == |ColorCodes[c2]| == 5
    ensures ColorCodes[c1] != ColorCodes[c2]
  {
  }

  /** Every style code is four characters long, and the two styles have different codes. */
  lemma StyleCodesDistinct(s1: string, s2: string)
    requires s1 in StyleCodes && s2 in StyleCodes && s1 != s2
    ensures |StyleCodes[s1]| == |StyleCodes[s2]| == 4
    ensures StyleCodes[s1] != StyleCodes[s2]
  {
  }

  /**
   * The colour code comes first, the style code second, and the result
   * always ends with the three resets in their fixed order.
   */
  lemma ColorLayout(color: string, style: string, text: string)
    ensures var s := Color(color, style, text);
      var c, st := ColorCode(color), StyleCode(style);
      && |s| == |c| + |st| + |text| + 15
      && s[..|c|] == c
      && s[|c|..|c| + |st|] == st
      && s[|c| + |st|..|s| - 15] == text
      && s[|s| - 15..] == ResetBold + ResetItalic + ColorDefault
  {
    assert |Resets| == 15 && Resets == ResetBold + ResetItalic + ColorDefault;
    ConcatLayout(ColorCode(color), StyleCode(style), text, Resets);
  }

  /** The four parts of a concatenation can be cut back out of it. */
  lemma ConcatLayout(a: string, b: string, c: string, d: string)
    ensures var s := a + b + c + d;
      && |s| == |a| + |b| + |c| + |d|
      && s[..|a|] == a
      && s[|a|..|a| + |b|] == b
      && s[|a| + |b|..|s| - |d|] == c
      && s[|s| - |d|..] == d
  {
    var s := a + b + c + d;
    assert s == a + (b + (c + d));
    assert s[|a|..] == b + (c + d);
    assert s[|a| + |b|..] == c + d;
    assert s[|a| + |b| + |c|..] == d;
  }

  /** The text can be read back from the format string once the colour and style are known. */
  lemma ColorTextRoundTrip(color: string, style: string, t1: string, t2: string)
    requires Color(color, style, t1) == Color(color, style, t2)
    ensures t1 == t2
  {
    ColorLayout(color, style, t1);
    ColorLayout(color, style, t2);
  }

  /** A colour or style outside the tables contributes nothing: it is the same as giving none. */
  lemma UnknownNamesContributeNothing(color: string, style: string, text: string)
    requires color !in ColorCodes && style !in StyleCodes
    ensures Color(color, style, text) == text + ResetBold + ResetItalic + ColorDefault
  {
    assert "" + "" + text == text;
  }

  /** Two different named colours give different results for the same style and text. */
  lemma DifferentColorsDiffer(c1: string, c2: string, style: string, text: string)
    requires c1 in ColorCodes && c2 in ColorCodes && c1 != c2
    ensures Color(c1, style, text) != Color(c2, style, text)
  {
    ColorCodesDistinct(c1, c2);
    ColorLayout(c1, style, text);
    ColorLayout(c2, style, text);
  }
}
