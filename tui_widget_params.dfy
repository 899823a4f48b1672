/**
 * The parameters the older front end draws a bordered paragraph with, and
 * the builder that produces them: `New` gives the defaults and each `With`
 * step replaces exactly one field of a copy.
 */
module TuiWidgetParams {
  import opened Wrappers

  datatype Alignment = Left | Center | Right

  /** One side of a block's border; a `Borders` value is the set of sides drawn. */
  datatype BorderSide = Top | RightSide | Bottom | LeftSide

  type Borders = set<BorderSide>

  const AllBorders: Borders := {Top, RightSide, Bottom, LeftSide}

  /** The terminal colours the front end names, plus the indexed and true-colour forms. */
  datatype Color =
    | Reset | Black | Red | Green | Yellow | Blue | Magenta | Cyan | Gray | DarkGray
    | LightRed | LightGreen | LightYellow | LightBlue | LightMagenta | LightCyan | White
    | Rgb(r: bv8, g: bv8, b: bv8) | Indexed(i: bv8)

  /** One text modifier; a `Modifier` value is the set applied. */
  datatype ModifierFlag = Bold | Dim | Italic | Underlined | SlowBlink | RapidBlink | Reversed | Hidden | CrossedOut

  type Modifier = set<ModifierFlag>

  datatype WidgetParams = WidgetParams(
    text: string,
    alignment: Alignment,
    borders: Borders,
    title: Option<string>,
    color: Color,
    modifier: Modifier)

  /** `WidgetParams::new`: the text, left-aligned, every border, no title, white, no modifier. */
  function New(text: string): (p: WidgetParams)
    ensures p.text == text && p.alignment == Left && p.borders == AllBorders
    ensures p.title == None && p.color == White && p.modifier == {}
  {
    WidgetParams(text, Left, AllBorders, None, White, {})
  }

  /** Only the alignment changes. */
  function WithAlignment(p: WidgetParams, alignment: Alignment): (q: WidgetParams)
    ensures q.alignment == alignment
    ensures q.text == p.text && q.borders == p.borders && q.title == p.title
    ensures q.color == p.color && q.modifier == p.modifier
  {
    p.(alignment := alignment)
  }

  /** Only the borders change. */
  function WithBorders(p: WidgetParams, borders: Borders): (q: WidgetParams)
    ensures q.borders == borders
    ensures q.text == p.text && q.alignment == p.alignment && q.title == p.title
    ensures q.color == p.color && q.modifier == p.modifier
  {
    p.(borders := borders)
  }

  /** The title becomes present with the given text; nothing else changes. */
  function WithTitle(p: WidgetParams, title: string): (q: WidgetParams)
    ensures q.title == Some(title)
    ensures q.text == p.text && q.alignment == p.alignment && q.borders == p.borders
    ensures q.color == p.color && q.modifier == p.modifier
  {
    p.(title := Some(title))
  }

  /** Only the colour changes. */
  function WithColor(p: WidgetParams, color: Color): (q: WidgetParams)
    ensures q.color == color
    ensures q.text == p.text && q.alignment == p.alignment && q.borders == p.borders
    ensures q.title == p.title && q.modifier == p.modifier
  {
    p.(color := color)
  }

  /** Only the modifier changes. */
  function WithModifier(p: WidgetParams, modifier: Modifier): (q: WidgetParams)
    ensures q.modifier == modifier
    ensures q.text == p.text && q.alignment == p.alignment && q.borders == p.borders
    ensures q.title == p.title && q.color == p.color
  {
    p.(modifier := modifier)
  }

  /** The footer pane's parameters: the quit hint, centred, grey, titled "Footer", every border. */
  lemma FooterParams()
    ensures var p := WithAlignment(WithColor(WithTitle(New("Press 'q' or 'esc' to quit."), "Footer"), Gray), Center);
      p == WidgetParams("Press 'q' or 'esc' to quit.", Center, AllBorders, Some("Footer"), Gray, {})
  {
  }

  /**
   * The additional-info pane re-applies the default borders, colour and
   * alignment, so its parameters differ from the defaults by the title alone.
   */
  lemma InfoParams(text: string)
    ensures WithAlignment(WithColor(WithTitle(WithBorders(New(text), AllBorders), "Additional Info"), White), Left)
      == WithTitle(New(text), "Additional Info")
  {
  }

  /** The main area's content parameters: the defaults with the title "Content" (white is the default colour). */
  lemma ContentParams()
    ensures WithColor(WithTitle(New("Here is the main content of the application"), "Content"), White)
      == WithTitle(New("Here is the main content of the application"), "Content")
  {
  }

  /** The header pane's parameters: centred yellow "NEVIRAIDE" titled "Main Header", every border. */
  lemma HeaderParams()
    ensures var p := WithAlignment(WithColor(WithTitle(New("NEVIRAIDE"), "Main Header"), Yellow), Center);
      p == WidgetParams("NEVIRAIDE", Center, AllBorders, Some("Main Header"), Yellow, {})
  {
  }
}
