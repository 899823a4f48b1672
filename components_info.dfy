/**
 * The info component: a titled message log that only grows, drawn scrolled so
 * that its last lines stay visible.
 */
module ComponentsInfo {
  import opened Action

  /** `s.matches('\n').count()` */
  function NewlineCount(s: string): nat
    decreases |s|
  {
    if s == [] then 0 else (if s[0] == '\n' then 1 else 0) + NewlineCount(s[1..])
  }

  /** Counting newlines distributes over concatenation. */
  lemma {:induction false} NewlineCountConcat(a: string, b: string)
    ensures NewlineCount(a + b) == NewlineCount(a) + NewlineCount(b)
    decreases |a|
  {
    if a != [] {
      assert (a + b)[1..] == a[1..] + b;
      NewlineCountConcat(a[1..], b);
    } else {
      assert a + b == b;
    }
  }

  /** One `update_content(m)` adds the newlines of `m` plus the one it terminates `m` with. */
  lemma UpdateContentCount(content: string, m: string)
    ensures NewlineCount(content + m + "\n") == NewlineCount(content) + NewlineCount(m) + 1
  {
    NewlineCountConcat(content + m, "\n");
    NewlineCountConcat(content, m);
  }

  /**
   * The scroll offset computed in `draw`: the newline count minus the area
   * height, saturating at zero, so that the last `height` lines are shown.
   */
  function ScrollOffset(content: string, height: U16): (r: nat)
    ensures r <= NewlineCount(content)
    ensures r == 0 <==> NewlineCount(content) <= height as int
    ensures r > 0 ==> r + height as int == NewlineCount(content)
  {
    var lines := NewlineCount(content);
    if lines <= height as int then 0 else lines - height as int
  }

  /** `scroll_offset as u16`: the offset handed to the paragraph keeps only its low 16 bits. */
  function ScrollRow(content: string, height: U16): (r: U16)
    ensures r as int == ScrollOffset(content, height) % 0x1_0000
    ensures ScrollOffset(content, height) < 0x1_0000 ==> r as int == ScrollOffset(content, height)
  {
    (ScrollOffset(content, height) % 0x1_0000) as U16
  }

  class Info {
    var title: string
    var content: string

    constructor (title: string)
      ensures this.title == title && content == ""
    {
      this.title := title;
      content := "";
    }

    /** `push_str(m)` then `push('\n')`: the log only grows, at its end. */
    method UpdateContent(m: string)
      modifies this
      ensures content == old(content) + m + "\n"
      ensures title == old(title)
      ensures NewlineCount(content) == NewlineCount(old(content)) + NewlineCount(m) + 1
    {
      UpdateContentCount(content, m);
      content := content + m + "\n";
    }
  }
}
