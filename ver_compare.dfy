/**
 * The nightly updater's version check. The current version is the second
 * whitespace-separated word of the first line `nvim --version` prints; the
 * new version is the whole first line of the scraped release line. Equal
 * versions mean there is nothing to install.
 *
 * The program's own output is a parameter here: running `nvim` and decoding
 * its bytes as UTF-8 are not modelled.
 */
module VerCompare {
  import opened Wrappers

  // ---------------------------------------------------------------------------
  // Lines

  /** The index of the first line feed in `s`, or `|s|` if there is none. */
  function LineEnd(s: string): (i: nat)
    ensures i <= |s|
    ensures forall j :: 0 <= j < i ==> s[j] != '\n'
    ensures i < |s| ==> s[i] == '\n'
    decreases |s|
  {
    if s == [] then 0
    else if s[0] == '\n' then 0
    else 1 + LineEnd(s[1..])
  }

  /** A line ended by "\r\n" loses its carriage return too. */
  function StripCr(line: string): string
  {
    if |line| > 0 && line[|line| - 1] == '\r' then line[..|line| - 1] else line
  }

  /**
   * `lines().next()`: nothing for the empty string; otherwise the text up to
   * the first line feed (without a carriage return just before it), or the
   * whole string when there is no line feed.
   */
  function FirstLine(s: string): (r: Option<string>)
  {
    if s == [] then None
    else
      var i := LineEnd(s);
      if i < |s| then Some(StripCr(s[..i])) else Some(s)
  }

  /** Whatever follows the first line feed has no effect on the first line. */
  lemma FirstLineOfTerminated(line: string, rest: string)
    requires '\n' !in line
    ensures FirstLine(line + "\n" + rest) == Some(StripCr(line))
  {
    var s := line + "\n" + rest;
    assert s[|line|] == '\n';
    assert s[..|line|] == line;
  }

  // ---------------------------------------------------------------------------
  // Words

  /** The characters with the Unicode White_Space property, which `split_whitespace` splits on. */
  predicate IsWhitespace(c: char)
  {
    ('\t' <= c <= '\r') || c == ' ' || c == '\U{85}' || c == '\U{A0}' || c == '\U{1680}'
    || ('\U{2000}' <= c <= '\U{200A}') || c == '\U{2028}' || c == '\U{2029}' || c == '\U{202F}'
    || c == '\U{205F}' || c == '\U{3000}'
  }

  /** The word being read so far, if any, as a list of at most one word. */
  function Flush(word: string): seq<string>
  {
    if word == [] then [] else [word]
  }

  /** A word of `split_whitespace`: non-empty and without whitespace. */
  predicate IsWord(w: string)
  {
    w != [] && forall c :: c in w ==> !IsWhitespace(c)
  }

  /** `split_whitespace` continued over `s` with `word` already read: the maximal runs of non-whitespace. */
  function WordsFrom(s: string, word: string): (ws: seq<string>)
    requires word == [] || IsWord(word)
    ensures forall k :: 0 <= k < |ws| ==> IsWord(ws[k])
    decreases |s|
  {
    if s == [] then Flush(word)
    else if IsWhitespace(s[0]) then Flush(word) + WordsFrom(s[1..], [])
    else WordsFrom(s[1..], word + [s[0]])
  }

  function Words(s: string): (ws: seq<string>)
    ensures forall k :: 0 <= k < |ws| ==> IsWord(ws[k])
  {
    WordsFrom(s, [])
  }

  /** A whitespace character separates: the words of the two sides, one after the other. */
  lemma {:induction false} WordsFromSplit(a: string, w: char, b: string, word: string)
    requires IsWhitespace(w)
    requires word == [] || IsWord(word)
    ensures WordsFrom(a + [w] + b, word) == WordsFrom(a, word) + WordsFrom(b, [])
    decreases |a|
  {
    if a == [] {
      assert a + [w] + b == [w] + b;
      assert ([w] + b)[1..] == b;
    } else {
      var s := a + [w] + b;
      assert s[0] == a[0] && s[1..] == a[1..] + [w] + b;
      if IsWhitespace(a[0]) {
        WordsFromSplit(a[1..], w, b, []);
      } else {
        WordsFromSplit(a[1..], w, b, word + [a[0]]);
      }
    }
  }

  /** A word on its own is its only word. */
  lemma {:induction false} WordsOfWord(w: string, word: string)
    requires word == [] || IsWord(word)
    requires forall c :: c in w ==> !IsWhitespace(c)
    requires word + w != []
    ensures WordsFrom(w, word) == [word + w]
    decreases |w|
  {
    if w == [] {
      assert word + w == word;
    } else {
      assert w[0] in w;
      assert forall c :: c in w[1..] ==> c in w;
      assert word + [w[0]] + w[1..] == word + w;
      WordsOfWord(w[1..], word + [w[0]]);
    }
  }

  lemma WordsOfTwo(a: string, sep: char, v: string)
    requires IsWord(a) && IsWord(v) && IsWhitespace(sep)
    ensures Words(a + [sep] + v) == [a, v]
  {
    WordsFromSplit(a, sep, v, []);
    WordsOfWord(a, []);
    WordsOfWord(v, []);
    assert [] + a == a && [] + v == v;
  }

  // ---------------------------------------------------------------------------
  // The check

  const NoCurrentLine: string := "Failed to get current Neovim version"
  const NoCurrentVersion: string := "Failed to parse current Neovim version"
  const NoNewVersion: string := "problem1"
  const UpToDate: string := "Already up to date"

  /**
   * `check_neovim_version`, given what `nvim --version` printed: the first
   * failing step's message, or success when the two versions differ.
   */
  function CheckNeovimVersion(versionOutput: string, newVersionLine: string): (r: Result<(), string>)
    ensures r == Err(NoCurrentLine) <==> versionOutput == []
    ensures r == Err(NoCurrentVersion) <==>
      FirstLine(versionOutput).Some? && |Words(FirstLine(versionOutput).value)| < 2
    ensures r == Err(NoNewVersion) <==>
      FirstLine(versionOutput).Some? && |Words(FirstLine(versionOutput).value)| >= 2 && newVersionLine == []
    ensures r == Err(UpToDate) <==>
      FirstLine(versionOutput).Some? && |Words(FirstLine(versionOutput).value)| >= 2 &&
      FirstLine(newVersionLine) == Some(Words(FirstLine(versionOutput).value)[1])
    ensures r == Ok(()) <==>
      FirstLine(versionOutput).Some? && |Words(FirstLine(versionOutput).value)| >= 2 &&
      FirstLine(newVersionLine).Some? &&
      Words(FirstLine(versionOutput).value)[1] != FirstLine(newVersionLine).value
  {
    match FirstLine(versionOutput)
    case None => Err(NoCurrentLine)
    case Some(currentLine) =>
      var words := Words(currentLine);
      if |words| < 2 then Err(NoCurrentVersion)
      else
        match FirstLine(newVersionLine)
        case None => Err(NoNewVersion)
        case Some(newVersion) =>
          if words[1] == newVersion then Err(UpToDate) else Ok(())
  }

  /** Only the first line of each input matters: what follows it never changes the result. */
  lemma OnlyFirstLinesMatter(current: string, rest1: string, rest2: string,
                             newVersion: string, rest3: string, rest4: string)
    requires '\n' !in current && '\n' !in newVersion
    ensures CheckNeovimVersion(current + "\n" + rest1, newVersion + "\n" + rest3) ==
            CheckNeovimVersion(current + "\n" + rest2, newVersion + "\n" + rest4)
  {
    FirstLineOfTerminated(current, rest1);
    FirstLineOfTerminated(current, rest2);
    FirstLineOfTerminated(newVersion, rest3);
    FirstLineOfTerminated(newVersion, rest4);
  }

  /**
   * On a banner line "NVIM <version>" followed by more output, the answer is
   * "up to date" exactly when the new release line's first line is that
   * version, and success otherwise.
   */
  lemma BannerComparison(program: string, version: string, rest: string, newVersion: string, rest2: string)
    requires IsWord(program) && IsWord(version) && '\n' !in newVersion
    ensures CheckNeovimVersion(program + " " + version + "\n" + rest, newVersion + "\n" + rest2) ==
      if StripCr(newVersion) == version then Err(UpToDate) else Ok(())
  {
    var line := program + " " + version;
    assert forall c :: c in line ==> c in program || c == ' ' || c in version;
    assert '\n' !in line;
    FirstLineOfTerminated(line, rest);
    FirstLineOfTerminated(newVersion, rest2);
    WordsOfTwo(program, ' ', version);
    assert line[|line| - 1] == version[|version| - 1];
    assert version[|version| - 1] in version;
    assert StripCr(line) == line;
  }

  /** A release line with a space in its first line is never "up to date": a word has no spaces. */
  lemma SpacedReleaseLineNeverMatches(versionOutput: string, newVersionLine: string)
    requires FirstLine(newVersionLine).Some? && ' ' in FirstLine(newVersionLine).value
    ensures CheckNeovimVersion(versionOutput, newVersionLine) != Err(UpToDate)
  {
    match FirstLine(versionOutput)
    case None =>
    case Some(currentLine) =>
      var words := Words(currentLine);
      if |words| >= 2 {
        assert IsWord(words[1]);
      }
  }
}
