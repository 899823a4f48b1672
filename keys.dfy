/**
 * Terminal input as the crossterm crate delivers it: key codes, key event
 * kinds and the raw events read from the terminal.
 */
module Keys {

  /** The `KeyCode` variants the program distinguishes, plus the other unit variants. */
  datatype KeyCode =
    | Backspace | Enter | Left | Right | Up | Down | Home | End
    | PageUp | PageDown | Tab | BackTab | Delete | Insert | Null | Esc
    | Char(c: char)

  /** crossterm emits press, repeat and release events (the latter two on Windows). */
  datatype KeyEventKind = Press | Repeat | Release

  /** A key event: its code and its kind (modifiers and state are not modelled). */
  datatype KeyEvent = KeyEvent(code: KeyCode, kind: KeyEventKind)

  /** A raw terminal event as returned by `crossterm::event::read`. */
  datatype TermEvent =
    | Key(key: KeyEvent)
    | FocusGained
    | FocusLost
    | Paste(text: string)
    | Mouse
    | TermResize(columns: nat, rows: nat)
}
