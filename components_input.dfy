/**
 * The Yes/No popup component: a visibility flag and a selected button driven
 * by key codes.
 */
module ComponentsInput {
  import opened Wrappers
  import opened Keys

  datatype Button = Yes | No

  /** The popup's key-driven state: whether it is shown and which button is selected. */
  datatype PopupState = PopupState(visible: bool, selected: Option<Button>)

  /**
   * The effect of `handle_key(code)`: Left selects Yes and Right selects No,
   * leaving visibility alone; Enter hides the popup when a button is selected;
   * Esc hides it, `p` shows it, and every other key changes nothing.
   */
  function KeyEffect(s: PopupState, code: KeyCode): (t: PopupState)
    ensures code == Left ==> t == PopupState(s.visible, Some(Yes))
    ensures code == Right ==> t == PopupState(s.visible, Some(No))
    ensures code == Enter ==> t == if s.selected.Some? then s.(visible := false) else s
    ensures code == Esc ==> t == s.(visible := false)
    ensures code == Char('p') ==> t == s.(visible := true)
    ensures code !in {Left, Right, Enter, Esc, Char('p')} ==> t == s
    ensures s.selected.Some? ==> t.selected.Some?
  {
    match code
    case Left => s.(selected := Some(Yes))
    case Right => s.(selected := Some(No))
    case Enter => if s.selected.Some? then s.(visible := false) else s
    case Esc => s.(visible := false)
    case Char(c) => if c == 'p' then s.(visible := true) else s
    case _ => s
  }

  /** Replays a sequence of key codes. */
  function KeysEffect(s: PopupState, codes: seq<KeyCode>): PopupState
    decreases |codes|
  {
    if codes == [] then s else KeysEffect(KeyEffect(s, codes[0]), codes[1..])
  }

  /** Once a button is selected, no sequence of keys can unselect it. */
  lemma {:induction false} SelectionPersists(s: PopupState, codes: seq<KeyCode>)
    requires s.selected.Some?
    ensures KeysEffect(s, codes).selected.Some?
    decreases |codes|
  {
    if codes != [] {
      SelectionPersists(KeyEffect(s, codes[0]), codes[1..]);
    }
  }

  /** Choosing a button with Left or Right and confirming with Enter always closes the popup. */
  lemma ChooseThenConfirmHides(s: PopupState, arrow: KeyCode)
    requires arrow == Left || arrow == Right
    ensures !KeysEffect(s, [arrow, Enter]).visible
    ensures KeysEffect(s, [arrow, Enter]).selected == Some(if arrow == Left then Yes else No)
  {
    var chosen := KeyEffect(s, arrow);
    assert [arrow, Enter][1..] == [Enter] && [Enter][1..] == [];
    assert KeysEffect(s, [arrow, Enter]) == KeysEffect(chosen, [Enter]);
    assert KeysEffect(chosen, [Enter]) == KeyEffect(chosen, Enter);
  }

  class Input {
    var title: string
    var input: string
    var selectedButton: Option<Button>
    var visible: bool

    /** `new` only ever selects a button and later code only assigns `Some(_)`. */
    ghost predicate Valid()
      reads this
    {
      selectedButton.Some?
    }

    function State(): PopupState
      reads this
    {
      PopupState(visible, selectedButton)
    }

    constructor (title: string)
      ensures Valid()
      ensures this.title == title && input == "" && !visible && selectedButton == Some(Yes)
    {
      this.title := title;
      input := "";
      visible := false;
      selectedButton := Some(Yes);
    }

    method HandleKey(key: KeyCode)
      requires Valid()
      modifies this
      ensures Valid()
      ensures State() == KeyEffect(old(State()), key)
      ensures title == old(title) && input == old(input)
    {
      match key {
        case Left => selectedButton := Some(Yes);
        case Right => selectedButton := Some(No);
        case Enter =>
          match selectedButton {
            case Some(Yes) => Hide();
            case Some(No) => Hide();
            case None =>
          }
        case Esc => Hide();
        case Char(c) =>
          if c == 'p' {
            Show();
          }
        case _ =>
      }
    }

    /** Sets the flag whatever it was, so showing twice is showing once. */
    method Show()
      modifies this
      ensures visible
      ensures title == old(title) && input == old(input) && selectedButton == old(selectedButton)
    {
      visible := true;
    }

    /** Clears the flag whatever it was, so hiding twice is hiding once. */
    method Hide()
      modifies this
      ensures !visible
      ensures title == old(title) && input == old(input) && selectedButton == old(selectedButton)
    {
      visible := false;
    }
  }
}
