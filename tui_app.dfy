/**
 * The older front end's application: a background task turns key presses
 * into actions on a channel, and the main loop moves the wrapping menu,
 * performs the selected menu action and stops after a quit.
 *
 * The loop's behaviour is given first over a `State` value; the `App` class
 * then runs it in place and is proved to agree.
 */
module TuiApp {
  import opened Wrappers
  import K = Keys
  import M = TuiMenu
  import U = TuiUi

  /** The actions the key handler sends to the main loop. */
  datatype TuiAction = Select | Next | Previous | Quit

  /** The key handler's table: j, n and Down go down; k, p and Up go up; Enter selects; q and Esc quit. */
  function KeyToAction(code: K.KeyCode): (r: Option<TuiAction>)
    ensures r == Some(Next) <==> code in {K.Char('j'), K.Char('n'), K.Down}
    ensures r == Some(Previous) <==> code in {K.Char('k'), K.Char('p'), K.Up}
    ensures r == Some(Select) <==> code == K.Enter
    ensures r == Some(Quit) <==> code in {K.Char('q'), K.Esc}
  {
    match code
    case Char(c) =>
      if c == 'j' || c == 'n' then Some(Next)
      else if c == 'k' || c == 'p' then Some(Previous)
      else if c == 'q' then Some(Quit)
      else None
    case Down => Some(Next)
    case Up => Some(Previous)
    case Enter => Some(Select)
    case Esc => Some(Quit)
    case _ => None
  }

  /** What one polled event sends: a key event of any kind goes through the table; anything else sends nothing. */
  function EventAction(e: K.TermEvent): (r: Option<TuiAction>)
    ensures !e.Key? ==> r == None
    ensures e.Key? ==> r == KeyToAction(e.key.code)
  {
    if e.Key? then KeyToAction(e.key.code) else None
  }

  /** What one poll sends: nothing when it found no readable event, otherwise what its event sends. */
  function SentOn(poll: Option<K.TermEvent>): (sent: seq<TuiAction>)
    ensures |sent| <= 1
    ensures sent != [] ==> poll.Some? && poll.value.Key? && KeyToAction(poll.value.key.code) == Some(sent[0])
  {
    if poll.Some? && EventAction(poll.value).Some? then [EventAction(poll.value).value] else []
  }

  /** Everything sent for a run of polls, in poll order, where `None` is a poll that found no readable event. */
  function SentFor(polls: seq<Option<K.TermEvent>>): (sent: seq<TuiAction>)
    ensures |sent| <= |polls|
    decreases |polls|
  {
    if polls == [] then []
    else SentFor(polls[..|polls| - 1]) + SentOn(polls[|polls| - 1])
  }

  /** An action is only ever sent for a key event whose code the table binds to it. */
  lemma {:induction false} SentComesFromKeys(polls: seq<Option<K.TermEvent>>, a: TuiAction)
    requires a in SentFor(polls)
    ensures exists i :: 0 <= i < |polls| && polls[i].Some? && polls[i].value.Key? &&
                        KeyToAction(polls[i].value.key.code) == Some(a)
    decreases |polls|
  {
    var last := |polls| - 1;
    var init := polls[..last];
    if a in SentOn(polls[last]) {
      assert polls[last].Some? && polls[last].value.Key?;
    } else {
      SentComesFromKeys(init, a);
      var i :| 0 <= i < |init| && init[i].Some? && init[i].value.Key? &&
               KeyToAction(init[i].value.key.code) == Some(a);
      assert polls[i] == init[i];
    }
  }

  /** `event_handler` over a finite run of polls: returns what it sent on the channel, in order. */
  method EventHandler(polls: seq<Option<K.TermEvent>>) returns (sent: seq<TuiAction>)
    ensures sent == SentFor(polls)
  {
    sent := [];
    for i := 0 to |polls|
      invariant sent == SentFor(polls[..i])
    {
      assert polls[..i + 1][..i] == polls[..i];
      if polls[i].Some? {
        var r := EventAction(polls[i].value);
        if r.Some? {
          sent := sent + [r.value];
        }
      }
    }
    assert polls[..|polls|] == polls;
  }

  const InstallMessage: string := "установка обновлений Neovim..."
  const CheckUpdatesMessage: string := "Проверка доступных обновлений..."
  const CheckDepsMessage: string := "Check dependencies..."
  const InitialMessage: string := "Initial update message"

  /** The state the main loop reads and writes: the menu selection, the UI's message and the quit flag. */
  datatype State = State(selected: Option<nat>, message: string, showMessage: bool, shouldQuit: bool)

  /** The selection stays in range of the four menu entries. */
  predicate Wf(st: State)
  {
    st.selected.Some? && st.selected.value < |M.GetMenuItems()|
  }

  /** `handle_action`: the three non-quit menu actions put a fixed message on display; `Quit` sets the flag. */
  function HandleActionSpec(st: State, a: M.MenuAction): (t: State)
    ensures t.selected == st.selected
    ensures t.shouldQuit == (st.shouldQuit || a == M.Quit)
    ensures a == M.Quit ==> t.message == st.message && t.showMessage == st.showMessage
    ensures a != M.Quit ==> t.showMessage
    ensures a == M.InstallNeovimNightly ==> t.message == InstallMessage
    ensures a == M.CheckForUpdates ==> t.message == CheckUpdatesMessage
    ensures a == M.CheckDependencies ==> t.message == CheckDepsMessage
  {
    match a
    case InstallNeovimNightly => st.(message := InstallMessage, showMessage := true)
    case CheckForUpdates => st.(message := CheckUpdatesMessage, showMessage := true)
    case CheckDependencies => st.(message := CheckDepsMessage, showMessage := true)
    case Quit => st.(shouldQuit := true)
  }

  /**
   * One received value: `Next`/`Previous` move the menu and nothing else,
   * `Select` performs the selected entry's action, `Quit` sets the flag, and
   * a closed channel (`None`) changes nothing.
   */
  function Step(st: State, a: Option<TuiAction>): (t: State)
    requires Wf(st)
    ensures Wf(t)
    ensures a.None? ==> t == st
    ensures a == Some(Next) ==> t == st.(selected := Some(M.NextIndex(st.selected, 4)))
    ensures a == Some(Previous) ==> t == st.(selected := Some(M.PrevIndex(st.selected, 4)))
    ensures a == Some(Select) ==> t == HandleActionSpec(st, M.GetMenuItems()[st.selected.value].action)
    ensures t.shouldQuit <==> st.shouldQuit || a == Some(Quit) ||
                              (a == Some(Select) && st.selected == Some(3))
  {
    var items := M.GetMenuItems();
    match a
    case None => st
    case Some(Select) => HandleActionSpec(st, items[st.selected.UnwrapOr(0)].action)
    case Some(Next) => st.(selected := Some(M.NextIndex(st.selected, |items|)))
    case Some(Previous) => st.(selected := Some(M.PrevIndex(st.selected, |items|)))
    case Some(Quit) => st.(shouldQuit := true)
  }

  /** The received values applied one after another, with no stopping. */
  function Replay(st: State, inputs: seq<Option<TuiAction>>): (t: State)
    requires Wf(st)
    ensures Wf(t)
    decreases |inputs|
  {
    if inputs == [] then st else Replay(Step(st, inputs[0]), inputs[1..])
  }

  /**
   * `run` over a finite run of received values: each pass handles one value
   * and then leaves the loop if the quit flag is set. Returns the final state
   * and the number of values consumed.
   */
  function RunSpec(st: State, inputs: seq<Option<TuiAction>>): (r: (State, nat))
    requires Wf(st)
    ensures Wf(r.0)
    ensures r.1 <= |inputs|
    ensures r.1 < |inputs| ==> r.0.shouldQuit
    ensures inputs != [] ==> r.1 > 0
    decreases |inputs|
  {
    if inputs == [] then (st, 0)
    else
      var t := Step(st, inputs[0]);
      if t.shouldQuit then (t, 1)
      else
        var rest := RunSpec(t, inputs[1..]);
        (rest.0, rest.1 + 1)
  }

  /**
   * The loop stops right after the first value that sets the quit flag: the
   * state it ends in is the replay of the values it consumed, and no shorter
   * replay had set the flag.
   */
  lemma {:induction false} RunStopsAtFirstQuit(st: State, inputs: seq<Option<TuiAction>>)
    requires Wf(st)
    ensures var r := RunSpec(st, inputs);
      && r.0 == Replay(st, inputs[..r.1])
      && forall k :: 0 < k < r.1 ==> !Replay(st, inputs[..k]).shouldQuit
    decreases |inputs|
  {
    if inputs != [] {
      var t := Step(st, inputs[0]);
      var r := RunSpec(st, inputs);
      assert Replay(st, inputs[..1]) == Replay(t, []) by {
        assert inputs[..1][1..] == [];
      }
      if !t.shouldQuit {
        RunStopsAtFirstQuit(t, inputs[1..]);
        var rr := RunSpec(t, inputs[1..]);
        assert inputs[..r.1][1..] == inputs[1..][..rr.1];
        forall k | 0 < k < r.1
          ensures !Replay(st, inputs[..k]).shouldQuit
        {
          assert inputs[..k][1..] == inputs[1..][..k - 1];
        }
      }
    }
  }

  /** The main loop never runs past a `Quit`: it consumes at most up to the first one. */
  lemma QuitIsLastConsumed(st: State, inputs: seq<Option<TuiAction>>, j: nat)
    requires Wf(st) && j < |inputs| && inputs[j] == Some(Quit)
    ensures RunSpec(st, inputs).1 <= j + 1
    decreases j
  {
    if j > 0 {
      var t := Step(st, inputs[0]);
      if !t.shouldQuit {
        assert inputs[1..][j - 1] == inputs[j];
        QuitIsLastConsumed(t, inputs[1..], j - 1);
      }
    }
  }

  class App {
    const menu: M.Menu
    const ui: U.UI
    var shouldQuit: bool

    ghost predicate Valid()
      reads this, menu
    {
      menu.Valid() && menu.items == M.GetMenuItems()
    }

    function Current(): State
      reads this, menu, ui
    {
      State(menu.selected, ui.updateMessage, ui.showUpdateMessage, shouldQuit)
    }

    /** `App::new`: the standard menu with its first entry selected, the initial message hidden, not quitting. */
    constructor ()
      ensures Valid() && fresh(menu) && fresh(ui)
      ensures Current() == State(Some(0), InitialMessage, false, false)
    {
      menu := new M.Menu(M.GetMenuItems());
      ui := new U.UI(InitialMessage);
      shouldQuit := false;
    }

    /** `handle_action` for a menu action. */
    method HandleAction(a: M.MenuAction)
      requires Valid()
      modifies this, ui
      ensures Valid()
      ensures Current() == HandleActionSpec(old(Current()), a)
    {
      match a {
        case InstallNeovimNightly => ui.SetUpdateMessage(InstallMessage);
        case CheckForUpdates => ui.SetUpdateMessage(CheckUpdatesMessage);
        case CheckDependencies => ui.SetUpdateMessage(CheckDepsMessage);
        case Quit => shouldQuit := true;
      }
    }

    /** The match on one received value. */
    method Receive(a: Option<TuiAction>)
      requires Valid()
      modifies this, menu, ui
      ensures Valid()
      ensures Current() == Step(old(Current()), a)
    {
      match a {
        case None =>
        case Some(Select) =>
          var selected := menu.Select();
          HandleAction(selected);
        case Some(Next) => menu.Next();
        case Some(Previous) => menu.Previous();
        case Some(Quit) => shouldQuit := true;
      }
    }

    /** `run` over a finite run of received values; returns how many it consumed. */
    method Run(inputs: seq<Option<TuiAction>>) returns (consumed: nat)
      requires Valid()
      modifies this, menu, ui
      ensures Valid()
      ensures (Current(), consumed) == RunSpec(old(Current()), inputs)
    {
      ghost var result := RunSpec(Current(), inputs);
      consumed := 0;
      while consumed < |inputs|
        invariant Valid()
        invariant consumed <= |inputs|
        invariant RunSpec(Current(), inputs[consumed..]).0 == result.0
        invariant consumed + RunSpec(Current(), inputs[consumed..]).1 == result.1
        decreases |inputs| - consumed
      {
        ghost var rest := inputs[consumed..];
        assert rest[0] == inputs[consumed] && rest[1..] == inputs[consumed + 1..];
        Receive(inputs[consumed]);
        consumed := consumed + 1;
        if shouldQuit {
          return;
        }
      }
    }
  }
}
