/**
 * The central dispatcher of the component runtime. It owns the quit and
 * suspend flags, the current mode, the buffer of pending chord keys and the
 * action channel; it turns terminal events into actions, drains the channel
 * in arrival order, handles the lifecycle actions itself and broadcasts every
 * action to the components in list order, requeueing whatever they send back.
 *
 * The behaviour is first given as functions over a `Snapshot` of that state;
 * the `App` class then performs the same steps in place and is proved to
 * agree with them.
 */
module App {
  import opened Wrappers
  import A = Action
  import K = Keys
  import MenuC = ComponentsMenu
  import InfoC = ComponentsInfo
  import opened AppLayout

  /** The interaction context that selects a keymap (only `Home` is used). */
  datatype Mode = Home

  /** One mode's table: a key sequence (a single key or a chord) to the action it fires. */
  type Keymap = map<seq<K.KeyEvent>, A.Action>

  /** The configured key bindings, per mode. */
  type KeyBindings = map<Mode, Keymap>

  /** The events the terminal layer delivers to the dispatcher. */
  datatype Event =
    | Init | Quit | Error | Closed | Tick | Render | FocusGained | FocusLost
    | Paste(text: string) | Key(key: K.KeyEvent) | Mouse | Resize(width: A.U16, height: A.U16)

  /** The menu the dispatcher is built with. */
  const MenuItemNames: seq<string> := ["Install Neovim", "Install NEVIRAIDE", "Check dependencies", "Quit"]

  const InfoTitle: string := " Info component "
  const CheckingVersionMessage: string := "Checking current Neovim version..."
  const InstallingMessage: string := "Installing NEVIRAIDE..."
  const CheckingDepsMessage: string := "Checking system dependencies..."

  /** The state the dispatcher's steps read and write, including the menu's and the info log's. */
  datatype Snapshot = Snapshot(
    shouldQuit: bool,
    shouldSuspend: bool,
    mode: Mode,
    pending: seq<K.KeyEvent>,
    menuItems: seq<string>,
    menuIndex: nat,
    menuRegistered: bool,
    infoContent: string)

  /** The menu is non-empty and its selection in range (the menu's own invariant). */
  predicate Wf(s: Snapshot)
  {
    |s.menuItems| > 0 && s.menuIndex < |s.menuItems|
  }

  // ---------------------------------------------------------------------------
  // Key resolution

  /**
   * Resolves one key in `mode`. A key bound on its own fires at once and leaves
   * the buffer alone; otherwise the key joins the buffer and the whole buffer
   * is looked up, which is not cleared when it matches. Without a keymap for
   * the mode nothing happens. Returns the new buffer and the actions sent.
   */
  function ResolveKey(bindings: KeyBindings, mode: Mode, pending: seq<K.KeyEvent>, key: K.KeyEvent)
    : (r: (seq<K.KeyEvent>, seq<A.Action>))
    ensures |r.1| <= 1
    ensures mode !in bindings ==> r == (pending, [])
    ensures mode in bindings && [key] in bindings[mode] ==> r == (pending, [bindings[mode][[key]]])
    ensures mode in bindings && [key] !in bindings[mode] ==>
      && r.0 == pending + [key]
      && (r.1 != [] <==> pending + [key] in bindings[mode])
      && (r.1 != [] ==> r.1 == [bindings[mode][pending + [key]]])
  {
    if mode !in bindings then (pending, [])
    else
      var keymap := bindings[mode];
      if [key] in keymap then (pending, [keymap[[key]]])
      else
        var buffer := pending + [key];
        if buffer in keymap then (buffer, [keymap[buffer]]) else (buffer, [])
  }

  /** Feeds keys one after another through `ResolveKey`, collecting the actions sent. */
  function ResolveKeys(bindings: KeyBindings, mode: Mode, pending: seq<K.KeyEvent>, keys: seq<K.KeyEvent>)
    : (r: (seq<K.KeyEvent>, seq<A.Action>))
    decreases |keys|
  {
    if keys == [] then (pending, [])
    else
      var first := ResolveKey(bindings, mode, pending, keys[0]);
      var rest := ResolveKeys(bindings, mode, first.0, keys[1..]);
      (rest.0, first.1 + rest.1)
  }

  /**
   * Without any single-key binding, the buffer keeps every key pressed since
   * it was last emptied: a chord that matched is not cleared.
   */
  lemma {:induction false} BufferAccumulates(bindings: KeyBindings, mode: Mode, pending: seq<K.KeyEvent>, keys: seq<K.KeyEvent>)
    requires mode in bindings
    requires forall k :: [k] !in bindings[mode]
    ensures ResolveKeys(bindings, mode, pending, keys).0 == pending + keys
    decreases |keys|
  {
    if keys == [] {
    } else {
      var p1 := ResolveKey(bindings, mode, pending, keys[0]).0;
      assert p1 == pending + [keys[0]];
      BufferAccumulates(bindings, mode, p1, keys[1..]);
      assert pending + [keys[0]] + keys[1..] == pending + keys;
    }
  }

  /**
   * Single-key priority: a key bound on its own fires its action whatever is
   * pending, even in the middle of a chord, and the chord is left untouched.
   */
  lemma SingleKeyPriority(bindings: KeyBindings, mode: Mode, pending: seq<K.KeyEvent>, key: K.KeyEvent)
    requires mode in bindings && [key] in bindings[mode]
    ensures ResolveKey(bindings, mode, pending, key) == (pending, [bindings[mode][[key]]])
  {
  }

  /**
   * A two-key chord fires when both keys arrive with no `Tick` between them,
   * and once it has fired, pressing its key again does not fire it again
   * until a `Tick` empties the buffer.
   */
  lemma ChordFiresOnce(bindings: KeyBindings, mode: Mode, g: K.KeyEvent, top: A.Action)
    requires mode in bindings && bindings[mode] == map[[g, g] := top]
    ensures ResolveKeys(bindings, mode, [], [g, g]) == ([g, g], [top])
    ensures ResolveKeys(bindings, mode, [], [g, g, g]) == ([g, g, g], [top])
  {
    var km := bindings[mode];
    assert [g, g][1..] == [g] && [g][1..] == [] && [g, g, g][1..] == [g, g];
    assert [] + [g] == [g] && [g] + [g] == [g, g] && [g, g] + [g] == [g, g, g];
    assert [g] != [g, g] && [g, g, g] != [g, g];
    var none: seq<A.Action> := [];
    assert none + none == none && [top] + none == [top] && none + [top] == [top];
    assert [g] !in km && [g, g] in km && [g, g, g] !in km;
    assert ResolveKey(bindings, mode, [], g) == ([g], []);
    assert ResolveKey(bindings, mode, [g], g) == ([g, g], [top]);
    assert ResolveKey(bindings, mode, [g, g], g) == ([g, g, g], []);
    assert ResolveKeys(bindings, mode, [g, g, g], []) == ([g, g, g], []);
    assert ResolveKeys(bindings, mode, [g, g], []) == ([g, g], []);
    assert ResolveKeys(bindings, mode, [g, g], [g]) == ([g, g, g], []);
    assert ResolveKeys(bindings, mode, [g], [g]) == ([g, g], [top]);
    assert ResolveKeys(bindings, mode, [g], [g, g]) == ([g, g, g], [top]);
  }

  /** With the buffer emptied by a `Tick` between the two presses, the chord does not fire. */
  lemma TickBetweenBreaksChord(bindings: KeyBindings, mode: Mode, g: K.KeyEvent, top: A.Action)
    requires mode in bindings && bindings[mode] == map[[g, g] := top]
    ensures var p1 := ResolveKey(bindings, mode, [], g);
            var s := Snapshot(false, false, mode, p1.0, MenuItemNames, 0, false, "");
            var afterTick := ActionEffect(s, A.Tick);
            p1.1 == [] && ResolveKey(bindings, mode, afterTick.pending, g) == ([g], [])
  {
    assert [] + [g] == [g];
    assert [g] !in bindings[mode];
  }

  // ---------------------------------------------------------------------------
  // Components

  /** `handle_events` of one component: only the menu reacts, and only to keys. */
  function ComponentHandleEvent(c: ComponentId, s: Snapshot, e: Event): (r: (Snapshot, seq<A.Action>))
    requires Wf(s)
    ensures Wf(r.0)
    ensures c != Menu || !e.Key? ==> r == (s, [])
  {
    if c == Menu && e.Key? then
      var code := e.key.code;
      (s.(menuIndex := MenuC.KeyIndex(s.menuIndex, |s.menuItems|, code)),
       if code == K.Enter then [A.Select] else [])
    else (s, [])
  }

  /** `handle_events` run over the components `cs` in order; what they return is sent in that order. */
  function HandleEventsOver(cs: seq<ComponentId>, s: Snapshot, e: Event): (r: (Snapshot, seq<A.Action>))
    requires Wf(s)
    ensures Wf(r.0)
    decreases |cs|
  {
    if cs == [] then (s, [])
    else
      var init := HandleEventsOver(cs[..|cs| - 1], s, e);
      var last := ComponentHandleEvent(cs[|cs| - 1], init.0, e);
      (last.0, init.1 + last.1)
  }

  /** `update` of one component: the menu moves or sends its selected action; the others return nothing. */
  function ComponentUpdate(c: ComponentId, s: Snapshot, a: A.Action): (r: (Snapshot, seq<A.Action>))
    requires Wf(s)
    ensures Wf(r.0)
    ensures c != Menu ==> r == (s, [])
  {
    if c == Menu then
      (s.(menuIndex := MenuC.UpdateIndex(s.menuIndex, |s.menuItems|, a)),
       MenuC.SentOnUpdate(s.menuItems, s.menuIndex, s.menuRegistered, a))
    else (s, [])
  }

  /** `update` run over the components `cs` in order, collecting what they send. */
  function UpdateOver(cs: seq<ComponentId>, s: Snapshot, a: A.Action): (r: (Snapshot, seq<A.Action>))
    requires Wf(s)
    ensures Wf(r.0)
    decreases |cs|
  {
    if cs == [] then (s, [])
    else
      var init := UpdateOver(cs[..|cs| - 1], s, a);
      var last := ComponentUpdate(cs[|cs| - 1], init.0, a);
      (last.0, init.1 + last.1)
  }

  /** Broadcasting to the five components amounts to the menu's update; the others change nothing. */
  lemma UpdateOverComponents(s: Snapshot, a: A.Action)
    requires Wf(s)
    ensures UpdateOver(Components, s, a) ==
      (s.(menuIndex := MenuC.UpdateIndex(s.menuIndex, |s.menuItems|, a)),
       MenuC.SentOnUpdate(s.menuItems, s.menuIndex, s.menuRegistered, a))
  {
    var none: seq<ComponentId> := [];
    assert none + [Header] == [Header];
    UpdateOverNoMenu(none, [Header], s, a);
    assert UpdateOver([Header], s, a) == (s, []);
    UpdateOverSnoc([Header], Menu, s, a);
    var m := ComponentUpdate(Menu, s, a);
    assert [] + m.1 == m.1;
    assert [Header] + [Menu] == [Header, Menu];
    assert UpdateOver([Header, Menu], s, a) == m;
    assert Components == [Header, Menu] + [ProgressBar, Info, Footer];
    UpdateOverNoMenu([Header, Menu], [ProgressBar, Info, Footer], s, a);
  }

  /** Components other than the menu, appended to the list, change nothing and send nothing. */
  lemma {:induction false} UpdateOverNoMenu(cs: seq<ComponentId>, more: seq<ComponentId>, s: Snapshot, a: A.Action)
    requires Wf(s) && Menu !in more
    ensures UpdateOver(cs + more, s, a) == UpdateOver(cs, s, a)
    decreases |more|
  {
    if more == [] {
      assert cs + more == cs;
    } else {
      var init := more[..|more| - 1];
      var c := more[|more| - 1];
      assert cs + more == (cs + init) + [c];
      assert c in more;
      assert forall x :: x in init ==> x in more;
      UpdateOverSnoc(cs + init, c, s, a);
      var x := UpdateOver(cs + init, s, a);
      assert ComponentUpdate(c, x.0, a) == (x.0, []);
      assert x.1 + [] == x.1;
      UpdateOverNoMenu(cs, init, s, a);
    }
  }

  /** The fold over `cs + [c]` is the fold over `cs` followed by `c`'s update. */
  lemma UpdateOverSnoc(cs: seq<ComponentId>, c: ComponentId, s: Snapshot, a: A.Action)
    requires Wf(s)
    ensures var init := UpdateOver(cs, s, a);
      UpdateOver(cs + [c], s, a) == (ComponentUpdate(c, init.0, a).0, init.1 + ComponentUpdate(c, init.0, a).1)
  {
    assert (cs + [c])[..|cs|] == cs;
  }

  /** The fold over `cs + [c]` is the fold over `cs` followed by `c`'s `handle_events`. */
  lemma HandleEventsOverSnoc(cs: seq<ComponentId>, c: ComponentId, s: Snapshot, e: Event)
    requires Wf(s)
    ensures var init := HandleEventsOver(cs, s, e);
      HandleEventsOver(cs + [c], s, e) == (ComponentHandleEvent(c, init.0, e).0, init.1 + ComponentHandleEvent(c, init.0, e).1)
  {
    assert (cs + [c])[..|cs|] == cs;
  }

  /** Every key event reaches the menu's `handle_key_events`; no other component reacts. */
  lemma HandleEventsOverComponents(s: Snapshot, e: Event)
    requires Wf(s)
    ensures HandleEventsOver(Components, s, e) == ComponentHandleEvent(Menu, s, e)
  {
    var none: seq<ComponentId> := [];
    assert none + [Header] == [Header];
    HandleEventsOverNoMenu(none, [Header], s, e);
    assert HandleEventsOver([Header], s, e) == (s, []);
    HandleEventsOverSnoc([Header], Menu, s, e);
    var m := ComponentHandleEvent(Menu, s, e);
    assert [] + m.1 == m.1;
    assert [Header] + [Menu] == [Header, Menu];
    assert HandleEventsOver([Header, Menu], s, e) == m;
    assert Components == [Header, Menu] + [ProgressBar, Info, Footer];
    HandleEventsOverNoMenu([Header, Menu], [ProgressBar, Info, Footer], s, e);
  }

  /** Components other than the menu, appended to the list, ignore every event. */
  lemma {:induction false} HandleEventsOverNoMenu(cs: seq<ComponentId>, more: seq<ComponentId>, s: Snapshot, e: Event)
    requires Wf(s) && Menu !in more
    ensures HandleEventsOver(cs + more, s, e) == HandleEventsOver(cs, s, e)
    decreases |more|
  {
    if more == [] {
      assert cs + more == cs;
    } else {
      var init := more[..|more| - 1];
      var c := more[|more| - 1];
      assert cs + more == (cs + init) + [c];
      assert c in more;
      assert forall x :: x in init ==> x in more;
      HandleEventsOverSnoc(cs + init, c, s, e);
      var x := HandleEventsOver(cs + init, s, e);
      assert ComponentHandleEvent(c, x.0, e) == (x.0, []);
      assert x.1 + [] == x.1;
      HandleEventsOverNoMenu(cs, init, s, e);
    }
  }

  // ---------------------------------------------------------------------------
  // The action drain

  /**
   * The dispatcher's own arm for one action: the info messages, `Tick`
   * emptying the chord buffer, and the quit and suspend flags. `Resize` and
   * `Render` only recompute rectangles and draw, which changes no state here.
   */
  function ActionEffect(s: Snapshot, a: A.Action): (t: Snapshot)
    ensures t.mode == s.mode && t.menuItems == s.menuItems && t.menuIndex == s.menuIndex
    ensures t.menuRegistered == s.menuRegistered
    ensures t.shouldQuit == (s.shouldQuit || a == A.Quit)
    ensures t.shouldSuspend == (if a == A.Suspend then true else if a == A.Resume then false else s.shouldSuspend)
    ensures t.pending == if a == A.Tick then [] else s.pending
    ensures a !in {A.InstallNeovimNightly, A.InstallNeviraide, A.CheckDeps} ==> t.infoContent == s.infoContent
    ensures a == A.InstallNeovimNightly ==> t.infoContent == s.infoContent + CheckingVersionMessage + "\n"
    ensures a == A.InstallNeviraide ==> t.infoContent == s.infoContent + InstallingMessage + "\n"
    ensures a == A.CheckDeps ==> t.infoContent == s.infoContent + CheckingDepsMessage + "\n"
  {
    match a
    case InstallNeovimNightly => s.(infoContent := s.infoContent + CheckingVersionMessage + "\n")
    case InstallNeviraide => s.(infoContent := s.infoContent + InstallingMessage + "\n")
    case CheckDeps => s.(infoContent := s.infoContent + CheckingDepsMessage + "\n")
    case Tick => s.(pending := [])
    case Quit => s.(shouldQuit := true)
    case Suspend => s.(shouldSuspend := true)
    case Resume => s.(shouldSuspend := false)
    case _ => s
  }

  /**
   * Handling one received action: the dispatcher's arm, then the broadcast.
   * Only `Select` makes anything come back, at most one action, never a
   * `Select` or a `Tick`.
   */
  function Dispatch(s: Snapshot, a: A.Action): (r: (Snapshot, seq<A.Action>))
    requires Wf(s)
    ensures Wf(r.0)
    ensures |r.1| <= 1 && A.Select !in r.1 && A.Tick !in r.1
    ensures r.1 != [] ==> a == A.Select
  {
    var t := ActionEffect(s, a);
    UpdateOverComponents(t, a);
    UpdateOver(Components, t, a)
  }

  function SelectCount(q: seq<A.Action>): nat
    decreases |q|
  {
    if q == [] then 0 else (if q[0] == A.Select then 1 else 0) + SelectCount(q[1..])
  }

  lemma {:induction false} SelectCountConcat(a: seq<A.Action>, b: seq<A.Action>)
    ensures SelectCount(a + b) == SelectCount(a) + SelectCount(b)
    decreases |a|
  {
    if a == [] {
      assert a + b == b;
    } else {
      assert (a + b)[1..] == a[1..] + b;
      SelectCountConcat(a[1..], b);
    }
  }

  lemma SelectCountNone(q: seq<A.Action>)
    requires A.Select !in q
    ensures SelectCount(q) == 0
    decreases |q|
  {
    if q != [] {
      SelectCountNone(q[1..]);
    }
  }

  /** The drain's termination measure: every `Select` can bring back one more action, nothing else can. */
  function Weight(q: seq<A.Action>): nat
  {
    |q| + SelectCount(q)
  }

  /** Taking an action off the front and appending what handling it sent shrinks the measure. */
  lemma WeightDecreases(q: seq<A.Action>, out: seq<A.Action>)
    requires q != []
    requires |out| <= 1 && A.Select !in out && (out != [] ==> q[0] == A.Select)
    ensures Weight(q[1..] + out) < Weight(q)
  {
    SelectCountConcat(q[1..], out);
    SelectCountNone(out);
  }

  /**
   * `while let Ok(action) = action_rx.try_recv()`: takes actions off the front
   * of the channel until it is empty, appending what each broadcast sends to
   * the back. Returns the final state and every action handled, in order.
   */
  function Drain(s: Snapshot, q: seq<A.Action>): (r: (Snapshot, seq<A.Action>))
    requires Wf(s)
    ensures Wf(r.0)
    decreases Weight(q)
  {
    if q == [] then (s, [])
    else
      var step := Dispatch(s, q[0]);
      WeightDecreases(q, step.1);
      var rest := Drain(step.0, q[1..] + step.1);
      (rest.0, [q[0]] + rest.1)
  }

  /** One step of the drain: the head is dispatched and the rest of the drain starts from its result. */
  lemma DrainUnfold(s: Snapshot, q: seq<A.Action>)
    requires Wf(s) && q != []
    ensures var step := Dispatch(s, q[0]);
      Drain(s, q) == (Drain(step.0, q[1..] + step.1).0, [q[0]] + Drain(step.0, q[1..] + step.1).1)
  {
  }

  /** One pass of the draining loop: the rest of the drain from the new state finishes the same drain. */
  lemma DrainStep(s: Snapshot, q: seq<A.Action>, s': Snapshot, q': seq<A.Action>, trace: seq<A.Action>)
    requires Wf(s) && q != []
    requires s' == Dispatch(s, q[0]).0 && q' == q[1..] + Dispatch(s, q[0]).1
    ensures Weight(q') < Weight(q)
    ensures Drain(s', q').0 == Drain(s, q).0
    ensures (trace + [q[0]]) + Drain(s', q').1 == trace + Drain(s, q).1
  {
    DrainUnfold(s, q);
    WeightDecreases(q, Dispatch(s, q[0]).1);
  }

  /** The drain hands out actions first in, first out: what was queued is handled first, in order. */
  lemma {:induction false} DrainIsFifo(s: Snapshot, q: seq<A.Action>)
    requires Wf(s)
    ensures q <= Drain(s, q).1
    decreases Weight(q)
  {
    if q != [] {
      var s1, out := Dispatch(s, q[0]).0, Dispatch(s, q[0]).1;
      WeightDecreases(q, out);
      DrainIsFifo(s1, q[1..] + out);
      assert q[1..] <= q[1..] + out;
    }
  }

  /** The suspend flag after handling `trace`: the last `Suspend` or `Resume` decides. */
  function SuspendAfter(flag: bool, trace: seq<A.Action>): bool
    decreases |trace|
  {
    if trace == [] then flag
    else SuspendAfter(if trace[0] == A.Suspend then true else if trace[0] == A.Resume then false else flag, trace[1..])
  }

  /**
   * What a drain does to the dispatcher's own fields: `Quit` sets the quit flag
   * for good, the last `Suspend`/`Resume` decides the suspend flag, a `Tick`
   * empties the chord buffer, and nothing changes the mode or the menu items.
   */
  lemma {:induction false} DrainFlags(s: Snapshot, q: seq<A.Action>)
    requires Wf(s)
    ensures var t, trace := Drain(s, q).0, Drain(s, q).1;
      && t.shouldQuit == (s.shouldQuit || A.Quit in trace)
      && t.shouldSuspend == SuspendAfter(s.shouldSuspend, trace)
      && t.pending == (if A.Tick in trace then [] else s.pending)
      && t.mode == s.mode && t.menuItems == s.menuItems && t.menuRegistered == s.menuRegistered
    decreases Weight(q)
  {
    if q != [] {
      var s1, out := Dispatch(s, q[0]).0, Dispatch(s, q[0]).1;
      WeightDecreases(q, out);
      DrainFlags(s1, q[1..] + out);
      UpdateOverComponents(ActionEffect(s, q[0]), q[0]);
    }
  }

  /** A drain without `Prev`, `Next` or `Select` leaves the menu selection where it was. */
  lemma {:induction false} DrainKeepsSelection(s: Snapshot, q: seq<A.Action>)
    requires Wf(s)
    requires A.Prev !in q && A.Next !in q && A.Select !in q
    ensures Drain(s, q).0.menuIndex == s.menuIndex
    ensures Drain(s, q).1 == q
    decreases Weight(q)
  {
    if q != [] {
      var s1, out := Dispatch(s, q[0]).0, Dispatch(s, q[0]).1;
      WeightDecreases(q, out);
      UpdateOverComponents(ActionEffect(s, q[0]), q[0]);
      assert out == [] && q[1..] + out == q[1..];
      DrainKeepsSelection(s1, q[1..]);
    }
  }

  /**
   * Selecting the `Quit` item with a registered menu: the menu sends `Quit`,
   * which is handled in the same drain, right after the `Select`.
   */
  lemma SelectingQuitQuits(s: Snapshot)
    requires Wf(s) && s.menuRegistered && s.menuItems[s.menuIndex] == "Quit"
    ensures Drain(s, [A.Select]).1 == [A.Select, A.Quit]
    ensures Drain(s, [A.Select]).0.shouldQuit
  {
    var s1, out := Dispatch(s, A.Select).0, Dispatch(s, A.Select).1;
    UpdateOverComponents(ActionEffect(s, A.Select), A.Select);
    assert out == [A.Quit];
    assert [A.Select][1..] + out == [A.Quit];
    var out2 := Dispatch(s1, A.Quit).1;
    UpdateOverComponents(ActionEffect(s1, A.Quit), A.Quit);
    assert out2 == [];
    assert [A.Quit][1..] + out2 == [];
  }

  /**
   * The third item of the dispatcher's menu is spelt "Check dependencies",
   * which the menu's `Select` arm does not recognise: selecting it yields an
   * `Error` action instead of the dependency check.
   */
  lemma CheckDependenciesItemIsUnknown()
    ensures MenuC.SelectAction(MenuItemNames[2]) == A.Error("Unknown menu item: Check dependencies")
    ensures MenuC.SelectAction(MenuItemNames[2]) != A.CheckDeps
  {
  }

  // ---------------------------------------------------------------------------
  // One iteration of the outer loop, and the loop

  /** The dispatcher's own match on an event: the actions it sends, and the chord buffer. */
  function EventActions(bindings: KeyBindings, s: Snapshot, q: seq<A.Action>, e: Event): (r: (Snapshot, seq<A.Action>))
    requires Wf(s)
    ensures Wf(r.0) && r.0 == s.(pending := r.0.pending) && q <= r.1
    ensures !e.Key? ==> r.0 == s
    ensures e.Key? ==> r == (s.(pending := ResolveKey(bindings, s.mode, s.pending, e.key).0),
                             q + ResolveKey(bindings, s.mode, s.pending, e.key).1)
    ensures e == Quit ==> r.1 == q + [A.Quit]
    ensures e == Render ==> r.1 == q + [A.Render]
    ensures e.Resize? ==> r.1 == q + [A.Resize(e.width, e.height)]
    ensures !e.Key? && !e.Quit? && !e.Render? && !e.Resize? ==> r == (s, q)
  {
    match e
    case Quit => (s, q + [A.Quit])
    case Render => (s, q + [A.Render])
    case Resize(w, h) => (s, q + [A.Resize(w, h)])
    case Key(key) =>
      var resolved := ResolveKey(bindings, s.mode, s.pending, key);
      (s.(pending := resolved.0), q + resolved.1)
    case _ => (s, q)
  }

  /** Turns one event into actions: the dispatcher's own match, then every component's `handle_events`. */
  function EventStep(bindings: KeyBindings, s: Snapshot, q: seq<A.Action>, e: Event): (r: (Snapshot, seq<A.Action>))
    requires Wf(s)
    ensures Wf(r.0)
    ensures q <= r.1
  {
    var own := EventActions(bindings, s, q, e);
    var comps := HandleEventsOver(Components, own.0, e);
    (comps.0, own.1 + comps.1)
  }

  /**
   * The events delivered by the terminal layer never include a `Tick` action:
   * the event match has no arm for `Event::Tick`, so the chord buffer is only
   * emptied when some other producer sends `Tick`.
   */
  lemma TickEventIsDropped(bindings: KeyBindings, s: Snapshot, q: seq<A.Action>)
    requires Wf(s)
    ensures EventStep(bindings, s, q, Tick) == (s, q)
  {
    HandleEventsOverComponents(s, Tick);
    assert q + [] == q;
  }

  /**
   * One pass of the outer loop: the event (if one arrived), the drain, then the
   * epilogue: a set suspend flag queues `Resume` and goes on; otherwise a set
   * quit flag ends the loop. Returns the state, the channel and whether to stop.
   */
  function Iteration(bindings: KeyBindings, s: Snapshot, q: seq<A.Action>, e: Option<Event>)
    : (r: (Snapshot, seq<A.Action>, bool))
    requires Wf(s)
    ensures Wf(r.0)
    ensures r.2 <==> r.0.shouldQuit && !r.0.shouldSuspend
    ensures r.1 == if r.0.shouldSuspend then [A.Resume] else []
  {
    var afterEvent := if e.Some? then EventStep(bindings, s, q, e.value) else (s, q);
    var s2 := Drain(afterEvent.0, afterEvent.1).0;
    if s2.shouldSuspend then (s2, [A.Resume], false)
    else (s2, [], s2.shouldQuit)
  }

  /**
   * Suspend/resume round trip: after a pass that left the dispatcher suspended,
   * the next pass without input handles the queued `Resume` and restores
   * everything but the suspend flag, the mode and the menu selection included.
   */
  lemma ResumeRestores(bindings: KeyBindings, s: Snapshot)
    requires Wf(s)
    ensures Iteration(bindings, s, [A.Resume], None) == (s.(shouldSuspend := false), [], s.shouldQuit)
  {
    var t := ActionEffect(s, A.Resume);
    UpdateOverComponents(t, A.Resume);
    var s1, out := Dispatch(s, A.Resume).0, Dispatch(s, A.Resume).1;
    assert out == [] && [A.Resume][1..] + out == [];
    assert Drain(s, [A.Resume]).0 == s1;
  }

  /**
   * With `Down` bound to `Next`, one press moves the menu selection two rows:
   * the menu's own `handle_key_events` moves it once, and the `Next` the
   * keymap sent moves it again when the channel is drained.
   */
  lemma DownPressMovesTwice(bindings: KeyBindings, s: Snapshot, key: K.KeyEvent)
    requires Wf(s) && s.menuIndex + 2 < |s.menuItems|
    requires key.code == K.Down && s.mode in bindings && bindings[s.mode] == map[[key] := A.Next]
    ensures Iteration(bindings, s, [], Some(Key(key))).0.menuIndex == s.menuIndex + 2
  {
    DownPressSendsNext(bindings, s, key);
    NextDrainMoves(s.(menuIndex := s.menuIndex + 1));
  }

  /** The event half: the menu moves once and the keymap queues `Next`. */
  lemma DownPressSendsNext(bindings: KeyBindings, s: Snapshot, key: K.KeyEvent)
    requires Wf(s) && s.menuIndex + 2 < |s.menuItems|
    requires key.code == K.Down && s.mode in bindings && bindings[s.mode] == map[[key] := A.Next]
    ensures EventStep(bindings, s, [], Key(key)) == (s.(menuIndex := s.menuIndex + 1), [A.Next])
  {
    var none: seq<A.Action> := [];
    assert [key] in bindings[s.mode];
    assert ResolveKey(bindings, s.mode, s.pending, key) == (s.pending, [A.Next]);
    assert none + [A.Next] == [A.Next];
    var own := EventActions(bindings, s, none, Key(key));
    assert own == (s, [A.Next]);
    HandleEventsOverComponents(s, Key(key));
    assert [A.Next] + none == [A.Next];
  }

  /** The drain half: a queued `Next` moves the menu once more. */
  lemma NextDrainMoves(s1: Snapshot)
    requires Wf(s1) && s1.menuIndex + 1 < |s1.menuItems|
    ensures Drain(s1, [A.Next]).0.menuIndex == s1.menuIndex + 1
  {
    var none: seq<A.Action> := [];
    UpdateOverComponents(ActionEffect(s1, A.Next), A.Next);
    var step := Dispatch(s1, A.Next);
    assert step.0.menuIndex == s1.menuIndex + 1 && step.1 == none;
    assert [A.Next][1..] + step.1 == none;
    DrainUnfold(s1, [A.Next]);
  }

  /** The outer loop over a finite prefix of the event stream: the final state and the passes made. */
  function RunFrom(bindings: KeyBindings, s: Snapshot, q: seq<A.Action>, events: seq<Option<Event>>)
    : (r: (Snapshot, nat))
    requires Wf(s)
    ensures Wf(r.0)
    ensures r.1 <= |events|
    ensures r.1 < |events| ==> r.0.shouldQuit && !r.0.shouldSuspend
    decreases |events|
  {
    if events == [] then (s, 0)
    else
      var pass := Iteration(bindings, s, q, events[0]);
      if pass.2 then (pass.0, 1)
      else
        var rest := RunFrom(bindings, pass.0, pass.1, events[1..]);
        (rest.0, rest.1 + 1)
  }

  // ---------------------------------------------------------------------------
  // The dispatcher object

  class App {
    const bindings: KeyBindings
    const menu: MenuC.Menu
    const info: InfoC.Info
    /** Read from the progress bar by `update_ui`; no modelled action changes it. */
    var progressVisible: bool
    var shouldQuit: bool
    var shouldSuspend: bool
    var mode: Mode
    var lastTickKeyEvents: seq<K.KeyEvent>
    /** The action channel between `action_tx` and `action_rx`, oldest action first. */
    var channel: seq<A.Action>

    ghost predicate Valid()
      reads this, menu
    {
      menu.Valid() && menu.menuItems != []
    }

    function Snap(): Snapshot
      reads this, menu, info
    {
      Snapshot(shouldQuit, shouldSuspend, mode, lastTickKeyEvents,
               menu.menuItems, menu.selectedIndex, menu.registered, info.content)
    }

    /** The layout `update_ui` would draw with now. */
    function CurrentPlan(): Plan
      reads this
    {
      UpdateUiPlan(progressVisible)
    }

    /** `App::new`, with the configuration's key bindings passed in. */
    constructor (bindings: KeyBindings)
      ensures Valid() && fresh(menu) && fresh(info)
      ensures Snap() == Snapshot(false, false, Home, [], MenuItemNames, 0, false, "")
      ensures this.bindings == bindings && info.title == InfoTitle
      ensures !progressVisible && channel == []
    {
      this.bindings := bindings;
      menu := new MenuC.Menu(MenuItemNames);
      info := new InfoC.Info(InfoTitle);
      progressVisible := false;
      shouldQuit := false;
      shouldSuspend := false;
      mode := Home;
      lastTickKeyEvents := [];
      channel := [];
    }

    /** `update_info`: appends a line to the info component's log. */
    method UpdateInfo(message: string)
      modifies info
      ensures info.content == old(info.content) + message + "\n"
      ensures info.title == old(info.title)
    {
      info.UpdateContent(message);
    }

    /** The dispatcher's own match arm for one received action. */
    method HandleAction(a: A.Action)
      requires Valid()
      modifies this, info
      ensures Valid()
      ensures channel == old(channel) && progressVisible == old(progressVisible)
      ensures Snap() == ActionEffect(old(Snap()), a)
    {
      match a {
        case InstallNeovimNightly => UpdateInfo(CheckingVersionMessage);
        case InstallNeviraide => UpdateInfo(InstallingMessage);
        case CheckDeps => UpdateInfo(CheckingDepsMessage);
        case Tick => lastTickKeyEvents := [];
        case Quit => shouldQuit := true;
        case Suspend => shouldSuspend := true;
        case Resume => shouldSuspend := false;
        case _ =>
      }
    }

    /** Broadcasts an action to every component's `update` in list order, returning what they send. */
    method Broadcast(a: A.Action) returns (out: seq<A.Action>)
      requires Valid()
      modifies menu
      ensures Valid()
      ensures (Snap(), out) == UpdateOver(Components, old(Snap()), a)
    {
      ghost var s0 := Snap();
      out := [];
      for i := 0 to |Components|
        invariant Valid()
        invariant (Snap(), out) == UpdateOver(Components[..i], s0, a)
      {
        assert Components[..i + 1] == Components[..i] + [Components[i]];
        UpdateOverSnoc(Components[..i], Components[i], s0, a);
        var sent := UpdateComponent(Components[i], a);
        out := out + sent;
      }
      assert Components[..|Components|] == Components;
    }

    /**
     * One component's `update`. The menu's `update` always returns nothing;
     * what it sends goes through its registered sender instead.
     */
    method UpdateComponent(c: ComponentId, a: A.Action) returns (sent: seq<A.Action>)
      requires Valid()
      modifies menu
      ensures Valid()
      ensures (Snap(), sent) == ComponentUpdate(c, old(Snap()), a)
    {
      sent := [];
      if c == Menu {
        var _, fromMenu := menu.Update(a);
        sent := fromMenu;
      }
    }

    /** Every component's `handle_events` in list order; only the menu reacts, to keys. */
    method HandleEvents(e: Event) returns (out: seq<A.Action>)
      requires Valid()
      modifies menu
      ensures Valid()
      ensures (Snap(), out) == HandleEventsOver(Components, old(Snap()), e)
    {
      ghost var s0 := Snap();
      out := [];
      for i := 0 to |Components|
        invariant Valid()
        invariant (Snap(), out) == HandleEventsOver(Components[..i], s0, e)
      {
        assert Components[..i + 1] == Components[..i] + [Components[i]];
        HandleEventsOverSnoc(Components[..i], Components[i], s0, e);
        var sent := ComponentEvent(Components[i], e);
        out := out + sent;
      }
      assert Components[..|Components|] == Components;
    }

    /** One component's `handle_events`: the menu forwards key events to `handle_key_events`. */
    method ComponentEvent(c: ComponentId, e: Event) returns (sent: seq<A.Action>)
      requires Valid()
      modifies menu
      ensures Valid()
      ensures (Snap(), sent) == ComponentHandleEvent(c, old(Snap()), e)
    {
      sent := [];
      if c == Menu && e.Key? {
        var r := menu.HandleKeyEvents(e.key);
        if r.Some? {
          sent := [r.value];
        }
      }
    }

    /** The first half of a pass: the event's own actions, then the components' `handle_events`. */
    method HandleEvent(e: Event)
      requires Valid()
      modifies this, menu
      ensures Valid()
      ensures (Snap(), channel) == EventStep(bindings, old(Snap()), old(channel), e)
      ensures progressVisible == old(progressVisible)
    {
      SendEventActions(e);
      var out := HandleEvents(e);
      channel := channel + out;
    }

    /** The dispatcher's own match on an event, with the chord resolution for keys. */
    method SendEventActions(e: Event)
      requires Valid()
      modifies this
      ensures Valid()
      ensures (Snap(), channel) == EventActions(bindings, old(Snap()), old(channel), e)
      ensures progressVisible == old(progressVisible)
    {
      match e {
        case Quit => channel := channel + [A.Quit];
        case Render => channel := channel + [A.Render];
        case Resize(w, h) => channel := channel + [A.Resize(w, h)];
        case Key(key) =>
          if mode in bindings {
            var keymap := bindings[mode];
            if [key] in keymap {
              channel := channel + [keymap[[key]]];
            } else {
              var buffer := lastTickKeyEvents + [key];
              lastTickKeyEvents := buffer;
              if buffer in keymap {
                channel := channel + [keymap[buffer]];
              } else {
                assert channel + [] == channel;
              }
            }
          } else {
            assert channel + [] == channel;
          }
        case _ =>
      }
    }

    /** Drains the channel until it is empty; returns the actions handled, in order. */
    method DrainChannel() returns (trace: seq<A.Action>)
      requires Valid()
      modifies this, menu, info
      ensures Valid()
      ensures channel == [] && progressVisible == old(progressVisible)
      ensures (Snap(), trace) == Drain(old(Snap()), old(channel))
    {
      ghost var s0, q0 := Snap(), channel;
      trace := [];
      while channel != []
        invariant Valid()
        invariant progressVisible == old(progressVisible)
        invariant Drain(Snap(), channel).0 == Drain(s0, q0).0
        invariant trace + Drain(Snap(), channel).1 == Drain(s0, q0).1
        decreases Weight(channel)
      {
        ghost var s, q := Snap(), channel;
        var action := DispatchHead();
        DrainStep(s, q, Snap(), channel, trace);
        trace := trace + [action];
      }
      assert Drain(Snap(), channel) == (Snap(), []);
      assert trace + [] == trace;
    }

    /** Takes the oldest action off the channel, handles it and broadcasts it, requeueing what comes back. */
    method DispatchHead() returns (action: A.Action)
      requires Valid() && channel != []
      modifies this, menu, info
      ensures Valid() && progressVisible == old(progressVisible)
      ensures action == old(channel)[0]
      ensures Snap() == Dispatch(old(Snap()), action).0
      ensures channel == old(channel)[1..] + Dispatch(old(Snap()), action).1
    {
      action := channel[0];
      channel := channel[1..];
      HandleAction(action);
      var out := Broadcast(action);
      channel := channel + out;
    }

    /** One pass of the outer loop; `stop` is the `break`. */
    method RunIteration(e: Option<Event>) returns (stop: bool)
      requires Valid()
      modifies this, menu, info
      ensures Valid()
      ensures (Snap(), channel, stop) == Iteration(bindings, old(Snap()), old(channel), e)
      ensures progressVisible == old(progressVisible)
    {
      ghost var s, q := Snap(), channel;
      if e.Some? {
        HandleEvent(e.value);
      }
      ghost var afterEvent := (Snap(), channel);
      assert afterEvent == if e.Some? then EventStep(bindings, s, q, e.value) else (s, q);
      var _ := DrainChannel();
      assert Snap() == Drain(afterEvent.0, afterEvent.1).0;
      if shouldSuspend {
        channel := channel + [A.Resume];
        assert channel == [A.Resume];
        stop := false;
      } else if shouldQuit {
        stop := true;
      } else {
        stop := false;
      }
    }

    /**
     * `run` over a finite prefix of the event stream: registers the menu's
     * sender, then runs passes until one breaks or the events run out.
     */
    method Run(events: seq<Option<Event>>) returns (passes: nat)
      requires Valid()
      modifies this, menu, info
      ensures Valid()
      ensures (Snap(), passes) == RunFrom(bindings, old(Snap()).(menuRegistered := true), [], events)
    {
      channel := [];
      menu.RegisterActionHandler();
      ghost var s0 := Snap();
      ghost var result := RunFrom(bindings, s0, [], events);
      passes := 0;
      var stop := false;
      while passes < |events| && !stop
        invariant Valid()
        invariant passes <= |events|
        invariant stop ==> result == (Snap(), passes)
        invariant !stop ==> RunFrom(bindings, Snap(), channel, events[passes..]).0 == result.0
        invariant !stop ==> passes + RunFrom(bindings, Snap(), channel, events[passes..]).1 == result.1
        decreases |events| - passes
      {
        ghost var s, q := Snap(), channel;
        ghost var rest := events[passes..];
        assert rest[0] == events[passes] && rest[1..] == events[passes + 1..];
        stop := RunIteration(events[passes]);
        passes := passes + 1;
      }
      if !stop {
        assert events[passes..] == [];
      }
    }
  }
}
