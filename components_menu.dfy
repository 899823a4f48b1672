/**
 * The menu component of the runtime: a list of item names with a bounded
 * (non-wrapping) selection that follows `Prev`/`Next` actions and the arrow
 * keys, and that turns `Select` into the action named by the selected item.
 */
module ComponentsMenu {
  import opened Wrappers
  import opened Action
  import opened Keys

  /** The item names the `Select` arm recognises. */
  const KnownItems: set<string> := {"Install Neovim", "Install NEVIRAIDE", "Check Dependencies", "Quit"}

  const UnknownItemPrefix: string := "Unknown menu item: "

  /** The action `Select` produces for the item called `name`. */
  function SelectAction(name: string): (a: Action)
    ensures a.Error? <==> name !in KnownItems
    ensures a.Error? ==> a.message == UnknownItemPrefix + name
    ensures a == InstallNeovimNightly <==> name == "Install Neovim"
    ensures a == InstallNeviraide <==> name == "Install NEVIRAIDE"
    ensures a == CheckDeps <==> name == "Check Dependencies"
    ensures a == Quit <==> name == "Quit"
    ensures a != Select
  {
    if name == "Install Neovim" then InstallNeovimNightly
    else if name == "Install NEVIRAIDE" then InstallNeviraide
    else if name == "Check Dependencies" then CheckDeps
    else if name == "Quit" then Quit
    else Error(UnknownItemPrefix + name)
  }

  /**
   * The selected index after `update(a)` on a menu of `n` items. `Next` reads
   * `n - 1`, which underflows on an empty menu, hence its precondition.
   */
  function UpdateIndex(i: nat, n: nat, a: Action): (j: nat)
    requires a.Next? ==> n > 0
    ensures i < n ==> j < n
    ensures a.Prev? ==> (i > 0 ==> j == i - 1) && (i == 0 ==> j == 0)
    ensures a.Next? ==> (i < n - 1 ==> j == i + 1) && (i >= n - 1 ==> j == i)
    ensures !a.Prev? && !a.Next? ==> j == i
  {
    match a
    case Prev => if i > 0 then i - 1 else i
    case Next => if i < n - 1 then i + 1 else i
    case _ => i
  }

  /** The index after `handle_key_events`: Up and Down move exactly as `Prev` and `Next` do. */
  function KeyIndex(i: nat, n: nat, code: KeyCode): (j: nat)
    requires code == Down ==> n > 0
    ensures code == Up ==> j == UpdateIndex(i, n, Prev)
    ensures code == Down ==> j == UpdateIndex(i, n, Next)
    ensures code != Up && code != Down ==> j == i
  {
    if code == Up then UpdateIndex(i, n, Prev)
    else if code == Down then UpdateIndex(i, n, Next)
    else i
  }

  /** What `update(a)` sends over the registered action channel. */
  function SentOnUpdate(items: seq<string>, i: nat, registered: bool, a: Action): (sent: seq<Action>)
    requires a.Select? ==> i < |items|
    ensures |sent| <= 1 && Select !in sent
    ensures |sent| == 1 <==> a.Select? && registered
    ensures |sent| == 1 ==> sent[0] == SelectAction(items[i])
  {
    if a.Select? && registered then [SelectAction(items[i])] else []
  }

  /** `k` successive `Next` actions from index `i`. */
  function NextTimes(i: nat, n: nat, k: nat): nat
    requires n > 0
    decreases k
  {
    if k == 0 then i else NextTimes(UpdateIndex(i, n, Next), n, k - 1)
  }

  /** The selection never wraps: `k` `Next`s from a valid index stop at the last item. */
  lemma {:induction false} NextTimesSaturates(i: nat, n: nat, k: nat)
    requires i < n
    ensures NextTimes(i, n, k) == if i + k < n - 1 then i + k else n - 1
    decreases k
  {
    if k > 0 {
      NextTimesSaturates(UpdateIndex(i, n, Next), n, k - 1);
    }
  }

  /** Away from the edges, `Next` then `Prev` (and `Prev` then `Next`) restore the selection. */
  lemma {:induction false} NextPrevRestore(i: nat, n: nat)
    requires n > 0
    ensures i < n - 1 ==> UpdateIndex(UpdateIndex(i, n, Next), n, Prev) == i
    ensures 0 < i < n ==> UpdateIndex(UpdateIndex(i, n, Prev), n, Next) == i
    ensures i == n - 1 ==> UpdateIndex(UpdateIndex(i, n, Next), n, Prev) == n - 2 || n == 1
  {
  }

  class Menu {
    var menuItems: seq<string>
    var selectedIndex: nat
    /** `list_state.selected()` */
    var listSelected: Option<nat>
    /** Whether `register_action_handler` has stored a sender (`command_tx`). */
    var registered: bool

    /** The list state mirrors the index, and the index is in range on a non-empty menu. */
    ghost predicate Valid()
      reads this
    {
      && listSelected == Some(selectedIndex)
      && (menuItems != [] ==> selectedIndex < |menuItems|)
      && (menuItems == [] ==> selectedIndex == 0)
    }

    constructor (items: seq<string>)
      ensures Valid()
      ensures menuItems == items && selectedIndex == 0 && listSelected == Some(0)
      ensures !registered
    {
      menuItems := items;
      selectedIndex := 0;
      listSelected := Some(0);
      registered := false;
    }

    method RegisterActionHandler()
      requires Valid()
      modifies this
      ensures Valid() && registered
      ensures menuItems == old(menuItems) && selectedIndex == old(selectedIndex)
    {
      registered := true;
    }

    /** Up/Down move the selection (Down panics on an empty menu), Enter asks for `Select`. */
    method HandleKeyEvents(key: KeyEvent) returns (r: Option<Action>)
      requires Valid()
      requires key.code == Down ==> menuItems != []
      modifies this
      ensures Valid()
      ensures menuItems == old(menuItems) && registered == old(registered)
      ensures selectedIndex == KeyIndex(old(selectedIndex), |menuItems|, key.code)
      ensures r == if key.code == Enter then Some(Select) else None
    {
      match key.code {
        case Up =>
          if selectedIndex > 0 {
            selectedIndex := selectedIndex - 1;
            listSelected := Some(selectedIndex);
          }
          r := None;
        case Down =>
          if selectedIndex < |menuItems| - 1 {
            selectedIndex := selectedIndex + 1;
            listSelected := Some(selectedIndex);
          }
          r := None;
        case Enter =>
          r := Some(Select);
        case _ =>
          r := None;
      }
    }

    /**
     * Applies a broadcast action. `update` itself always returns `None`; on
     * `Select` the chosen action goes out through the registered sender,
     * returned here as `sent`. `Next` and `Select` panic on an empty menu.
     */
    method Update(action: Action) returns (r: Option<Action>, sent: seq<Action>)
      requires Valid()
      requires action.Next? || action.Select? ==> menuItems != []
      modifies this
      ensures Valid()
      ensures menuItems == old(menuItems) && registered == old(registered)
      ensures r == None
      ensures selectedIndex == UpdateIndex(old(selectedIndex), |menuItems|, action)
      ensures sent == SentOnUpdate(menuItems, old(selectedIndex), registered, action)
    {
      sent := [];
      match action {
        case Prev =>
          if selectedIndex > 0 {
            selectedIndex := selectedIndex - 1;
            listSelected := Some(selectedIndex);
          }
        case Next =>
          if selectedIndex < |menuItems| - 1 {
            selectedIndex := selectedIndex + 1;
            listSelected := Some(selectedIndex);
          }
        case Select =>
          var chosen := SelectAction(menuItems[selectedIndex]);
          if registered {
            sent := [chosen];
          }
        case _ =>
      }
      r := None;
    }
  }
}
