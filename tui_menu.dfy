/**
 * The older terminal front end's menu: a list of named entries, each tied
 * to a menu action, and a list selection that wraps around at both ends.
 */
module TuiMenu {
  import opened Wrappers

  /** What choosing a menu entry asks the application to do. */
  datatype MenuAction = InstallNeovimNightly | CheckForUpdates | CheckDependencies | Quit

  datatype MenuItem = MenuItem(name: string, action: MenuAction)

  /** The four entries the application builds its menu from, in display order. */
  function GetMenuItems(): (items: seq<MenuItem>)
    ensures |items| == 4
    ensures items[0].action == InstallNeovimNightly && items[1].action == CheckForUpdates
    ensures items[2].action == CheckDependencies && items[3].action == Quit
    ensures items[0].name == "Install Neovim Nightly" && items[1].name == "Check for updates"
    ensures items[2].name == "Dependencies" && items[3].name == "Quit"
  {
    [MenuItem("Install Neovim Nightly", InstallNeovimNightly),
     MenuItem("Check for updates", CheckForUpdates),
     MenuItem("Dependencies", CheckDependencies),
     MenuItem("Quit", Quit)]
  }

  /**
   * The index `next` selects: one further down, back to the top after the
   * last entry, and the top when nothing is selected.
   */
  function NextIndex(selected: Option<nat>, n: nat): (j: nat)
    requires selected.Some? ==> n > 0
    ensures selected.None? ==> j == 0
    ensures selected.Some? && selected.value >= n - 1 ==> j == 0
    ensures selected.Some? && selected.value < n - 1 ==> j == selected.value + 1
    ensures n > 0 ==> j < n
  {
    match selected
    case Some(i) => if i >= n - 1 then 0 else i + 1
    case None => 0
  }

  /**
   * The index `previous` selects: one further up, the last entry from the
   * top, and the top when nothing is selected.
   */
  function PrevIndex(selected: Option<nat>, n: nat): (j: nat)
    requires selected == Some(0) ==> n > 0
    ensures selected.None? ==> j == 0
    ensures selected == Some(0) ==> j == n - 1
    ensures selected.Some? && selected.value > 0 ==> j == selected.value - 1
    ensures n > 0 && (selected.Some? ==> selected.value < n) ==> j < n
  {
    match selected
    case Some(i) => if i == 0 then n - 1 else i - 1
    case None => 0
  }

  /** `next` then `previous` comes back to the entry it started from. */
  lemma NextThenPrevious(i: nat, n: nat)
    requires i < n
    ensures PrevIndex(Some(NextIndex(Some(i), n)), n) == i
  {
  }

  /** `previous` then `next` comes back to the entry it started from. */
  lemma PreviousThenNext(i: nat, n: nat)
    requires i < n
    ensures NextIndex(Some(PrevIndex(Some(i), n)), n) == i
  {
  }

  /** The selection after `k` calls of `next` starting from `i`. */
  function NextTimes(i: nat, n: nat, k: nat): (j: nat)
    requires i < n
    ensures j < n
    decreases k
  {
    if k == 0 then i else NextTimes(NextIndex(Some(i), n), n, k - 1)
  }

  /** Calls of `next` compose: `a` calls and then `b` more are `a + b` calls. */
  lemma {:induction false} NextTimesAdd(i: nat, n: nat, a: nat, b: nat)
    requires i < n
    ensures NextTimes(NextTimes(i, n, a), n, b) == NextTimes(i, n, a + b)
    decreases a
  {
    if a > 0 {
      NextTimesAdd(NextIndex(Some(i), n), n, a - 1, b);
    }
  }

  /** Away from the bottom entry, `k` calls of `next` move the selection `k` entries down. */
  lemma {:induction false} NextTimesDown(i: nat, n: nat, k: nat)
    requires i + k < n
    ensures NextTimes(i, n, k) == i + k
    decreases k
  {
    if k > 0 {
      NextTimesDown(i + 1, n, k - 1);
    }
  }

  /** As many calls of `next` as there are entries bring the selection back where it was. */
  lemma FullCycleRestores(i: nat, n: nat)
    requires i < n
    ensures NextTimes(i, n, n) == i
  {
    NextTimesDown(i, n, n - 1 - i);
    NextTimesAdd(i, n, n - 1 - i, i + 1);
    assert NextTimes(n - 1, n, i + 1) == NextTimes(0, n, i);
    NextTimesDown(0, n, i);
  }

  /** The menu with its list state; the selection is always present and in range. */
  class Menu {
    var items: seq<MenuItem>
    var selected: Option<nat>

    ghost predicate Valid()
      reads this
    {
      selected.Some? && (|items| > 0 ==> selected.value < |items|)
    }

    /** `Menu::new`: the given entries with the first one selected. */
    constructor (items: seq<MenuItem>)
      ensures Valid()
      ensures this.items == items && selected == Some(0)
    {
      this.items := items;
      selected := Some(0);
    }

    /** Moves the selection down, wrapping to the top; panics on an empty menu. */
    method Next()
      requires Valid() && |items| > 0
      modifies this
      ensures Valid()
      ensures items == old(items)
      ensures selected == Some(NextIndex(old(selected), |items|))
    {
      selected := Some(NextIndex(selected, |items|));
    }

    /** Moves the selection up, wrapping to the bottom; panics on an empty menu. */
    method Previous()
      requires Valid() && |items| > 0
      modifies this
      ensures Valid()
      ensures items == old(items)
      ensures selected == Some(PrevIndex(old(selected), |items|))
    {
      selected := Some(PrevIndex(selected, |items|));
    }

    /** The action of the selected entry (the first when none is selected); changes nothing. */
    method Select() returns (a: MenuAction)
      requires Valid() && |items| > 0
      ensures a == items[selected.UnwrapOr(0)].action
    {
      a := items[selected.UnwrapOr(0)].action;
    }
  }
}
