/**
 * The installer's list of the system tools it needs: for each, whether it
 * was found, its name, the command probed for it, and what needs it.
 */
module Dependency {
  import opened Strings

  datatype Dep = Dep(exist: bool, name: string, command: string, requiredBy: string)

  /** The table as declared, before any probing: nothing is known to exist yet. */
  const Dependencies: seq<Dep> := [
    Dep(false, "curl", "curl", "Mason.nvim"),
    Dep(false, "fd", "fd", "Telescope.nvim"),
    Dep(false, "git", "git", "Work with git"),
    Dep(false, "npm", "npm", "Mason.nvim"),
    Dep(false, "ripgrep", "rg", "Telescope.nvim"),
    Dep(false, "tar", "tar", "Mason.nvim"),
    Dep(false, "unzip", "unzip", "Mason.nvim"),
    Dep(false, "wget", "wget", "Neovim Nightly updater")
  ]

  /** Names in strictly ascending order, hence each name at most once. */
  predicate NamesSorted(ds: seq<Dep>)
  {
    forall i, j :: 0 <= i < j < |ds| ==> StrLess(ds[i].name, ds[j].name)
  }

  /** Strict order between neighbours is enough, by transitivity. */
  lemma {:induction false} NamesSortedFromNeighbours(ds: seq<Dep>)
    requires forall i :: 0 <= i < |ds| - 1 ==> StrLess(ds[i].name, ds[i + 1].name)
    ensures NamesSorted(ds)
  {
    forall i, j | 0 <= i < j < |ds|
      ensures StrLess(ds[i].name, ds[j].name)
    {
      NeighboursChain(ds, i, j);
    }
  }

  lemma {:induction false} NeighboursChain(ds: seq<Dep>, i: nat, j: nat)
    requires forall i :: 0 <= i < |ds| - 1 ==> StrLess(ds[i].name, ds[i + 1].name)
    requires i < j < |ds|
    ensures StrLess(ds[i].name, ds[j].name)
    decreases j - i
  {
    if i + 1 < j {
      NeighboursChain(ds, i + 1, j);
      StrLessTransitive(ds[i].name, ds[i + 1].name, ds[j].name);
    }
  }

  /** Sorted names are distinct names. */
  lemma NamesUnique(ds: seq<Dep>, i: nat, j: nat)
    requires NamesSorted(ds) && i < |ds| && j < |ds| && i != j
    ensures ds[i].name != ds[j].name
  {
    if i < j {
      StrLessIrreflexive(ds[i].name);
    } else {
      StrLessIrreflexive(ds[j].name);
    }
  }

  /**
   * Eight tools, none known to exist yet, each probed by its own name except
   * ripgrep, which is probed as "rg"; the names are unique and alphabetical.
   */
  lemma DependenciesTable()
    ensures |Dependencies| == 8
    ensures forall i :: 0 <= i < |Dependencies| ==> !Dependencies[i].exist
    ensures forall i :: 0 <= i < |Dependencies| ==>
      (Dependencies[i].name == "ripgrep" ==> Dependencies[i].command == "rg") &&
      (Dependencies[i].name != "ripgrep" ==> Dependencies[i].command == Dependencies[i].name)
    ensures NamesSorted(Dependencies)
  {
    var ds := Dependencies;
    assert StrLess(ds[0].name, ds[1].name);
    assert StrLess(ds[1].name, ds[2].name);
    assert StrLess(ds[2].name, ds[3].name);
    assert StrLess(ds[3].name, ds[4].name);
    assert StrLess(ds[4].name, ds[5].name);
    assert StrLess(ds[5].name, ds[6].name);
    assert StrLess(ds[6].name, ds[7].name);
    NamesSortedFromNeighbours(ds);
  }
}
