/**
 * The older front end's key-binding table. Keys are ordered by the text of
 * their debug rendering, compared character by character, and the table is
 * kept as its in-order list of (key, action) entries, the way an ordered map
 * would iterate it. `FormatBindings` renders the help line that groups the
 * keys under their actions.
 */
module TuiKeymaps {
  import opened Wrappers
  import K = Keys
  import opened TuiApp
  import opened Strings

  // ---------------------------------------------------------------------------
  // Key order

  /** The debug rendering of a key code (`{:?}`). */
  function DebugText(k: K.KeyCode): string
  {
    match k
    case Backspace => "Backspace"
    case Enter => "Enter"
    case Left => "Left"
    case Right => "Right"
    case Up => "Up"
    case Down => "Down"
    case Home => "Home"
    case End => "End"
    case PageUp => "PageUp"
    case PageDown => "PageDown"
    case Tab => "Tab"
    case BackTab => "BackTab"
    case Delete => "Delete"
    case Insert => "Insert"
    case Null => "Null"
    case Esc => "Esc"
    case Char(c) => "Char('" + [c] + "')"
  }

  /** Different keys render differently, so the text order tells keys apart. */
  lemma DebugTextInjective(k1: K.KeyCode, k2: K.KeyCode)
    requires k1 != k2
    ensures DebugText(k1) != DebugText(k2)
  {
    CharTextStartsWithC(k1);
    CharTextStartsWithC(k2);
    if k1.Char? && k2.Char? {
      assert DebugText(k1)[6] == k1.c && DebugText(k2)[6] == k2.c;
    }
  }

  /** Only the rendering of a character key begins with a capital C. */
  lemma CharTextStartsWithC(k: K.KeyCode)
    ensures |DebugText(k)| > 0
    ensures k.Char? <==> DebugText(k)[0] == 'C'
  {
  }

  /** `OrdKeyCode::cmp`: keys ordered by their debug text. */
  predicate KeyLess(k1: K.KeyCode, k2: K.KeyCode)
  {
    StrLess(DebugText(k1), DebugText(k2))
  }

  /** Character keys are ordered by their characters. */
  lemma CharKeyOrder(c1: char, c2: char)
    ensures KeyLess(K.Char(c1), K.Char(c2)) <==> c1 < c2
  {
    var tail1, tail2 := [c1] + "')", [c2] + "')";
    assert DebugText(K.Char(c1)) == "Char('" + tail1;
    assert DebugText(K.Char(c2)) == "Char('" + tail2;
    StrLessCommonPrefix("Char('", tail1, tail2);
    if c1 == c2 {
      StrLessIrreflexive(tail1);
    }
  }

  /** The key order is a strict total order: irreflexive, transitive, and total on different keys. */
  lemma KeyLessIrreflexive(k: K.KeyCode)
    ensures !KeyLess(k, k)
  {
    StrLessIrreflexive(DebugText(k));
  }

  lemma KeyLessTotal(k1: K.KeyCode, k2: K.KeyCode)
    requires k1 != k2
    ensures KeyLess(k1, k2) || KeyLess(k2, k1)
  {
    DebugTextInjective(k1, k2);
    StrLessTotal(DebugText(k1), DebugText(k2));
  }

  lemma KeyLessTransitive(k1: K.KeyCode, k2: K.KeyCode, k3: K.KeyCode)
    requires KeyLess(k1, k2) && KeyLess(k2, k3)
    ensures KeyLess(k1, k3)
  {
    StrLessTransitive(DebugText(k1), DebugText(k2), DebugText(k3));
  }

  /** An order on keys, given as its "less than" relation. */
  type Order = (K.KeyCode, K.KeyCode) -> bool

  /** Irreflexive, transitive and total on different keys. */
  ghost predicate StrictTotal(less: Order)
  {
    && (forall k :: !less(k, k))
    && (forall k1, k2, k3 :: less(k1, k2) && less(k2, k3) ==> less(k1, k3))
    && (forall k1, k2 :: k1 != k2 ==> less(k1, k2) || less(k2, k1))
  }

  /** The order of `OrdKeyCode` is one. */
  lemma KeyLessStrictTotal()
    ensures StrictTotal(KeyLess)
  {
    forall k ensures !KeyLess(k, k) {
      KeyLessIrreflexive(k);
    }
    forall k1, k2, k3 | KeyLess(k1, k2) && KeyLess(k2, k3) ensures KeyLess(k1, k3) {
      KeyLessTransitive(k1, k2, k3);
    }
    forall k1, k2 | k1 != k2 ensures KeyLess(k1, k2) || KeyLess(k2, k1) {
      KeyLessTotal(k1, k2);
    }
  }

  // ---------------------------------------------------------------------------
  // The table

  /**
   * The table as the in-order list of its entries. The table's operations
   * take the key order as a parameter, so that what is proved of them holds
   * for any strict total order; the program's table uses `KeyLess`.
   */
  type Entries = seq<(K.KeyCode, TuiAction)>

  /** In strictly ascending key order, hence each key at most once. */
  predicate Sorted(e: Entries, less: Order)
  {
    forall i, j :: 0 <= i < j < |e| ==> less(e[i].0, e[j].0)
  }

  /** The keys bound in the table. */
  function KeysOf(e: Entries): set<K.KeyCode>
    decreases |e|
  {
    if e == [] then {} else {e[0].0} + KeysOf(e[1..])
  }

  /** The action bound to `k`, if any. */
  function Lookup(e: Entries, k: K.KeyCode): Option<TuiAction>
    decreases |e|
  {
    if e == [] then None
    else if e[0].0 == k then Some(e[0].1)
    else Lookup(e[1..], k)
  }

  /** A lookup finds nothing exactly for the keys the table does not bind, and otherwise finds an entry of the table. */
  lemma {:induction false} LookupBound(e: Entries, k: K.KeyCode)
    ensures Lookup(e, k).None? <==> k !in KeysOf(e)
    ensures Lookup(e, k).Some? ==> (k, Lookup(e, k).value) in e
    decreases |e|
  {
    if e != [] && e[0].0 != k {
      LookupBound(e[1..], k);
      if Lookup(e, k).Some? {
        assert (k, Lookup(e, k).value) in e[1..];
      }
    }
  }

  /** `BTreeMap::insert`: binds `k` to `v`, replacing an earlier binding, in key order. */
  function Insert(e: Entries, k: K.KeyCode, v: TuiAction, less: Order): Entries
    decreases |e|
  {
    if e == [] then [(k, v)]
    else if e[0].0 == k then [(k, v)] + e[1..]
    else if less(k, e[0].0) then [(k, v)] + e
    else [e[0]] + Insert(e[1..], k, v, less)
  }

  /** An insertion binds its key, in addition to the keys bound before. */
  lemma {:induction false} InsertKeys(e: Entries, k: K.KeyCode, v: TuiAction, less: Order)
    ensures KeysOf(Insert(e, k, v, less)) == KeysOf(e) + {k}
    decreases |e|
  {
    if e == [] {
      KeysOfCons((k, v), []);
    } else if e[0].0 == k {
      InsertKeysReplace(e, k, v, less);
    } else if less(k, e[0].0) {
      KeysOfCons((k, v), e);
    } else {
      InsertKeys(e[1..], k, v, less);
      InsertKeysSkip(e, k, v, less);
    }
  }

  lemma InsertKeysReplace(e: Entries, k: K.KeyCode, v: TuiAction, less: Order)
    requires e != [] && e[0].0 == k
    ensures KeysOf(Insert(e, k, v, less)) == KeysOf(e) + {k}
  {
    assert Insert(e, k, v, less) == [(k, v)] + e[1..];
    KeysOfCons((k, v), e[1..]);
    KeysOfCons(e[0], e[1..]);
    assert [e[0]] + e[1..] == e;
  }

  lemma InsertKeysSkip(e: Entries, k: K.KeyCode, v: TuiAction, less: Order)
    requires e != [] && e[0].0 != k && !less(k, e[0].0)
    requires KeysOf(Insert(e[1..], k, v, less)) == KeysOf(e[1..]) + {k}
    ensures KeysOf(Insert(e, k, v, less)) == KeysOf(e) + {k}
  {
    assert Insert(e, k, v, less) == [e[0]] + Insert(e[1..], k, v, less);
    KeysOfCons(e[0], Insert(e[1..], k, v, less));
    KeysOfCons(e[0], e[1..]);
    assert [e[0]] + e[1..] == e;
  }

  /** The keys of a table with one more entry in front. */
  lemma KeysOfCons(x: (K.KeyCode, TuiAction), e: Entries)
    ensures KeysOf([x] + e) == {x.0} + KeysOf(e)
  {
    assert ([x] + e)[1..] == e;
  }

  /** After an insertion the new key has the new action and every other key keeps its own. */
  lemma {:induction false} InsertLookup(e: Entries, k: K.KeyCode, v: TuiAction, less: Order, k': K.KeyCode)
    ensures Lookup(Insert(e, k, v, less), k') == if k' == k then Some(v) else Lookup(e, k')
    decreases |e|
  {
    if e == [] {
      LookupCons((k, v), [], k');
    } else if e[0].0 == k {
      InsertLookupReplace(e, k, v, less, k');
    } else if less(k, e[0].0) {
      LookupCons((k, v), e, k');
    } else {
      InsertLookup(e[1..], k, v, less, k');
      InsertLookupSkip(e, k, v, less, k');
    }
  }

  /** Inserting a key the table's first entry binds replaces that entry. */
  lemma InsertLookupReplace(e: Entries, k: K.KeyCode, v: TuiAction, less: Order, k': K.KeyCode)
    requires e != [] && e[0].0 == k
    ensures Lookup(Insert(e, k, v, less), k') == if k' == k then Some(v) else Lookup(e, k')
  {
    assert Insert(e, k, v, less) == [(k, v)] + e[1..];
    LookupCons((k, v), e[1..], k');
    LookupCons(e[0], e[1..], k');
    assert [e[0]] + e[1..] == e;
  }

  /** Inserting a key above the table's first key leaves that entry in front. */
  lemma InsertLookupSkip(e: Entries, k: K.KeyCode, v: TuiAction, less: Order, k': K.KeyCode)
    requires e != [] && e[0].0 != k && !less(k, e[0].0)
    requires Lookup(Insert(e[1..], k, v, less), k') == if k' == k then Some(v) else Lookup(e[1..], k')
    ensures Lookup(Insert(e, k, v, less), k') == if k' == k then Some(v) else Lookup(e, k')
  {
    assert Insert(e, k, v, less) == [e[0]] + Insert(e[1..], k, v, less);
    LookupCons(e[0], Insert(e[1..], k, v, less), k');
    LookupCons(e[0], e[1..], k');
    assert [e[0]] + e[1..] == e;
  }

  /** Looking up in a table with one more entry in front. */
  lemma LookupCons(x: (K.KeyCode, TuiAction), e: Entries, k: K.KeyCode)
    ensures Lookup([x] + e, k) == if x.0 == k then Some(x.1) else Lookup(e, k)
  {
    assert ([x] + e)[1..] == e;
  }

  /** The tail of a table in key order is in key order. */
  lemma TailSorted(e: Entries, less: Order)
    requires Sorted(e, less) && e != []
    ensures Sorted(e[1..], less)
  {
    var t := e[1..];
    forall i, j | 0 <= i < j < |t| ensures less(t[i].0, t[j].0) {
      assert t[i] == e[i + 1] && t[j] == e[j + 1];
    }
  }

  /** Every key bound in a sorted table comes after the table's first key. */
  lemma {:induction false} SortedTail(e: Entries, less: Order, k: K.KeyCode)
    requires StrictTotal(less)
    requires Sorted(e, less) && e != [] && k in KeysOf(e[1..])
    ensures less(e[0].0, k)
    decreases |e|
  {
    var t := e[1..];
    if t[0].0 != k {
      assert t[1..] == e[2..];
      TailSorted(e, less);
      SortedTail(t, less, k);
      assert less(e[0].0, t[0].0);
    }
  }

  /** Inserting into a table in key order keeps it in key order. */
  lemma {:induction false} InsertSorted(e: Entries, k: K.KeyCode, v: TuiAction, less: Order)
    requires StrictTotal(less) && Sorted(e, less)
    ensures Sorted(Insert(e, k, v, less), less)
    decreases |e|
  {
    if e == [] {
    } else if e[0].0 == k {
      InsertSortedReplace(e, k, v, less);
    } else if less(k, e[0].0) {
      InsertSortedFront(e, k, v, less);
    } else {
      TailSorted(e, less);
      InsertSorted(e[1..], k, v, less);
      InsertSortedSkip(e, k, v, less);
    }
  }

  lemma InsertSortedReplace(e: Entries, k: K.KeyCode, v: TuiAction, less: Order)
    requires Sorted(e, less) && e != [] && e[0].0 == k
    ensures Sorted(Insert(e, k, v, less), less)
  {
    assert Insert(e, k, v, less) == [(k, v)] + e[1..];
    TailSorted(e, less);
    forall j | 0 <= j < |e[1..]| ensures less(k, e[1..][j].0) {
      assert e[1..][j] == e[j + 1];
    }
    ConsSorted((k, v), e[1..], less);
  }

  lemma InsertSortedFront(e: Entries, k: K.KeyCode, v: TuiAction, less: Order)
    requires StrictTotal(less) && Sorted(e, less) && e != [] && less(k, e[0].0)
    ensures Sorted(Insert(e, k, v, less), less)
  {
    assert e[0].0 != k;
    assert Insert(e, k, v, less) == [(k, v)] + e;
    forall j | 0 <= j < |e| ensures less(k, e[j].0) {
      if j > 0 {
        assert less(e[0].0, e[j].0);
      }
    }
    ConsSorted((k, v), e, less);
  }

  lemma InsertSortedSkip(e: Entries, k: K.KeyCode, v: TuiAction, less: Order)
    requires StrictTotal(less) && Sorted(e, less) && e != [] && e[0].0 != k && !less(k, e[0].0)
    requires Sorted(Insert(e[1..], k, v, less), less)
    ensures Sorted(Insert(e, k, v, less), less)
  {
    var rest := Insert(e[1..], k, v, less);
    InsertKeys(e[1..], k, v, less);
    assert Insert(e, k, v, less) == [e[0]] + rest;
    HeadBelowRest(e, k, rest, less);
    ConsSorted(e[0], rest, less);
  }

  /** The first key of a sorted table is below every key of its tail with a larger key added. */
  lemma HeadBelowRest(e: Entries, k: K.KeyCode, rest: Entries, less: Order)
    requires StrictTotal(less) && Sorted(e, less) && e != [] && less(e[0].0, k)
    requires KeysOf(rest) == KeysOf(e[1..]) + {k}
    ensures forall j :: 0 <= j < |rest| ==> less(e[0].0, rest[j].0)
  {
    forall j | 0 <= j < |rest| ensures less(e[0].0, rest[j].0) {
      KeysOfContains(rest, j);
      if rest[j].0 != k {
        SortedTail(e, less, rest[j].0);
      }
    }
  }

  /** A key below every key of a table in key order can go in front of it. */
  lemma ConsSorted(x: (K.KeyCode, TuiAction), rest: Entries, less: Order)
    requires Sorted(rest, less)
    requires forall j :: 0 <= j < |rest| ==> less(x.0, rest[j].0)
    ensures Sorted([x] + rest, less)
  {
    var r := [x] + rest;
    forall i, j | 0 <= i < j < |r| ensures less(r[i].0, r[j].0) {
      if i == 0 {
        assert r[j] == rest[j - 1];
      } else {
        assert r[i] == rest[i - 1] && r[j] == rest[j - 1];
      }
    }
  }

  lemma {:induction false} KeysOfContains(e: Entries, i: nat)
    requires i < |e|
    ensures e[i].0 in KeysOf(e)
    decreases i
  {
    if i > 0 {
      KeysOfContains(e[1..], i - 1);
    }
  }

  /** The table built by `KeyBindings::new`, in key order. */
  const DefaultEntries: Entries := [
    (K.Char('j'), Next), (K.Char('k'), Previous), (K.Char('n'), Next), (K.Char('p'), Previous),
    (K.Char('q'), Quit), (K.Down, Next), (K.Enter, Select), (K.Esc, Quit), (K.Up, Previous)]

  datatype KeyBindings = KeyBindings(entries: Entries)

  /** `KeyBindings::new`: nine insertions, which leave the table in key order. */
  method New() returns (kb: KeyBindings)
    ensures kb.entries == DefaultEntries
  {
    KeyLessStrictTotal();
    var e: Entries := [];
    e := Insert(e, K.Char('j'), Next, KeyLess);
    InsertSorted([], K.Char('j'), Next, KeyLess);
    var e1 := e;
    e := Insert(e, K.Char('n'), Next, KeyLess);
    InsertSorted(e1, K.Char('n'), Next, KeyLess);
    var e2 := e;
    e := Insert(e, K.Down, Next, KeyLess);
    InsertSorted(e2, K.Down, Next, KeyLess);
    var e3 := e;
    e := Insert(e, K.Char('k'), Previous, KeyLess);
    InsertSorted(e3, K.Char('k'), Previous, KeyLess);
    var e4 := e;
    e := Insert(e, K.Char('p'), Previous, KeyLess);
    InsertSorted(e4, K.Char('p'), Previous, KeyLess);
    var e5 := e;
    e := Insert(e, K.Up, Previous, KeyLess);
    InsertSorted(e5, K.Up, Previous, KeyLess);
    var e6 := e;
    e := Insert(e, K.Enter, Select, KeyLess);
    InsertSorted(e6, K.Enter, Select, KeyLess);
    var e7 := e;
    e := Insert(e, K.Char('q'), Quit, KeyLess);
    InsertSorted(e7, K.Char('q'), Quit, KeyLess);
    var e8 := e;
    e := Insert(e, K.Esc, Quit, KeyLess);
    InsertSorted(e8, K.Esc, Quit, KeyLess);
    forall k ensures Lookup(e, k) == Lookup(DefaultEntries, k) {
      InsertLookup([], K.Char('j'), Next, KeyLess, k);
      InsertLookup(e1, K.Char('n'), Next, KeyLess, k);
      InsertLookup(e2, K.Down, Next, KeyLess, k);
      InsertLookup(e3, K.Char('k'), Previous, KeyLess, k);
      InsertLookup(e4, K.Char('p'), Previous, KeyLess, k);
      InsertLookup(e5, K.Up, Previous, KeyLess, k);
      InsertLookup(e6, K.Enter, Select, KeyLess, k);
      InsertLookup(e7, K.Char('q'), Quit, KeyLess, k);
      InsertLookup(e8, K.Esc, Quit, KeyLess, k);
      assert Lookup(e, k) == KeyToAction(k);
      DefaultAgreesWithEventHandler(k);
    }
    DefaultEntriesSorted();
    SortedUnique(e, DefaultEntries, KeyLess);
    kb := KeyBindings(e);
  }

  /**
   * A table in key order is determined by what it binds: two such tables
   * that give every key the same lookup are the same list.
   */
  lemma {:induction false} SortedUnique(e1: Entries, e2: Entries, less: Order)
    requires StrictTotal(less) && Sorted(e1, less) && Sorted(e2, less)
    requires forall k :: Lookup(e1, k) == Lookup(e2, k)
    ensures e1 == e2
    decreases |e1|
  {
    EmptyBindsNothing(e1);
    EmptyBindsNothing(e2);
    if e1 != [] && e2 != [] {
      var a, b := e1[0].0, e2[0].0;
      assert Lookup(e2, a).Some? && Lookup(e1, b).Some?;
      LookupBound(e2, a);
      LookupBound(e1, b);
      if a != b {
        if less(a, b) {
          HeadIsLeast(e2, less, a);
        } else {
          HeadIsLeast(e1, less, b);
        }
      }
      TailSorted(e1, less);
      TailSorted(e2, less);
      HeadNotInTail(e1, less);
      HeadNotInTail(e2, less);
      forall k ensures Lookup(e1[1..], k) == Lookup(e2[1..], k) {
        LookupBound(e1[1..], k);
        LookupBound(e2[1..], k);
        if k != a {
          assert Lookup(e1[1..], k) == Lookup(e1, k);
          assert Lookup(e2[1..], k) == Lookup(e2, k);
        }
      }
      SortedUnique(e1[1..], e2[1..], less);
      assert e1 == [e1[0]] + e1[1..] && e2 == [e2[0]] + e2[1..];
    }
  }

  /** No key bound in a sorted table comes before its first key. */
  lemma HeadIsLeast(e: Entries, less: Order, k: K.KeyCode)
    requires StrictTotal(less) && Sorted(e, less) && e != [] && k in KeysOf(e)
    ensures !less(k, e[0].0)
  {
    if k != e[0].0 {
      SortedTail(e, less, k);
    }
  }

  /** Only the empty table binds no key. */
  lemma EmptyBindsNothing(e: Entries)
    ensures e == [] <==> forall k :: Lookup(e, k).None?
  {
    if e != [] {
      assert Lookup(e, e[0].0).Some?;
    }
  }

  /** The first key of a table in key order is bound only once. */
  lemma HeadNotInTail(e: Entries, less: Order)
    requires StrictTotal(less) && Sorted(e, less) && e != []
    ensures e[0].0 !in KeysOf(e[1..])
  {
    if e[0].0 in KeysOf(e[1..]) {
      SortedTail(e, less, e[0].0);
    }
  }

  /** A table whose neighbouring keys are in order is in key order throughout. */
  lemma SortedFromNeighbours(e: Entries, less: Order)
    requires StrictTotal(less)
    requires forall i :: 0 <= i < |e| - 1 ==> less(e[i].0, e[i + 1].0)
    ensures Sorted(e, less)
  {
    forall i, j | 0 <= i < j < |e| ensures less(e[i].0, e[j].0) {
      NeighboursChain(e, less, i, j);
    }
  }

  lemma {:induction false} NeighboursChain(e: Entries, less: Order, i: nat, j: nat)
    requires StrictTotal(less)
    requires forall i :: 0 <= i < |e| - 1 ==> less(e[i].0, e[i + 1].0)
    requires i < j < |e|
    ensures less(e[i].0, e[j].0)
    decreases j - i
  {
    if j > i + 1 {
      NeighboursChain(e, less, i + 1, j);
      assert less(e[i].0, e[i + 1].0);
    }
  }

  /** Appending a key above every key of a table in key order keeps it in key order. */
  lemma SortedSnoc(e: Entries, x: (K.KeyCode, TuiAction), less: Order)
    requires StrictTotal(less) && Sorted(e, less)
    requires e != [] ==> less(e[|e| - 1].0, x.0)
    ensures Sorted(e + [x], less)
  {
    var r := e + [x];
    forall i, j | 0 <= i < j < |r| ensures less(r[i].0, r[j].0) {
      if j == |e| && i < |e| - 1 {
        assert less(e[i].0, e[|e| - 1].0);
      }
    }
  }

  /** The default table is in key order. */
  lemma DefaultEntriesSorted()
    ensures Sorted(DefaultEntries, KeyLess)
  {
    KeyLessStrictTotal();
    DefaultPrefixSorted(|DefaultEntries|);
    assert DefaultEntries[..|DefaultEntries|] == DefaultEntries;
  }

  lemma {:induction false} DefaultPrefixSorted(n: nat)
    requires StrictTotal(KeyLess) && n <= |DefaultEntries|
    ensures Sorted(DefaultEntries[..n], KeyLess)
  {
    var e := DefaultEntries;
    if n > 0 {
      DefaultPrefixSorted(n - 1);
      if n > 1 {
        DefaultNeighbours(n - 2);
      }
      PrefixSnoc(e, n - 1);
      SortedSnoc(e[..n - 1], e[n - 1], KeyLess);
    }
  }

  /** One more entry at the end of a prefix. */
  lemma PrefixSnoc(e: Entries, n: nat)
    requires n < |e|
    ensures e[..n + 1] == e[..n] + [e[n]]
  {
  }

  /** Each key of the default table comes before the next one. */
  lemma DefaultNeighbours(i: nat)
    requires i < |DefaultEntries| - 1
    ensures KeyLess(DefaultEntries[i].0, DefaultEntries[i + 1].0)
  {
    match i {
      case 0 => CharKeyOrder('j', 'k');
      case 1 => CharKeyOrder('k', 'n');
      case 2 => CharKeyOrder('n', 'p');
      case 3 => CharKeyOrder('p', 'q');
      case 4 => assert KeyLess(K.Char('q'), K.Down);
      case 5 => assert KeyLess(K.Down, K.Enter);
      case 6 => assert KeyLess(K.Enter, K.Esc);
      case 7 => assert KeyLess(K.Esc, K.Up);
    }
  }

  /** `get_action`: the bound action, or none for an unbound key. */
  function GetAction(kb: KeyBindings, k: K.KeyCode): (r: Option<TuiAction>)
    ensures r.None? <==> k !in KeysOf(kb.entries)
    ensures r.Some? ==> (k, r.value) in kb.entries
  {
    LookupBound(kb.entries, k);
    Lookup(kb.entries, k)
  }

  /** The table binds exactly the keys the event handler reacts to, to the same actions. */
  lemma DefaultAgreesWithEventHandler(k: K.KeyCode)
    ensures GetAction(KeyBindings(DefaultEntries), k) == KeyToAction(k)
  {
  }

  // ---------------------------------------------------------------------------
  // The help line

  /**
   * How a key is shown in the help line: a character key as the character
   * itself, the arrow keys as nothing at all, and every other key under its
   * debug name.
   */
  function KeyDisplay(k: K.KeyCode): (d: string)
    ensures d == "" <==> k == K.Up || k == K.Down
    ensures k.Char? ==> d == [k.c]
    ensures !k.Char? && k != K.Up && k != K.Down ==> d == DebugText(k)
  {
    match k
    case Char(c) => [c]
    case Down => ""
    case Up => ""
    case Enter => "Enter"
    case Esc => "Esc"
    case _ => DebugText(k)
  }

  /** The debug rendering of an action. */
  function ActionName(a: TuiAction): string
  {
    match a
    case Select => "Select"
    case Next => "Next"
    case Previous => "Previous"
    case Quit => "Quit"
  }

  /** The actions in their declared order, which is the order the help line groups them in. */
  const ActionOrder: seq<TuiAction> := [Select, Next, Previous, Quit]

  /** `join`: the parts with `sep` between each two. */
  function Join(parts: seq<string>, sep: string): string
    decreases |parts|
  {
    if parts == [] then ""
    else if |parts| == 1 then parts[0]
    else parts[0] + sep + Join(parts[1..], sep)
  }

  /** The displayed keys bound to `a`, in table order. */
  function GroupKeys(e: Entries, a: TuiAction): (keys: seq<string>)
    ensures |keys| <= |e|
    decreases |e|
  {
    if e == [] then []
    else
      GroupKeys(e[..|e| - 1], a) + Contribution(e[|e| - 1], a)
  }

  /** What one binding adds to the group of `a`: its displayed key if it is bound to `a`. */
  function Contribution(x: (K.KeyCode, TuiAction), a: TuiAction): seq<string>
  {
    if x.1 == a then [KeyDisplay(x.0)] else []
  }

  /** The group lines for `actions`, skipping actions nothing is bound to. */
  function Lines(e: Entries, actions: seq<TuiAction>): seq<string>
    decreases |actions|
  {
    if actions == [] then []
    else
      var a := actions[|actions| - 1];
      Lines(e, actions[..|actions| - 1]) + (if GroupKeys(e, a) != [] then [GroupLine(e, a)] else [])
  }

  /** One action's part of the help line: its name, then its keys separated by bars. */
  function GroupLine(e: Entries, a: TuiAction): string
  {
    ActionName(a) + ": " + Join(GroupKeys(e, a), " | ")
  }

  /** The whole help line. */
  function FormattedText(e: Entries): string
  {
    Join(Lines(e, ActionOrder), "     ")
  }

  /** `format_bindings`: groups the keys under their actions, then renders the groups in action order. */
  method FormatBindings(kb: KeyBindings) returns (s: string)
    ensures s == FormattedText(kb.entries)
  {
    var e := kb.entries;
    var groups := GroupByAction(e);
    var lines: seq<string> := [];
    for j := 0 to |ActionOrder|
      invariant lines == Lines(e, ActionOrder[..j])
    {
      assert ActionOrder[..j + 1][..j] == ActionOrder[..j];
      var a := ActionOrder[j];
      LinesSnoc(e, ActionOrder[..j], a);
      if a in groups {
        var line := ActionName(a) + ": " + Join(groups[a], " | ");
        assert line == GroupLine(e, a);
        lines := lines + [line];
      }
    }
    assert ActionOrder[..|ActionOrder|] == ActionOrder;
    s := Join(lines, "     ");
  }

  /** The first loop of `format_bindings`: each binding's displayed key appended to its action's list. */
  method GroupByAction(e: Entries) returns (groups: map<TuiAction, seq<string>>)
    ensures forall a :: a in groups <==> GroupKeys(e, a) != []
    ensures forall a :: a in groups ==> groups[a] == GroupKeys(e, a)
  {
    groups := map[];
    for i := 0 to |e|
      invariant forall a :: a in groups <==> GroupKeys(e[..i], a) != []
      invariant forall a :: a in groups ==> groups[a] == GroupKeys(e[..i], a)
    {
      assert e[..i + 1][..i] == e[..i] && e[..i + 1][i] == e[i];
      var key := e[i].0;
      var action := e[i].1;
      var keys := if action in groups then groups[action] else [];
      groups := groups[action := keys + [KeyDisplay(key)]];
    }
    assert e[..|e|] == e;
  }

  /** Each binding contributes one key to the group of its own action and to no other. */
  lemma {:induction false} GroupsCountBindings(e: Entries)
    ensures |GroupKeys(e, Select)| + |GroupKeys(e, Next)| + |GroupKeys(e, Previous)| + |GroupKeys(e, Quit)| == |e|
    ensures forall i :: 0 <= i < |e| ==> KeyDisplay(e[i].0) in GroupKeys(e, e[i].1)
    decreases |e|
  {
    if e != [] {
      var init := e[..|e| - 1];
      GroupsCountBindings(init);
      forall i | 0 <= i < |e|
        ensures KeyDisplay(e[i].0) in GroupKeys(e, e[i].1)
      {
        if i < |e| - 1 {
          assert e[i] == init[i];
        }
      }
    }
  }

  /** Appending a binding adds its displayed key to the end of its own action's group only. */
  lemma GroupKeysSnoc(e: Entries, x: (K.KeyCode, TuiAction), a: TuiAction)
    ensures GroupKeys(e + [x], a) == GroupKeys(e, a) + Contribution(x, a)
  {
    assert (e + [x])[..|e|] == e;
  }

  /** The expected key group of each action in the default table. */
  function DefaultGroup(a: TuiAction): seq<string>
  {
    match a
    case Select => ["Enter"]
    case Next => ["j", "n", ""]
    case Previous => ["k", "p", ""]
    case Quit => ["q", "Esc"]
  }

  /** The key groups of the default table. */
  lemma DefaultGroups(a: TuiAction)
    ensures GroupKeys(DefaultEntries, a) == DefaultGroup(a)
  {
    match a {
      case Select => DefaultSelectGroup();
      case Next => DefaultNextGroup();
      case Previous => DefaultPreviousGroup();
      case Quit => DefaultQuitGroup();
    }
  }

  lemma DefaultSelectGroup()
    ensures GroupKeys(DefaultEntries, Select) == ["Enter"]
  {
    GroupKeysOfNine(
      (K.Char('j'), Next), (K.Char('k'), Previous), (K.Char('n'), Next), (K.Char('p'), Previous),
      (K.Char('q'), Quit), (K.Down, Next), (K.Enter, Select), (K.Esc, Quit), (K.Up, Previous), Select);
  }

  lemma DefaultNextGroup()
    ensures GroupKeys(DefaultEntries, Next) == ["j", "n", ""]
  {
    GroupKeysOfNine(
      (K.Char('j'), Next), (K.Char('k'), Previous), (K.Char('n'), Next), (K.Char('p'), Previous),
      (K.Char('q'), Quit), (K.Down, Next), (K.Enter, Select), (K.Esc, Quit), (K.Up, Previous), Next);
  }

  lemma DefaultPreviousGroup()
    ensures GroupKeys(DefaultEntries, Previous) == ["k", "p", ""]
  {
    GroupKeysOfNine(
      (K.Char('j'), Next), (K.Char('k'), Previous), (K.Char('n'), Next), (K.Char('p'), Previous),
      (K.Char('q'), Quit), (K.Down, Next), (K.Enter, Select), (K.Esc, Quit), (K.Up, Previous), Previous);
  }

  lemma DefaultQuitGroup()
    ensures GroupKeys(DefaultEntries, Quit) == ["q", "Esc"]
  {
    GroupKeysOfNine(
      (K.Char('j'), Next), (K.Char('k'), Previous), (K.Char('n'), Next), (K.Char('p'), Previous),
      (K.Char('q'), Quit), (K.Down, Next), (K.Enter, Select), (K.Esc, Quit), (K.Up, Previous), Quit);
  }

  /** The group of a nine-entry table, entry by entry. */
  lemma GroupKeysOfNine(x0: (K.KeyCode, TuiAction), x1: (K.KeyCode, TuiAction), x2: (K.KeyCode, TuiAction), x3: (K.KeyCode, TuiAction), x4: (K.KeyCode, TuiAction), x5: (K.KeyCode, TuiAction), x6: (K.KeyCode, TuiAction), x7: (K.KeyCode, TuiAction), x8: (K.KeyCode, TuiAction), a: TuiAction)
    ensures GroupKeys([x0, x1, x2, x3, x4, x5, x6, x7, x8], a) ==
      Contribution(x0, a) + Contribution(x1, a) + Contribution(x2, a) +
      Contribution(x3, a) + Contribution(x4, a) + Contribution(x5, a) +
      Contribution(x6, a) + Contribution(x7, a) + Contribution(x8, a)
  {
    NineDisplays(x0, x1, x2, x3, x4, x5, x6, x7, x8);
    var none: Entries := [];
    assert GroupKeys(none, a) + Contribution(x0, a) == Contribution(x0, a);
    GroupKeysSnoc(none, x0, a);
    GroupKeysSnoc([x0], x1, a);
    GroupKeysSnoc([x0, x1], x2, a);
    GroupKeysSnoc([x0, x1, x2], x3, a);
    GroupKeysSnoc([x0, x1, x2, x3], x4, a);
    GroupKeysSnoc([x0, x1, x2, x3, x4], x5, a);
    GroupKeysSnoc([x0, x1, x2, x3, x4, x5], x6, a);
    GroupKeysSnoc([x0, x1, x2, x3, x4, x5, x6], x7, a);
    GroupKeysSnoc([x0, x1, x2, x3, x4, x5, x6, x7], x8, a);
  }

  /** A display of nine elements built one element at a time. */
  lemma NineDisplays<T>(x0: T, x1: T, x2: T, x3: T, x4: T, x5: T, x6: T, x7: T, x8: T)
    ensures [] + [x0] == [x0]
    ensures [x0] + [x1] == [x0, x1]
    ensures [x0, x1] + [x2] == [x0, x1, x2]
    ensures [x0, x1, x2] + [x3] == [x0, x1, x2, x3]
    ensures [x0, x1, x2, x3] + [x4] == [x0, x1, x2, x3, x4]
    ensures [x0, x1, x2, x3, x4] + [x5] == [x0, x1, x2, x3, x4, x5]
    ensures [x0, x1, x2, x3, x4, x5] + [x6] == [x0, x1, x2, x3, x4, x5, x6]
    ensures [x0, x1, x2, x3, x4, x5, x6] + [x7] == [x0, x1, x2, x3, x4, x5, x6, x7]
    ensures [x0, x1, x2, x3, x4, x5, x6, x7] + [x8] == [x0, x1, x2, x3, x4, x5, x6, x7, x8]
  {
  }

  /** One more action's line at the end of the help line's list. */
  lemma LinesSnoc(e: Entries, actions: seq<TuiAction>, a: TuiAction)
    ensures Lines(e, actions + [a]) == Lines(e, actions) +
      (if GroupKeys(e, a) != [] then [GroupLine(e, a)] else [])
  {
    assert (actions + [a])[..|actions|] == actions;
  }

  /** The displayed line of each action, for a table with the default table's key groups. */
  function DefaultLine(a: TuiAction): string
  {
    match a
    case Select => "Select: Enter"
    case Next => "Next: j | n | "
    case Previous => "Previous: k | p | "
    case Quit => "Quit: q | Esc"
  }

  /** The line each action's default group renders as. */
  lemma DefaultLineText(a: TuiAction)
    ensures ActionName(a) + ": " + Join(DefaultGroup(a), " | ") == DefaultLine(a)
  {
    match a {
      case Select =>
      case Next => NextLineText();
      case Previous => PreviousLineText();
      case Quit => QuitLineText();
    }
  }

  lemma NextLineText()
    ensures "Next" + ": " + Join(["j", "n", ""], " | ") == "Next: j | n | "
  {
    JoinThree("j", "n", "", " | ");
  }

  lemma PreviousLineText()
    ensures "Previous" + ": " + Join(["k", "p", ""], " | ") == "Previous: k | p | "
  {
    JoinThree("k", "p", "", " | ");
  }

  lemma QuitLineText()
    ensures "Quit" + ": " + Join(["q", "Esc"], " | ") == "Quit: q | Esc"
  {
    JoinTwo("q", "Esc", " | ");
  }

  lemma JoinTwo(x: string, y: string, sep: string)
    ensures Join([x, y], sep) == x + sep + y
  {
    assert [x, y][1..] == [y];
  }

  lemma JoinThree(x: string, y: string, z: string, sep: string)
    ensures Join([x, y, z], sep) == x + sep + (y + sep + z)
  {
    assert [x, y, z][1..] == [y, z];
    JoinTwo(y, z, sep);
  }

  lemma JoinFour(w: string, x: string, y: string, z: string, sep: string)
    ensures Join([w, x, y, z], sep) == w + sep + (x + sep + (y + sep + z))
  {
    assert [w, x, y, z][1..] == [x, y, z];
    JoinThree(x, y, z, sep);
  }

  /** The group lines of a table that binds a key to every action: one line per action, in order. */
  lemma LinesAllBound(e: Entries)
    requires forall a :: GroupKeys(e, a) != []
    ensures Lines(e, ActionOrder) ==
      [GroupLine(e, Select), GroupLine(e, Next), GroupLine(e, Previous), GroupLine(e, Quit)]
  {
    LinesOfFour(e, Select, Next, Previous, Quit);
  }

  lemma LinesOfFour(e: Entries, a0: TuiAction, a1: TuiAction, a2: TuiAction, a3: TuiAction)
    requires GroupKeys(e, a0) != [] && GroupKeys(e, a1) != [] && GroupKeys(e, a2) != [] && GroupKeys(e, a3) != []
    ensures Lines(e, [a0, a1, a2, a3]) == [GroupLine(e, a0), GroupLine(e, a1), GroupLine(e, a2), GroupLine(e, a3)]
  {
    var none: seq<TuiAction> := [];
    SnocDisplays(a0, a1, a2, a3);
    LinesSnoc(e, none, a0);
    LinesSnoc(e, [a0], a1);
    LinesSnoc(e, [a0, a1], a2);
    LinesSnoc(e, [a0, a1, a2], a3);
  }

  /** A display of up to four elements built one element at a time. */
  lemma SnocDisplays<T>(x0: T, x1: T, x2: T, x3: T)
    ensures [] + [x0] == [x0]
    ensures [x0] + [x1] == [x0, x1]
    ensures [x0, x1] + [x2] == [x0, x1, x2]
    ensures [x0, x1, x2] + [x3] == [x0, x1, x2, x3]
  {
  }

  /** Each action's line in the default table. */
  lemma DefaultGroupLine(a: TuiAction)
    ensures GroupKeys(DefaultEntries, a) != []
    ensures GroupLine(DefaultEntries, a) == DefaultLine(a)
  {
    DefaultGroups(a);
    DefaultLineText(a);
  }

  /**
   * The help line for the default table. Up and Down display as nothing, so
   * the Next and Previous groups end in a separator with nothing after it.
   */
  lemma DefaultFormatting()
    ensures Lines(DefaultEntries, ActionOrder) ==
      ["Select: Enter", "Next: j | n | ", "Previous: k | p | ", "Quit: q | Esc"]
    ensures FormattedText(DefaultEntries) ==
      "Select: Enter" + "     " + ("Next: j | n | " + "     " + ("Previous: k | p | " + "     " + "Quit: q | Esc"))
  {
    forall a ensures GroupKeys(DefaultEntries, a) != [] && GroupLine(DefaultEntries, a) == DefaultLine(a) {
      DefaultGroupLine(a);
    }
    LinesAllBound(DefaultEntries);
    JoinFour(DefaultLine(Select), DefaultLine(Next), DefaultLine(Previous), DefaultLine(Quit), "     ");
  }
}
