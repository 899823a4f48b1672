/**
 * The installer's dependency check: probe every tool in place, count the
 * missing ones, and build the report table whose footer either counts the
 * missing tools or says that all are present.
 *
 * `which` is an oracle `probe`: `probe(cmd)` is whether `which cmd`
 * succeeds. The table is kept as its cells; drawing it is not modelled.
 */
module DependencyCheck {
  import opened Dependency
  import C = Colors

  // ---------------------------------------------------------------------------
  // Probing

  /** The list after probing: each entry's flag is the probe's answer for its command. */
  function Probed(ds: seq<Dep>, probe: string -> bool): (r: seq<Dep>)
    ensures |r| == |ds|
    ensures forall i :: 0 <= i < |ds| ==> r[i].exist == probe(ds[i].command)
    ensures forall i :: 0 <= i < |ds| ==>
      r[i].name == ds[i].name && r[i].command == ds[i].command && r[i].requiredBy == ds[i].requiredBy
  {
    seq(|ds|, i requires 0 <= i < |ds| => ds[i].(exist := probe(ds[i].command)))
  }

  /** Probing twice gives what probing once gave: the flags depend only on the commands. */
  lemma ProbedIdempotent(ds: seq<Dep>, probe: string -> bool)
    ensures Probed(Probed(ds, probe), probe) == Probed(ds, probe)
  {
  }

  /** `checkCommandsAvailability`: sets each entry's flag in place, in list order. */
  method CheckCommandsAvailability(deps: array<Dep>, probe: string -> bool)
    modifies deps
    ensures deps[..] == Probed(old(deps[..]), probe)
  {
    for i := 0 to deps.Length
      invariant deps[..i] == Probed(old(deps[..]), probe)[..i]
      invariant deps[i..] == old(deps[i..])
    {
      if probe(deps[i].command) {
        deps[i] := deps[i].(exist := true);
      } else {
        deps[i] := deps[i].(exist := false);
      }
    }
  }

  // ---------------------------------------------------------------------------
  // Counting

  /** The number of entries not found. */
  function Missing(ds: seq<Dep>): (n: nat)
    ensures n <= |ds|
    decreases |ds|
  {
    if ds == [] then 0
    else Missing(ds[..|ds| - 1]) + (if ds[|ds| - 1].exist then 0 else 1)
  }

  /** Nothing is missing exactly when every entry was found. */
  lemma {:induction false} NoneMissingIffAllExist(ds: seq<Dep>)
    ensures Missing(ds) == 0 <==> forall i :: 0 <= i < |ds| ==> ds[i].exist
    decreases |ds|
  {
    if ds != [] {
      var init := ds[..|ds| - 1];
      NoneMissingIffAllExist(init);
      assert forall i :: 0 <= i < |init| ==> init[i] == ds[i];
    }
  }

  /** Everything is missing exactly when nothing was found. */
  lemma {:induction false} AllMissingIffNoneExist(ds: seq<Dep>)
    ensures Missing(ds) == |ds| <==> forall i :: 0 <= i < |ds| ==> !ds[i].exist
    decreases |ds|
  {
    if ds != [] {
      var init := ds[..|ds| - 1];
      AllMissingIffNoneExist(init);
      assert forall i :: 0 <= i < |init| ==> init[i] == ds[i];
    }
  }

  /** The counting loop of `Check`. */
  method CountMissing(ds: seq<Dep>) returns (n: nat)
    ensures n == Missing(ds)
  {
    n := 0;
    for i := 0 to |ds|
      invariant n == Missing(ds[..i])
    {
      assert ds[..i + 1][..i] == ds[..i];
      if !ds[i].exist {
        n := n + 1;
      }
    }
    assert ds[..|ds|] == ds;
  }

  // ---------------------------------------------------------------------------
  // The report

  const StatusMissing: string := C.Color("red", "", "✗")
  const StatusPresent: string := C.Color("green", "", "✓")

  datatype Row = Row(status: string, name: string, command: string, requiredBy: string)

  /**
   * The footer's last cell as `fmt.Sprintf` receives it: the format string
   * and the integers substituted for its `%d` verbs.
   */
  datatype Footer = Footer(format: string, args: seq<nat>)

  datatype Table = Table(header: seq<string>, rows: seq<Row>, footer: Footer)

  const Header: seq<string> := ["Status", "Name", "Command", "RequiredBy"]

  const AllPresent: Footer := Footer(C.Color("green", "bold", "All dependencies are present"), [])

  /** The footer counting `missing` of `total`. */
  function MissingFooter(missing: nat, total: nat): Footer
  {
    Footer(C.Color("red", "", "%d out of %d is missing"), [missing, total])
  }

  /** One row: the status mark, then the entry's name, command and user. */
  function RowFor(d: Dep): (r: Row)
    ensures r.status == (if d.exist then StatusPresent else StatusMissing)
    ensures r.name == d.name && r.command == d.command && r.requiredBy == d.requiredBy
  {
    Row(if d.exist then StatusPresent else StatusMissing, d.name, d.command, d.requiredBy)
  }

  /** The two status marks differ, so a row tells whether its entry was found. */
  lemma StatusTellsExistence(d1: Dep, d2: Dep)
    requires RowFor(d1).status == RowFor(d2).status
    ensures d1.exist == d2.exist
  {
    C.DifferentColorsDiffer("green", "red", "", "✓");
    C.ColorLayout("green", "", "✓");
    C.ColorLayout("red", "", "✗");
  }

  /** The report for a probed list `ds`, where `total` is the length of the package's list. */
  function TableFor(ds: seq<Dep>, total: nat): (t: Table)
    ensures t.header == Header
    ensures |t.rows| == |ds|
    ensures forall i :: 0 <= i < |ds| ==> t.rows[i] == RowFor(ds[i])
    ensures Missing(ds) > 0 ==> t.footer == MissingFooter(Missing(ds), total)
    ensures Missing(ds) == 0 ==> t.footer == AllPresent
  {
    Table(Header, seq(|ds|, i requires 0 <= i < |ds| => RowFor(ds[i])),
          if Missing(ds) > 0 then MissingFooter(Missing(ds), total) else AllPresent)
  }

  /** The report says all are present exactly when every command's probe succeeds. */
  lemma AllPresentIffEveryProbeSucceeds(ds: seq<Dep>, probe: string -> bool)
    ensures TableFor(Probed(ds, probe), |ds|).footer == AllPresent <==>
      forall i :: 0 <= i < |ds| ==> probe(ds[i].command)
  {
    var p := Probed(ds, probe);
    NoneMissingIffAllExist(p);
    if Missing(p) > 0 {
      assert MissingFooter(Missing(p), |ds|).args != AllPresent.args;
    }
  }

  /** On a machine where no probe succeeds, the report counts all eight tools as missing. */
  lemma NothingInstalled(probe: string -> bool)
    requires forall i :: 0 <= i < |Dependencies| ==> !probe(Dependencies[i].command)
    ensures TableFor(Probed(Dependencies, probe), |Dependencies|).footer == MissingFooter(8, 8)
  {
    DependenciesTable();
    AllMissingIffNoneExist(Probed(Dependencies, probe));
  }

  /** The row loop of `Check`: one row per entry, in list order. */
  method BuildRows(ds: seq<Dep>) returns (rows: seq<Row>)
    ensures |rows| == |ds|
    ensures forall i :: 0 <= i < |ds| ==> rows[i] == RowFor(ds[i])
  {
    rows := [];
    for i := 0 to |ds|
      invariant |rows| == i
      invariant forall j :: 0 <= j < i ==> rows[j] == RowFor(ds[j])
    {
      var status := StatusMissing;
      if ds[i].exist {
        status := StatusPresent;
      }
      rows := rows + [Row(status, ds[i].name, ds[i].command, ds[i].requiredBy)];
    }
  }

  /**
   * `Check`: probes the package's list in place, then reports on it and
   * returns it. The privilege request beforehand and the printing are not
   * modelled.
   */
  method Check(deps: array<Dep>, probe: string -> bool) returns (result: seq<Dep>, table: Table)
    modifies deps
    ensures result == deps[..] == Probed(old(deps[..]), probe)
    ensures table == TableFor(result, deps.Length)
  {
    CheckCommandsAvailability(deps, probe);
    result := deps[..];
    var missing := CountMissing(result);
    var rows := BuildRows(result);
    var footer := AllPresent;
    if missing > 0 {
      footer := MissingFooter(missing, deps.Length);
    }
    table := Table(Header, rows, footer);
  }
}
