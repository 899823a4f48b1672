/**
 * The prototype front end: a dependency list and an exit flag. The main loop
 * reads terminal events until a press of 'q' sets the flag.
 *
 * Events are read from a finite sequence standing for the terminal; the loop
 * stops early when that sequence runs out.
 */
module TuiNeviraller {
  import opened Wrappers
  import K = Keys

  /** A dependency as the prototype records it: name, probe command and whether it was found. */
  datatype Dep = Dep(name: string, command: string, state: bool)

  /** The events `handle_events` acts on: presses of 'q'. */
  predicate IsQuitPress(e: K.TermEvent)
  {
    e.Key? && e.key.kind == K.Press && e.key.code == K.Char('q')
  }

  /**
   * The position of the first quit press, or `|events|` if there is none:
   * no earlier event is one, and the event at that position is one.
   */
  function FirstQuitPress(events: seq<K.TermEvent>): (i: nat)
    ensures i <= |events|
    ensures forall j :: 0 <= j < i ==> !IsQuitPress(events[j])
    ensures i < |events| ==> IsQuitPress(events[i])
    decreases |events|
  {
    if events == [] then 0
    else if IsQuitPress(events[0]) then 0
    else 1 + FirstQuitPress(events[1..])
  }

  /** Quit presses that come after the first one do not move it. */
  lemma {:induction false} FirstQuitPressIgnoresLater(events: seq<K.TermEvent>, more: seq<K.TermEvent>)
    requires FirstQuitPress(events) < |events|
    ensures FirstQuitPress(events + more) == FirstQuitPress(events)
    decreases |events|
  {
    if !IsQuitPress(events[0]) {
      assert (events + more)[1..] == events[1..] + more;
      FirstQuitPressIgnoresLater(events[1..], more);
    }
  }

  class Neviraller {
    var dependencies: seq<Dep>
    var exit: bool

    /** The derived `Default`: no dependencies, not exiting. */
    constructor ()
      ensures dependencies == [] && !exit
    {
      dependencies := [];
      exit := false;
    }

    /** `exit`: sets the flag; calling it again changes nothing, and the dependency list is untouched. */
    method Exit()
      modifies this
      ensures exit && dependencies == old(dependencies)
    {
      exit := true;
    }

    /** `handle_key_event`: 'q' exits, every other key is ignored; always succeeds. */
    method HandleKeyEvent(key: K.KeyEvent) returns (r: Result<(), string>)
      modifies this
      ensures r.Ok?
      ensures exit == (old(exit) || key.code == K.Char('q'))
      ensures dependencies == old(dependencies)
    {
      if key.code == K.Char('q') {
        Exit();
      }
      r := Ok(());
    }

    /** `handle_events`: only key presses reach the key handler; any other event succeeds with no change. */
    method HandleEvents(e: K.TermEvent) returns (r: Result<(), string>)
      modifies this
      ensures r.Ok?
      ensures exit == (old(exit) || IsQuitPress(e))
      ensures dependencies == old(dependencies)
    {
      if e.Key? && e.key.kind == K.Press {
        r := HandleKeyEvent(e.key);
      } else {
        r := Ok(());
      }
    }

    /**
     * `run`: handles events while the flag is clear. It reads every event up
     * to and including the first quit press, and none after it; with the flag
     * already set it reads nothing.
     */
    method Run(events: seq<K.TermEvent>) returns (read: nat)
      modifies this
      ensures dependencies == old(dependencies)
      ensures old(exit) ==> exit && read == 0
      ensures !old(exit) ==> exit == (FirstQuitPress(events) < |events|)
      ensures !old(exit) && exit ==> read == FirstQuitPress(events) + 1
      ensures !old(exit) && !exit ==> read == |events|
    {
      read := 0;
      while !exit && read < |events|
        invariant read <= |events|
        invariant dependencies == old(dependencies)
        invariant old(exit) ==> exit && read == 0
        invariant !old(exit) ==> forall j :: 0 <= j < read - 1 ==> !IsQuitPress(events[j])
        invariant !old(exit) ==> (exit <==> read > 0 && IsQuitPress(events[read - 1]))
        decreases |events| - read
      {
        var _ := HandleEvents(events[read]);
        read := read + 1;
      }
      if !old(exit) {
        FirstQuitPressAt(events, read);
      }
    }
  }

  /**
   * The loop's stopping point, from its invariant: either the event just
   * read is the first quit press, or every event was read and none was one.
   */
  lemma FirstQuitPressAt(events: seq<K.TermEvent>, read: nat)
    requires read <= |events|
    requires forall j :: 0 <= j < read - 1 ==> !IsQuitPress(events[j])
    requires read == |events| || (read > 0 && IsQuitPress(events[read - 1]))
    ensures read > 0 && IsQuitPress(events[read - 1]) ==> FirstQuitPress(events) == read - 1
    ensures !(read > 0 && IsQuitPress(events[read - 1])) ==> FirstQuitPress(events) == |events|
  {
    var i := FirstQuitPress(events);
    if read > 0 && IsQuitPress(events[read - 1]) {
      assert !(i < read - 1);
      assert !(read - 1 < i);
    } else {
      assert !(i < |events|);
    }
  }
}
