/**
 * The `Action` enum of the component runtime: the commands that travel over
 * the action channel between the key resolver, the components and the
 * central dispatcher.
 */
module Action {

  /** Rust `u16`: the terminal sizes carried by `Resize`. */
  newtype U16 = x: int | 0 <= x < 0x1_0000

  /**
   * The closed set of seventeen variants. The dispatcher and the menu name the
   * dependency check `CheckDependencies`; the enum declares it as `CheckDeps`,
   * which is the name used throughout this model.
   */
  datatype Action =
    | Select
    | Next
    | Prev
    | InstallNeovimNightly
    | InstallNeviraide
    | CheckDeps
    | Test
    | Tick
    | Render
    | Resize(width: U16, height: U16)
    | Suspend
    | Resume
    | Quit
    | Refresh
    | Error(message: string)
    | LogMessage(message: string)
    | Help

  /** Every variant, payload-carrying ones with a representative payload, in declaration order. */
  const Variants: seq<Action> := [
    Select, Next, Prev, InstallNeovimNightly, InstallNeviraide, CheckDeps, Test, Tick,
    Render, Resize(0, 0), Suspend, Resume, Quit, Refresh, Error(""), LogMessage(""), Help
  ]

  /** Position of an action's variant in the declaration: every action has exactly one of the seventeen. */
  function VariantIndex(a: Action): (i: nat)
    ensures i < |Variants|
    ensures Variants[i].Resize? == a.Resize? && Variants[i].Error? == a.Error?
    ensures Variants[i].LogMessage? == a.LogMessage?
    ensures !a.Resize? && !a.Error? && !a.LogMessage? ==> Variants[i] == a
  {
    match a
    case Select => 0
    case Next => 1
    case Prev => 2
    case InstallNeovimNightly => 3
    case InstallNeviraide => 4
    case CheckDeps => 5
    case Test => 6
    case Tick => 7
    case Render => 8
    case Resize(_, _) => 9
    case Suspend => 10
    case Resume => 11
    case Quit => 12
    case Refresh => 13
    case Error(_) => 14
    case LogMessage(_) => 15
    case Help => 16
  }
}
