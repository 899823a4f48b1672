/**
 * The constraint choice of the central dispatcher's screen layout and the
 * region each component is drawn into. The rectangles themselves come from
 * ratatui's constraint solver and are not part of this model.
 */
module AppLayout {

  datatype Constraint = Length(n: nat) | Min(n: nat) | Percentage(p: nat)

  /**
   * The closed set of components, in the order the dispatcher holds them;
   * this tag replaces the source's `as_any` type probing.
   */
  datatype ComponentId = Header | Menu | ProgressBar | Info | Footer

  const Components: seq<ComponentId> := [Header, Menu, ProgressBar, Info, Footer]

  /**
   * A region of the three-level split: `Chunks(i)` of the outer vertical split,
   * `Middle(i)` of the horizontal split of `Chunks(1)`, `InfoChunks(i)` of the
   * vertical split of `Middle(1)`.
   */
  datatype Region = Chunks(i: nat) | Middle(i: nat) | InfoChunks(i: nat)

  /** The constraints of the three splits and the outer margin. */
  datatype Plan = Plan(outer: seq<Constraint>, margin: nat, middle: seq<Constraint>, info: seq<Constraint>)

  /** The regions that are not split further: exactly where components are drawn. */
  const Leaves: set<Region> := {Chunks(0), Chunks(2), Middle(0), InfoChunks(0), InfoChunks(1)}

  /** A region names an existing slot of the plan. */
  predicate InPlan(r: Region, p: Plan)
  {
    match r
    case Chunks(i) => i < |p.outer|
    case Middle(i) => i < |p.middle|
    case InfoChunks(i) => i < |p.info|
  }

  /** The auxiliary (progress bar) slot's constraint in `update_ui`. */
  function AuxSlot(progressVisible: bool): (c: Constraint)
    ensures c.Length?
    ensures c.n == 3 <==> progressVisible
    ensures c.n == 0 <==> !progressVisible
  {
    if progressVisible then Length(3) else Length(0)
  }

  /** The plan `update_ui` draws with: the auxiliary slot collapses when the progress bar is hidden. */
  function UpdateUiPlan(progressVisible: bool): (p: Plan)
    ensures |p.outer| == 3 && |p.middle| == 2 && |p.info| == 2 && p.margin == 1
    ensures p.info[0] == AuxSlot(progressVisible) && p.info[1] == Min(1)
    ensures p.outer == [Length(1), Min(10), Length(1)]
    ensures p.middle == [Percentage(30), Percentage(70)]
  {
    Plan([Length(1), Min(10), Length(1)], 1, [Percentage(30), Percentage(70)], [AuxSlot(progressVisible), Min(1)])
  }

  /** The plan computed once when `run` starts. */
  const StartPlan: Plan := Plan([Length(1), Min(10), Length(1)], 1, [Percentage(30), Percentage(70)], [Length(3), Min(1)])

  /** The plan the `Resize` arm re-initialises the components with. */
  const ResizePlan: Plan := Plan([Length(3), Min(10), Length(3)], 1, [Percentage(50), Percentage(50)], [Length(3), Min(1)])

  /** The start-up plan is the `update_ui` plan with the progress bar shown; only a hidden bar collapses the slot. */
  lemma StartPlanShowsProgress()
    ensures UpdateUiPlan(true) == StartPlan
    ensures UpdateUiPlan(false) == StartPlan.(info := [Length(0), Min(1)])
  {
  }

  /** The region each component is drawn into (`update_ui` and the `InstallNeovimNightly` redraw agree). */
  function SlotOf(c: ComponentId): (r: Region)
    ensures r in Leaves
    ensures InPlan(r, StartPlan) && InPlan(r, ResizePlan)
    ensures forall v :: InPlan(r, UpdateUiPlan(v))
  {
    match c
    case Header => Chunks(0)
    case Menu => Middle(0)
    case ProgressBar => InfoChunks(0)
    case Info => InfoChunks(1)
    case Footer => Chunks(2)
  }

  /** Every leaf region receives exactly one component: the assignment is a bijection onto the leaves. */
  lemma SlotAssignmentBijective()
    ensures forall a, b :: SlotOf(a) == SlotOf(b) ==> a == b
    ensures forall r :: r in Leaves ==> exists c :: c in Components && SlotOf(c) == r
    ensures forall c :: c in Components
  {
    assert SlotOf(Header) == Chunks(0) && SlotOf(Footer) == Chunks(2) && SlotOf(Menu) == Middle(0);
    assert SlotOf(ProgressBar) == InfoChunks(0) && SlotOf(Info) == InfoChunks(1);
    forall c: ComponentId ensures c in Components {
      match c {
        case Header => assert Components[0] == c;
        case Menu => assert Components[1] == c;
        case ProgressBar => assert Components[2] == c;
        case Info => assert Components[3] == c;
        case Footer => assert Components[4] == c;
      }
    }
  }
}
