/** The per-element interaction record and the trace vocabulary the handlers
    use to report which handler ran and how it was resolved. */
module Interaction {
  import opened Events

  /** How a handler entry point was resolved: its default policy ran, the
      application's override hook ran instead, or no hook was set and the
      entry point has no default, so nothing happened. */
  datatype Resolution = Default | Custom | NoDefault

  /** Which handler entry point ran, named by the event kind it handles. */
  datatype Kind =
    | ClickKind(click: ClickEventType)
    | HoverKind(hover: HoverEventType)
    | DragKind(drag: DragEventType)
    | DropKind(drop: DropEventType)

  /** The element-level override hooks that replace a whole dispatcher. */
  datatype Hook = LocalHandlerHook | ExternalHandlerHook

  /** One entry of a dispatch trace. */
  datatype Step = Ran(kind: Kind, via: Resolution) | Overridden(hook: Hook)

  /** An entry point with override hook `hook` resolves to the hook when it is
      set, and otherwise to its default policy if it has one. */
  function Resolved(hook: bool, hasDefault: bool): Resolution
  {
    if hook then Custom else if hasDefault then Default else NoDefault
  }

  /** True of a step that ran application code. */
  predicate IsCustom(step: Step)
  {
    step.Overridden? || step.via == Custom
  }

  /** True of a trace in which none of the traced handlers ran an application
      hook, so that every step in it is a default policy's. The IsAcceptable
      and IsInside hooks are not steps of a trace; contracts that depend on
      them say so separately. */
  predicate NoCustom(trace: seq<Step>)
  {
    forall i :: 0 <= i < |trace| ==> !IsCustom(trace[i])
  }

  /** The handler kinds a trace ran, in order (element-level overrides name none). */
  function Kinds(trace: seq<Step>): (ks: seq<Kind>)
    ensures |ks| <= |trace|
  {
    if trace == [] then []
    else (if trace[0].Ran? then [trace[0].kind] else []) + Kinds(trace[1..])
  }

  /** The interaction record of one element. The eight interaction fields are
      updated in place by the handlers; the capability slots, event-listener
      slots and override-hook flags are configuration, fixed when the element
      is built (no handler reassigns them). */
  class Interactable {
    const id: string

    var isSelected: bool
    var isHovered: bool
    var isDragging: bool
    var dragOrigin: Point
    var dragOffset: Point
    var isValidDrop: bool
    var isAboveDrop: bool
    var isBelowDrop: bool

    // capability slots: None disables the capability
    const click: Option<ClickHandler>
    const hover: Option<HoverHandler>
    const drag: Option<DragHandler>
    const drop: Option<DropHandler>

    // event-listener slots
    const clickEvent: Option<ClickHandler>
    const hoverEvent: Option<HoverHandler>
    const dragEvent: Option<DragHandler>
    const dropEvent: Option<DropHandler>

    // presence of the IsInside, LocalHandler and ExternalHandler overrides
    const hasIsInside: bool
    const hasLocalHandler: bool
    const hasExternalHandler: bool

    /** A new element: the given identity and configuration, every flag false
        and both points at the origin. */
    constructor (
      id: string,
      click: Option<ClickHandler>, hover: Option<HoverHandler>,
      drag: Option<DragHandler>, drop: Option<DropHandler>,
      clickEvent: Option<ClickHandler>, hoverEvent: Option<HoverHandler>,
      dragEvent: Option<DragHandler>, dropEvent: Option<DropHandler>,
      hasIsInside: bool, hasLocalHandler: bool, hasExternalHandler: bool)
      ensures this.id == id
      ensures this.click == click && this.hover == hover && this.drag == drag && this.drop == drop
      ensures this.clickEvent == clickEvent && this.hoverEvent == hoverEvent
      ensures this.dragEvent == dragEvent && this.dropEvent == dropEvent
      ensures this.hasIsInside == hasIsInside && this.hasLocalHandler == hasLocalHandler
      ensures this.hasExternalHandler == hasExternalHandler
      ensures State() == Initial
    {
      this.id := id;
      this.click, this.hover, this.drag, this.drop := click, hover, drag, drop;
      this.clickEvent, this.hoverEvent := clickEvent, hoverEvent;
      this.dragEvent, this.dropEvent := dragEvent, dropEvent;
      this.hasIsInside, this.hasLocalHandler := hasIsInside, hasLocalHandler;
      this.hasExternalHandler := hasExternalHandler;
      isSelected, isHovered, isDragging := false, false, false;
      dragOrigin, dragOffset := Point(0, 0), Point(0, 0);
      isValidDrop, isAboveDrop, isBelowDrop := false, false, false;
    }

    /** The interaction fields as one value. */
    function State(): InteractionState
      reads this
    {
      InteractionState(isSelected, isHovered, isDragging, dragOrigin, dragOffset,
                       isValidDrop, isAboveDrop, isBelowDrop)
    }

    /** True when at least one of the four capabilities is configured. */
    predicate HasCapability()
    {
      click.Some? || hover.Some? || drag.Some? || drop.Some?
    }

    /** True when at least one of the four event listeners is configured. */
    predicate HasListener()
    {
      clickEvent.Some? || hoverEvent.Some? || dragEvent.Some? || dropEvent.Some?
    }
  }

  /** Application code behind an override hook: it may leave any interaction
      field of the element in any state and may return any commands. */
  method RunCustom(e: Interactable) returns (cmds: seq<Cmd>)
    modifies e
  {
    e.isSelected, e.isHovered, e.isDragging := *, *, *;
    e.dragOrigin, e.dragOffset := *, *;
    e.isValidDrop, e.isAboveDrop, e.isBelowDrop := *, *, *;
    cmds := *;
  }
}
