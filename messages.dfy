/** The two dispatchers of an element. The local one turns a raw pointer
    message into calls to the element's hover, click and drag handlers; the
    external one routes a semantic event broadcast by another element to the
    matching listener handler. Each returns the commands of the handlers it
    ran, concatenated in call order, and a trace of those handlers.

    The functions below say which handlers a dispatch runs (`LocalSteps`,
    `ExternalSteps`) and what the default policies of those handlers do to the
    record and emit (`Effects`, `Emissions`, `ExternalState`); the dispatcher
    methods are proved against them. */
module Messages {
  import opened Events
  import opened Interaction
  import Click
  import Hover
  import Drag
  import Drop

  // ---------------------------------------------------------------------------
  // Local dispatch: routing

  /** The hover handlers a motion runs: inside an unhovered element, enter and
      then hover; inside a hovered one, hover only; outside a hovered one,
      leave; otherwise none. */
  function HoverSteps(hover: Option<HoverHandler>, inside: bool, hovered: bool): seq<Step>
  {
    match hover
    case None => []
    case Some(h) =>
      if inside then
        (if hovered then [] else [Ran(HoverKind(MouseEnter), Resolved(h.onMouseEnter, true))])
        + [Ran(HoverKind(MouseHover), Resolved(h.onMouseHover, true))]
      else if hovered then [Ran(HoverKind(MouseLeave), Resolved(h.onMouseLeave, true))]
      else []
  }

  /** The drag handler a motion runs after the hover handlers: drag-move, when
      drag is configured and the element is dragging, wherever the pointer is. */
  function DragMoveSteps(drag: Option<DragHandler>, dragging: bool): seq<Step>
  {
    if drag.Some? && dragging then [Ran(DragKind(DragMove), Resolved(drag.value.onDragMove, true))] else []
  }

  /** The handlers a press runs: click, when click is configured and the
      pointer is inside, followed by drag-start when drag is configured too. */
  function PressSteps(click: Option<ClickHandler>, drag: Option<DragHandler>, inside: bool): seq<Step>
  {
    if click.Some? && inside then
      [Ran(ClickKind(Click), Resolved(click.value.onClick, true))]
      + (if drag.Some? then [Ran(DragKind(DragStart), Resolved(drag.value.onDragStart, true))] else [])
    else []
  }

  /** The handler a release runs: drag-end, when drag is configured and the
      element is dragging, wherever the pointer is. */
  function ReleaseSteps(drag: Option<DragHandler>, dragging: bool): seq<Step>
  {
    if drag.Some? && dragging then [Ran(DragKind(DragEnd), Resolved(drag.value.onDragEnd, true))] else []
  }

  /** The handlers a pointer message runs on an element whose hovered and
      dragging flags are `hovered` and `dragging` when the message arrives.
      The drop capability never appears: the local dispatcher does not call it. */
  function LocalSteps(
    click: Option<ClickHandler>, hover: Option<HoverHandler>, drag: Option<DragHandler>,
    msg: MouseMsg, inside: bool, hovered: bool, dragging: bool): seq<Step>
  {
    match msg.action
    case Motion => HoverSteps(hover, inside, hovered) + DragMoveSteps(drag, dragging)
    case Press => PressSteps(click, drag, inside)
    case Release => ReleaseSteps(drag, dragging)
    case OtherAction => []
  }

  // ---------------------------------------------------------------------------
  // Local dispatch: what the default policies do

  /** The change one default-policy step of the local dispatcher makes to the
      record, including the dispatcher's own IsDragging assignments around
      drag-start and drag-end. Custom and drop steps are not described here. */
  function LocalEffect(step: Step, s: InteractionState, msg: MouseMsg): InteractionState
  {
    match step
    case Ran(ClickKind(Click), Default) => s.(isSelected := true)
    case Ran(HoverKind(MouseEnter), Default) => s.(isHovered := true)
    case Ran(HoverKind(MouseHover), Default) => s.(isHovered := true)
    case Ran(HoverKind(MouseLeave), Default) => s.(isHovered := false)
    case Ran(DragKind(DragStart), Default) =>
      s.(isDragging := true, dragOrigin := Point(msg.x, msg.y), dragOffset := Point(0, 0))
    case Ran(DragKind(DragMove), Default) =>
      s.(isDragging := true, dragOffset := Drag.Offset(msg, s.dragOrigin))
    case Ran(DragKind(DragEnd), Default) => s.(isDragging := false)
    case _ => s
  }

  /** The record after the steps of `trace`, in order, starting from `s`. */
  function Effects(trace: seq<Step>, s: InteractionState, msg: MouseMsg): InteractionState
  {
    if trace == [] then s
    else LocalEffect(trace[|trace| - 1], Effects(trace[..|trace| - 1], s, msg), msg)
  }

  /** The commands one default-policy step of the local dispatcher returns:
      one event of the step's own kind when its handler emits messages. */
  function LocalEmission(
    step: Step, click: Option<ClickHandler>, hover: Option<HoverHandler>, drag: Option<DragHandler>,
    msg: MouseMsg): seq<Cmd>
  {
    match step
    case Ran(ClickKind(k), Default) => if click.Some? then Emit(click.value.emitMessages, ClickCmd(k, msg)) else []
    case Ran(HoverKind(k), Default) => if hover.Some? then Emit(hover.value.emitMessages, HoverCmd(k, msg)) else []
    case Ran(DragKind(k), Default) => if drag.Some? then Emit(drag.value.emitMessages, DragCmd(k, msg)) else []
    case _ => []
  }

  /** The commands of the steps of `trace`, concatenated in order. */
  function Emissions(
    trace: seq<Step>, click: Option<ClickHandler>, hover: Option<HoverHandler>, drag: Option<DragHandler>,
    msg: MouseMsg): seq<Cmd>
  {
    if trace == [] then []
    else Emissions(trace[..|trace| - 1], click, hover, drag, msg) + LocalEmission(trace[|trace| - 1], click, hover, drag, msg)
  }

  /** Running two traces one after the other has the effect of running their
      concatenation. */
  lemma {:induction false} EffectsAppend(a: seq<Step>, b: seq<Step>, s: InteractionState, msg: MouseMsg)
    ensures Effects(a + b, s, msg) == Effects(b, Effects(a, s, msg), msg)
    decreases |b|
  {
    if b == [] {
      assert a + b == a;
    } else {
      var b' := b[..|b| - 1];
      assert (a + b)[..|a + b| - 1] == a + b';
      assert (a + b)[|a + b| - 1] == b[|b| - 1];
      EffectsAppend(a, b', s, msg);
    }
  }

  /** Appending one step appends that step's commands. */
  lemma EmissionsSnoc(
    t: seq<Step>, x: Step, click: Option<ClickHandler>, hover: Option<HoverHandler>,
    drag: Option<DragHandler>, msg: MouseMsg)
    ensures Emissions(t + [x], click, hover, drag, msg)
            == Emissions(t, click, hover, drag, msg) + LocalEmission(x, click, hover, drag, msg)
  {
    assert (t + [x])[..|t + [x]| - 1] == t;
  }

  /** A trace runs no application code exactly when neither of its parts does. */
  lemma NoCustomAppend(a: seq<Step>, b: seq<Step>)
    ensures NoCustom(a + b) <==> NoCustom(a) && NoCustom(b)
  {
    if NoCustom(a) && NoCustom(b) {
      forall i | 0 <= i < |a + b| ensures !IsCustom((a + b)[i]) {
        if i < |a| { assert (a + b)[i] == a[i]; } else { assert (a + b)[i] == b[i - |a|]; }
      }
    }
    if NoCustom(a + b) {
      forall i | 0 <= i < |a| ensures !IsCustom(a[i]) { assert a[i] == (a + b)[i]; }
      forall i | 0 <= i < |b| ensures !IsCustom(b[i]) { assert b[i] == (a + b)[|a| + i]; }
    }
  }

  /** Appending one handler call to a dispatch: if the record `s` and the
      commands `cmds` so far are those of the default policies over `trace`,
      and the call took the record from `s` to `s'` and returned `c` as its
      default policy does, then the record and commands after the call are
      those of the default policies over the longer trace. */
  lemma Advance(
    trace: seq<Step>, t: seq<Step>, cmds: seq<Cmd>, c: seq<Cmd>,
    s0: InteractionState, s: InteractionState, s': InteractionState,
    click: Option<ClickHandler>, hover: Option<HoverHandler>, drag: Option<DragHandler>, msg: MouseMsg)
    requires |t| == 1
    requires NoCustom(trace) ==> s == Effects(trace, s0, msg) && cmds == Emissions(trace, click, hover, drag, msg)
    requires !IsCustom(t[0]) ==> s' == LocalEffect(t[0], s, msg) && c == LocalEmission(t[0], click, hover, drag, msg)
    ensures NoCustom(trace + t) ==> NoCustom(trace) && !IsCustom(t[0])
    ensures NoCustom(trace + t) ==>
              && s' == Effects(trace + t, s0, msg)
              && cmds + c == Emissions(trace + t, click, hover, drag, msg)
  {
    NoCustomAppend(trace, t);
    assert (trace + t)[..|trace|] == trace;
  }

  // ---------------------------------------------------------------------------
  // Local dispatch: the methods

  /** Local dispatch: the LocalHandler hook, when set, replaces the whole
      dispatcher; otherwise the default dispatcher runs. */
  method HandleMouseMsg(e: Interactable, msg: MouseMsg, inside: bool) returns (cmds: seq<Cmd>, trace: seq<Step>)
    modifies e
    ensures e.hasLocalHandler ==> trace == [Overridden(LocalHandlerHook)]
    ensures !e.hasLocalHandler && !e.HasCapability() ==> e.State() == old(e.State()) && cmds == [] && trace == []
    ensures !e.hasLocalHandler ==>
              || trace == LocalSteps(e.click, e.hover, e.drag, msg, inside, old(e.isHovered), old(e.isDragging))
              || (&& msg.action == Motion
                  && !NoCustom(HoverSteps(e.hover, inside, old(e.isHovered)))
                  && trace == HoverSteps(e.hover, inside, old(e.isHovered)) + DragMoveSteps(e.drag, !old(e.isDragging)))
    ensures NoCustom(trace) ==>
              && e.State() == Effects(trace, old(e.State()), msg)
              && cmds == Emissions(trace, e.click, e.hover, e.drag, msg)
  {
    if e.hasLocalHandler {
      cmds := RunCustom(e);
      trace := [Overridden(LocalHandlerHook)];
      assert !IsCustom(trace[0]) ==> false;
    } else {
      cmds, trace := DefaultLocalHandler(e, msg, inside);
    }
  }

  /** The default local dispatcher. With no capability configured it does
      nothing. Otherwise: a motion runs the hover handlers and then drag-move;
      a press inside runs click and, with drag configured, marks the element
      dragging and runs drag-start; a release while dragging clears the
      dragging flag and runs drag-end; other actions run nothing. The routing
      reads the flags as they were when the message arrived, except that the
      drag-move test reads IsDragging after the hover handlers, which only an
      application hook can have changed. Under the default policies the record
      and the commands are those of `Effects` and `Emissions` over the trace. */
  method DefaultLocalHandler(e: Interactable, msg: MouseMsg, inside: bool) returns (cmds: seq<Cmd>, trace: seq<Step>)
    modifies e
    ensures !e.HasCapability() ==> e.State() == old(e.State()) && cmds == [] && trace == []
    ensures || trace == LocalSteps(e.click, e.hover, e.drag, msg, inside, old(e.isHovered), old(e.isDragging))
            || (&& msg.action == Motion
                && !NoCustom(HoverSteps(e.hover, inside, old(e.isHovered)))
                && trace == HoverSteps(e.hover, inside, old(e.isHovered)) + DragMoveSteps(e.drag, !old(e.isDragging)))
    ensures NoCustom(trace) ==>
              && e.State() == Effects(trace, old(e.State()), msg)
              && cmds == Emissions(trace, e.click, e.hover, e.drag, msg)
  {
    cmds, trace := [], [];
    if e.click.None? && e.hover.None? && e.drag.None? && e.drop.None? {
      return;
    }
    match msg.action {
      case Motion =>
        cmds, trace := MotionHandlers(e, msg, inside);
      case Press =>
        cmds, trace := PressHandlers(e, msg, inside);
      case Release =>
        cmds, trace := ReleaseHandlers(e, msg);
      case OtherAction =>
    }
  }

  /** The Motion case of the default local dispatcher: the hover handlers,
      then drag-move if the element is dragging at that point. */
  method MotionHandlers(e: Interactable, msg: MouseMsg, inside: bool) returns (cmds: seq<Cmd>, trace: seq<Step>)
    modifies e
    ensures || trace == HoverSteps(e.hover, inside, old(e.isHovered)) + DragMoveSteps(e.drag, old(e.isDragging))
            || (&& !NoCustom(HoverSteps(e.hover, inside, old(e.isHovered)))
                && trace == HoverSteps(e.hover, inside, old(e.isHovered)) + DragMoveSteps(e.drag, !old(e.isDragging)))
    ensures NoCustom(trace) ==>
              && e.State() == Effects(trace, old(e.State()), msg)
              && cmds == Emissions(trace, e.click, e.hover, e.drag, msg)
  {
    ghost var s0 := e.State();
    cmds, trace := MotionHover(e, msg, inside);
    ghost var hovering := trace;
    ghost var dragging := e.isDragging;
    if e.drag.Some? && e.isDragging {
      ghost var s := e.State();
      var c, t := Drag.HandleDragMove(e.drag.value, e, msg);
      Advance(trace, t, cmds, c, s0, s, e.State(), e.click, e.hover, e.drag, msg);
      cmds, trace := cmds + c, trace + t;
    }
    assert trace == hovering + DragMoveSteps(e.drag, dragging);
    NoCustomAppend(hovering, DragMoveSteps(e.drag, dragging));
  }

  /** The hover part of a motion: enter then hover inside an unhovered
      element, hover alone inside a hovered one, leave outside a hovered one. */
  method MotionHover(e: Interactable, msg: MouseMsg, inside: bool) returns (cmds: seq<Cmd>, trace: seq<Step>)
    modifies e
    ensures trace == HoverSteps(e.hover, inside, old(e.isHovered))
    ensures NoCustom(trace) ==>
              && e.State() == Effects(trace, old(e.State()), msg)
              && cmds == Emissions(trace, e.click, e.hover, e.drag, msg)
              && e.isDragging == old(e.isDragging)
  {
    cmds, trace := [], [];
    if e.hover.Some? {
      if inside {
        cmds, trace := HoverInside(e, msg);
      } else if e.isHovered {
        ghost var s0 := e.State();
        var c, t := Hover.HandleMouseLeave(e.hover.value, e, msg);
        Advance(trace, t, cmds, c, s0, s0, e.State(), e.click, e.hover, e.drag, msg);
        cmds, trace := cmds + c, trace + t;
      }
    }
  }

  /** A motion inside an element with hover configured: enter when it was not
      hovered, then hover. */
  method HoverInside(e: Interactable, msg: MouseMsg) returns (cmds: seq<Cmd>, trace: seq<Step>)
    requires e.hover.Some?
    modifies e
    ensures trace == HoverSteps(e.hover, true, old(e.isHovered))
    ensures NoCustom(trace) ==>
              && e.State() == Effects(trace, old(e.State()), msg)
              && cmds == Emissions(trace, e.click, e.hover, e.drag, msg)
              && e.isDragging == old(e.isDragging)
  {
    cmds, trace := [], [];
    ghost var s0 := e.State();
    if !e.isHovered {
      var c, t := Hover.HandleMouseEnter(e.hover.value, e, msg);
      Advance(trace, t, cmds, c, s0, s0, e.State(), e.click, e.hover, e.drag, msg);
      cmds, trace := cmds + c, trace + t;
    }
    ghost var s := e.State();
    var c, t := Hover.HandleMouseHover(e.hover.value, e, msg);
    Advance(trace, t, cmds, c, s0, s, e.State(), e.click, e.hover, e.drag, msg);
    cmds, trace := cmds + c, trace + t;
  }

  /** The Press case of the default local dispatcher. */
  method PressHandlers(e: Interactable, msg: MouseMsg, inside: bool) returns (cmds: seq<Cmd>, trace: seq<Step>)
    modifies e
    ensures trace == PressSteps(e.click, e.drag, inside)
    ensures NoCustom(trace) ==>
              && e.State() == Effects(trace, old(e.State()), msg)
              && cmds == Emissions(trace, e.click, e.hover, e.drag, msg)
  {
    cmds, trace := [], [];
    ghost var s0 := e.State();
    if e.click.Some? && inside {
      var c, t := Click.HandleClick(e.click.value, e, msg);
      Advance(trace, t, cmds, c, s0, s0, e.State(), e.click, e.hover, e.drag, msg);
      cmds, trace := cmds + c, trace + t;
      if e.drag.Some? {
        ghost var s := e.State();
        e.isDragging := true;
        c, t := Drag.HandleDragStart(e.drag.value, e, msg);
        Advance(trace, t, cmds, c, s0, s, e.State(), e.click, e.hover, e.drag, msg);
        cmds, trace := cmds + c, trace + t;
      }
    }
  }

  /** The Release case of the default local dispatcher. */
  method ReleaseHandlers(e: Interactable, msg: MouseMsg) returns (cmds: seq<Cmd>, trace: seq<Step>)
    modifies e
    ensures trace == ReleaseSteps(e.drag, old(e.isDragging))
    ensures NoCustom(trace) ==>
              && e.State() == Effects(trace, old(e.State()), msg)
              && cmds == Emissions(trace, e.click, e.hover, e.drag, msg)
  {
    cmds, trace := [], [];
    ghost var s0 := e.State();
    if e.drag.Some? && e.isDragging {
      e.isDragging := false;
      var c, t := Drag.HandleDragEnd(e.drag.value, e, msg);
      Advance(trace, t, cmds, c, s0, s0, e.State(), e.click, e.hover, e.drag, msg);
      cmds, trace := cmds + c, trace + t;
    }
  }

  // ---------------------------------------------------------------------------
  // External dispatch

  /** The handler kind a semantic event names; a raw pointer message names none. */
  function KindOf(msg: Msg): Option<Kind>
  {
    match msg
    case ClickMsg(ev) => Some(ClickKind(ev.eventType))
    case HoverMsg(ev) => Some(HoverKind(ev.eventType))
    case DragMsg(ev) => Some(DragKind(ev.eventType))
    case DropMsg(ev) => Some(DropKind(ev.eventType))
    case PointerMsg(_) => None
  }

  /** True when the listener slot of the event's category is configured. */
  predicate Listens(
    clickEvent: Option<ClickHandler>, hoverEvent: Option<HoverHandler>,
    dragEvent: Option<DragHandler>, dropEvent: Option<DropHandler>, k: Kind)
  {
    match k
    case ClickKind(_) => clickEvent.Some?
    case HoverKind(_) => hoverEvent.Some?
    case DragKind(_) => dragEvent.Some?
    case DropKind(_) => dropEvent.Some?
  }

  /** True of the kinds the source names; the other values of each event-type
      enumeration reach no handler. */
  predicate Named(k: Kind)
  {
    match k
    case ClickKind(t) => t != OtherClickType
    case HoverKind(t) => t != OtherHoverType
    case DragKind(t) => t != OtherDragType
    case DropKind(t) => t != OtherDropType
  }

  /** The click-listener entry point a click event of type `t` reaches; none
      has a default. */
  function ClickListenerSteps(h: ClickHandler, t: ClickEventType): seq<Step>
  {
    match t
    case Click => [Ran(ClickKind(Click), Resolved(h.onClickEvent, false))]
    case DoubleClick => [Ran(ClickKind(DoubleClick), Resolved(h.onDoubleClickEvent, false))]
    case RightClick => [Ran(ClickKind(RightClick), Resolved(h.onRightClickEvent, false))]
    case OtherClickType => []
  }

  /** The hover-listener entry point a hover event of type `t` reaches; none
      has a default. */
  function HoverListenerSteps(h: HoverHandler, t: HoverEventType): seq<Step>
  {
    match t
    case MouseEnter => [Ran(HoverKind(MouseEnter), Resolved(h.onMouseEnterEvent, false))]
    case MouseHover => [Ran(HoverKind(MouseHover), Resolved(h.onMouseHoverEvent, false))]
    case MouseLeave => [Ran(HoverKind(MouseLeave), Resolved(h.onMouseLeaveEvent, false))]
    case OtherHoverType => []
  }

  /** The drag-listener entry point a drag event of type `t` reaches; none
      has a default. */
  function DragListenerSteps(h: DragHandler, t: DragEventType): seq<Step>
  {
    match t
    case DragStart => [Ran(DragKind(DragStart), Resolved(h.onDragStartEvent, false))]
    case DragMove => [Ran(DragKind(DragMove), Resolved(h.onDragMoveEvent, false))]
    case DragEnd => [Ran(DragKind(DragEnd), Resolved(h.onDragEndEvent, false))]
    case OtherDragType => []
  }

  /** The drop-listener entry point a drop event of type `t` reaches: enter
      has no default, and hover is resolved by the drop-enter hook. */
  function DropListenerSteps(h: DropHandler, t: DropEventType): seq<Step>
  {
    match t
    case DropEnter => [Ran(DropKind(DropEnter), Resolved(h.onDropEnterEvent, false))]
    case DropHover => [Ran(DropKind(DropHover), Resolved(h.onDropEnterEvent, true))]
    case DropLeave => [Ran(DropKind(DropLeave), Resolved(h.onDropLeaveEvent, true))]
    case DropRelease => [Ran(DropKind(DropRelease), Resolved(h.onDropReleaseEvent, true))]
    case DropAccept => [Ran(DropKind(DropAccept), Resolved(h.onDropAcceptEvent, true))]
    case DropDeny => [Ran(DropKind(DropDeny), Resolved(h.onDropDenyEvent, true))]
    case OtherDropType => []
  }

  /** The handler an incoming message runs: none when no listener is
      configured, for a raw pointer message or for an absent slot; otherwise
      the listener entry point of the message's type, within its category. */
  function ExternalSteps(
    clickEvent: Option<ClickHandler>, hoverEvent: Option<HoverHandler>,
    dragEvent: Option<DragHandler>, dropEvent: Option<DropHandler>, msg: Msg): (r: seq<Step>)
    ensures |r| <= 1
    ensures r != [] ==> r[0].Ran? && KindOf(msg) == Some(r[0].kind)
  {
    if clickEvent.None? && hoverEvent.None? && dragEvent.None? && dropEvent.None? then []
    else match msg
      case ClickMsg(ev) => if clickEvent.Some? then ClickListenerSteps(clickEvent.value, ev.eventType) else []
      case HoverMsg(ev) => if hoverEvent.Some? then HoverListenerSteps(hoverEvent.value, ev.eventType) else []
      case DragMsg(ev) => if dragEvent.Some? then DragListenerSteps(dragEvent.value, ev.eventType) else []
      case DropMsg(ev) => if dropEvent.Some? then DropListenerSteps(dropEvent.value, ev.eventType) else []
      case PointerMsg(_) => []
  }

  /** The change a default external drop handler of kind `k` makes, given the
      Acceptable flag of the incoming event. */
  function DropEventEffect(k: DropEventType, s: InteractionState, acceptable: bool): InteractionState
  {
    match k
    case DropEnter => s.(isAboveDrop := true, isValidDrop := acceptable)
    case DropHover => s.(isAboveDrop := true, isValidDrop := acceptable)
    case DropLeave => s.(isAboveDrop := false, isValidDrop := acceptable)
    case DropRelease => s.(isAboveDrop := false, isValidDrop := false)
    case DropAccept => s.(isAboveDrop := false, isValidDrop := false)
    case DropDeny => s.(isAboveDrop := false, isValidDrop := false)
    case OtherDropType => s
  }

  /** The record after an external dispatch whose trace is `trace` ran no
      application code: only a default drop handler changes anything. */
  function ExternalState(trace: seq<Step>, s: InteractionState, msg: Msg): InteractionState
  {
    if trace != [] && trace[0].Ran? && trace[0].via == Default && trace[0].kind.DropKind? && msg.DropMsg?
    then DropEventEffect(trace[0].kind.drop, s, msg.drop.acceptable)
    else s
  }

  /** External dispatch: when the LocalHandler hook is set (the source tests
      that hook, not ExternalHandler), the ExternalHandler hook runs instead of
      the default dispatcher. */
  method HandleExternalEvent(e: Interactable, msg: Msg) returns (cmds: seq<Cmd>, trace: seq<Step>)
    modifies e
    ensures e.hasLocalHandler ==> trace == [Overridden(ExternalHandlerHook)]
    ensures !e.hasLocalHandler ==> trace == ExternalSteps(e.clickEvent, e.hoverEvent, e.dragEvent, e.dropEvent, msg)
    ensures NoCustom(trace) ==> cmds == [] && e.State() == ExternalState(trace, old(e.State()), msg)
  {
    if e.hasLocalHandler {
      cmds := RunCustom(e);
      trace := [Overridden(ExternalHandlerHook)];
      assert !IsCustom(trace[0]) ==> false;
    } else {
      cmds, trace := DefaultExternalHandler(e, msg);
    }
  }

  /** The default external dispatcher: by the message's category, then by its
      kind, to the matching handler of the matching listener slot. Default
      external handlers emit nothing, so without application code the result
      carries no command. */
  method DefaultExternalHandler(e: Interactable, msg: Msg) returns (cmds: seq<Cmd>, trace: seq<Step>)
    modifies e
    ensures trace == ExternalSteps(e.clickEvent, e.hoverEvent, e.dragEvent, e.dropEvent, msg)
    ensures NoCustom(trace) ==> cmds == [] && e.State() == ExternalState(trace, old(e.State()), msg)
  {
    cmds, trace := [], [];
    if e.clickEvent.None? && e.hoverEvent.None? && e.dragEvent.None? && e.dropEvent.None? {
      return;
    }
    match msg {
      case ClickMsg(ev) =>
        if e.clickEvent.Some? {
          cmds, trace := ClickEventHandlers(e.clickEvent.value, e, ev);
        }
      case HoverMsg(ev) =>
        if e.hoverEvent.Some? {
          cmds, trace := HoverEventHandlers(e.hoverEvent.value, e, ev);
        }
      case DragMsg(ev) =>
        if e.dragEvent.Some? {
          cmds, trace := DragEventHandlers(e.dragEvent.value, e, ev);
        }
      case DropMsg(ev) =>
        if e.dropEvent.Some? {
          cmds, trace := DropEventHandlers(e.dropEvent.value, e, ev);
        }
      case PointerMsg(_) =>
    }
  }

  /** The ClickEvent case of the default external dispatcher. */
  method ClickEventHandlers(h: ClickHandler, e: Interactable, ev: ClickEvent) returns (cmds: seq<Cmd>, trace: seq<Step>)
    modifies e
    ensures trace == ClickListenerSteps(h, ev.eventType)
    ensures NoCustom(trace) ==> cmds == [] && e.State() == old(e.State())
  {
    cmds, trace := [], [];
    match ev.eventType {
      case Click => cmds, trace := Click.HandleClickEvent(h, e, ev);
      case DoubleClick => cmds, trace := Click.HandleDoubleClickEvent(h, e, ev);
      case RightClick => cmds, trace := Click.HandleRightClickEvent(h, e, ev);
      case OtherClickType =>
    }
    assert NoCustom(trace) && trace != [] ==> !IsCustom(trace[0]);
  }

  /** The HoverEvent case of the default external dispatcher. */
  method HoverEventHandlers(h: HoverHandler, e: Interactable, ev: HoverEvent) returns (cmds: seq<Cmd>, trace: seq<Step>)
    modifies e
    ensures trace == HoverListenerSteps(h, ev.eventType)
    ensures NoCustom(trace) ==> cmds == [] && e.State() == old(e.State())
  {
    cmds, trace := [], [];
    match ev.eventType {
      case MouseEnter => cmds, trace := Hover.HandleMouseEnterEvent(h, e, ev);
      case MouseHover => cmds, trace := Hover.HandleMouseHoverEvent(h, e, ev);
      case MouseLeave => cmds, trace := Hover.HandleMouseLeaveEvent(h, e, ev);
      case OtherHoverType =>
    }
    assert NoCustom(trace) && trace != [] ==> !IsCustom(trace[0]);
  }

  /** The DragEvent case of the default external dispatcher. */
  method DragEventHandlers(h: DragHandler, e: Interactable, ev: DragEvent) returns (cmds: seq<Cmd>, trace: seq<Step>)
    modifies e
    ensures trace == DragListenerSteps(h, ev.eventType)
    ensures NoCustom(trace) ==> cmds == [] && e.State() == old(e.State())
  {
    cmds, trace := [], [];
    match ev.eventType {
      case DragStart => cmds, trace := Drag.HandleDragStartEvent(h, e, ev);
      case DragMove => cmds, trace := Drag.HandleDragMoveEvent(h, e, ev);
      case DragEnd => cmds, trace := Drag.HandleDragEndEvent(h, e, ev);
      case OtherDragType =>
    }
    assert NoCustom(trace) && trace != [] ==> !IsCustom(trace[0]);
  }

  /** The DropEvent case of the default external dispatcher. */
  method DropEventHandlers(h: DropHandler, e: Interactable, ev: DropEvent) returns (cmds: seq<Cmd>, trace: seq<Step>)
    modifies e
    ensures trace == DropListenerSteps(h, ev.eventType)
    ensures NoCustom(trace) ==> cmds == [] && e.State() == ExternalState(trace, old(e.State()), DropMsg(ev))
  {
    cmds, trace := [], [];
    match ev.eventType {
      case DropEnter => cmds, trace := Drop.HandleDropEnterEvent(h, e, ev);
      case DropHover => cmds, trace := Drop.HandleDropHoverEvent(h, e, ev);
      case DropLeave => cmds, trace := Drop.HandleDropLeaveEvent(h, e, ev);
      case DropRelease => cmds, trace := Drop.HandleDropReleaseEvent(h, e, ev);
      case DropAccept => cmds, trace := Drop.HandleDropAcceptEvent(h, e, ev);
      case DropDeny => cmds, trace := Drop.HandleDropDenyEvent(h, e, ev);
      case OtherDropType =>
    }
    assert NoCustom(trace) && trace != [] ==> !IsCustom(trace[0]);
  }
}
