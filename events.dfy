/** Value types of the interaction layer: pointer messages, the semantic
    events each capability broadcasts, the configuration records of the four
    capability handlers, the interaction flags of one element, and the
    deferred commands that handlers hand back to the host loop. */
module Events {

  datatype Option<+T> = None | Some(value: T)

  /** A coordinate pair. */
  datatype Point = Point(x: int, y: int)

  /** The action of a pointer message. `OtherAction` stands for every value
      of the host's action enumeration that is not one of the three named
      ones; the dispatcher ignores it. */
  datatype MouseAction = Press | Release | Motion | OtherAction

  /** A raw pointer message: position and action (button and modifier keys
      are never read by this layer). */
  datatype MouseMsg = MouseMsg(x: int, y: int, action: MouseAction)

  // Event kinds. Each enumeration is an integer type in the source, so each
  // gets one extra value standing for any integer outside the named constants.
  datatype ClickEventType = Click | DoubleClick | RightClick | OtherClickType
  datatype HoverEventType = MouseEnter | MouseHover | MouseLeave | OtherHoverType
  datatype DragEventType = DragStart | DragMove | DragEnd | OtherDragType
  datatype DropEventType =
    | DropEnter | DropHover | DropLeave | DropRelease | DropAccept | DropDeny
    | OtherDropType

  datatype ClickEvent = ClickEvent(id: string, eventType: ClickEventType, mouseMsg: MouseMsg)

  datatype HoverEvent = HoverEvent(id: string, eventType: HoverEventType, mouseMsg: MouseMsg)

  /** `dragType` is the application's tag that drop targets match against
      their accepted types. */
  datatype DragEvent = DragEvent(
    id: string,
    eventType: DragEventType,
    dragType: string,
    dragOrigin: Point,
    dragOffset: Point,
    mouseMsg: MouseMsg)

  datatype DropEvent = DropEvent(
    id: string,
    eventType: DropEventType,
    dropType: string,
    acceptable: bool,
    dragEvent: DragEvent)

  /** A message delivered to an element by the host loop. */
  datatype Msg =
    | ClickMsg(click: ClickEvent)
    | HoverMsg(hover: HoverEvent)
    | DragMsg(drag: DragEvent)
    | DropMsg(drop: DropEvent)
    | PointerMsg(mouse: MouseMsg)

  // Handler configurations. Every `on...` / `isAcceptable` field says whether
  // the application set that override hook; what the hook does is not modelled.

  datatype ClickHandler = ClickHandler(
    onClick: bool,
    onDoubleClick: bool,
    onRightClick: bool,
    onClickEvent: bool,
    onDoubleClickEvent: bool,
    onRightClickEvent: bool,
    emitMessages: bool)

  datatype HoverHandler = HoverHandler(
    onMouseEnter: bool,
    onMouseHover: bool,
    onMouseLeave: bool,
    onMouseEnterEvent: bool,
    onMouseHoverEvent: bool,
    onMouseLeaveEvent: bool,
    emitMessages: bool)

  datatype DragHandler = DragHandler(
    onDragStart: bool,
    onDragMove: bool,
    onDragEnd: bool,
    onDragStartEvent: bool,
    onDragMoveEvent: bool,
    onDragEndEvent: bool,
    emitMessages: bool)

  datatype DropHandler = DropHandler(
    onDropEnter: bool,
    onDropHover: bool,
    onDropLeave: bool,
    onDropRelease: bool,
    onDropAccept: bool,
    onDropDeny: bool,
    isAcceptable: bool,
    onDropEnterEvent: bool,
    onDropHoverEvent: bool,
    onDropLeaveEvent: bool,
    onDropReleaseEvent: bool,
    onDropAcceptEvent: bool,
    onDropDenyEvent: bool,
    acceptedDropTypes: seq<string>,
    emitMessages: bool)

  /** The mutable interaction flags and drag points of one element. */
  datatype InteractionState = InteractionState(
    isSelected: bool,
    isHovered: bool,
    isDragging: bool,
    dragOrigin: Point,
    dragOffset: Point,
    isValidDrop: bool,
    isAboveDrop: bool,
    isBelowDrop: bool)

  /** The zero value of the record, as a fresh element has it. */
  const Initial := InteractionState(false, false, false, Point(0, 0), Point(0, 0), false, false, false)

  /** A deferred command, as a default handler returns it. The source returns a
      closure that builds its event only when the host runs it, reading the
      element's ID (and, for drag and drop, its points or its IsValidDrop flag)
      at that later moment; `Resolve` gives that event. `Send` is a command
      that yields a fixed message, as application code may return. */
  datatype Cmd =
    | ClickCmd(clickKind: ClickEventType, mouseMsg: MouseMsg)
    | HoverCmd(hoverKind: HoverEventType, mouseMsg: MouseMsg)
    | DragCmd(dragKind: DragEventType, mouseMsg: MouseMsg)
    | DropCmd(dropKind: DropEventType, dragEvent: DragEvent)
    | Send(msg: Msg)

  /** A default handler's command: one when the handler emits messages, none otherwise. */
  function Emit(emitMessages: bool, cmd: Cmd): seq<Cmd>
  {
    if emitMessages then [cmd] else []
  }

  /** The drop-event flag a drop command carries: accept always says true,
      deny always false, every other kind whatever IsValidDrop holds when the
      command runs. */
  function DropAcceptable(kind: DropEventType, s: InteractionState): bool
  {
    match kind
    case DropAccept => true
    case DropDeny => false
    case _ => s.isValidDrop
  }

  /** The message a command produces when the host runs it while the emitting
      element has identity `id` and state `s`. */
  function Resolve(cmd: Cmd, id: string, s: InteractionState): (m: Msg)
    ensures cmd.ClickCmd? ==> m.ClickMsg? && m.click.id == id && m.click.eventType == cmd.clickKind
    ensures cmd.HoverCmd? ==> m.HoverMsg? && m.hover.id == id && m.hover.eventType == cmd.hoverKind
    // a default drag event never sets DragType, and carries the points as they are when it runs
    ensures cmd.DragCmd? ==>
              m.DragMsg? && m.drag.id == id && m.drag.dragType == "" &&
              m.drag.eventType == cmd.dragKind &&
              m.drag.dragOrigin == s.dragOrigin && m.drag.dragOffset == s.dragOffset
    ensures cmd.DropCmd? ==>
              m.DropMsg? && m.drop.id == id && m.drop.eventType == cmd.dropKind &&
              m.drop.dragEvent == cmd.dragEvent && m.drop.dropType == ""
    ensures cmd.DropCmd? && cmd.dropKind == DropAccept ==> m.drop.acceptable
    ensures cmd.DropCmd? && cmd.dropKind == DropDeny ==> !m.drop.acceptable
    ensures cmd.DropCmd? && cmd.dropKind !in {DropAccept, DropDeny} ==> m.drop.acceptable == s.isValidDrop
  {
    match cmd
    case ClickCmd(k, mouse) => ClickMsg(ClickEvent(id, k, mouse))
    case HoverCmd(k, mouse) => HoverMsg(HoverEvent(id, k, mouse))
    case DragCmd(k, mouse) => DragMsg(DragEvent(id, k, "", s.dragOrigin, s.dragOffset, mouse))
    case DropCmd(k, drag) => DropMsg(DropEvent(id, k, "", DropAcceptable(k, s), drag))
    case Send(m) => m
  }

  /** The messages a batch of commands produces when the host runs them all,
      in order, while the element has state `s`. */
  function RunAll(cmds: seq<Cmd>, id: string, s: InteractionState): (ms: seq<Msg>)
    ensures |ms| == |cmds|
    ensures forall i :: 0 <= i < |cmds| ==> ms[i] == Resolve(cmds[i], id, s)
  {
    if cmds == [] then [] else [Resolve(cmds[0], id, s)] + RunAll(cmds[1..], id, s)
  }
}
