/** The drag capability: local drag start, move and end handlers with their
    default policies, and the handlers for drag events broadcast by other
    elements. */
module Drag {
  import opened Events
  import opened Interaction

  /** The offset of the pointer from the drag origin. */
  function Offset(msg: MouseMsg, origin: Point): (p: Point)
    ensures origin.x + p.x == msg.x && origin.y + p.y == msg.y
  {
    Point(msg.x - origin.x, msg.y - origin.y)
  }

  /** A drag begins: the OnDragStart hook when set, otherwise the default. */
  method HandleDragStart(h: DragHandler, e: Interactable, msg: MouseMsg)
    returns (cmds: seq<Cmd>, trace: seq<Step>)
    modifies e
    ensures trace == [Ran(DragKind(DragStart), Resolved(h.onDragStart, true))]
    ensures !h.onDragStart ==>
              e.State() == old(e.State()).(isDragging := true, dragOrigin := Point(msg.x, msg.y), dragOffset := Point(0, 0))
    ensures !h.onDragStart ==> cmds == Emit(h.emitMessages, DragCmd(DragStart, msg))
  {
    if h.onDragStart {
      cmds := RunCustom(e);
    } else {
      cmds := DefaultDragStart(h, e, msg);
    }
    trace := [Ran(DragKind(DragStart), Resolved(h.onDragStart, true))];
  }

  /** Default start policy: dragging, the origin is the pointer position and
      the offset is zero; a DragStart event when emitting. */
  method DefaultDragStart(h: DragHandler, e: Interactable, msg: MouseMsg) returns (cmds: seq<Cmd>)
    modifies e
    ensures e.State() == old(e.State()).(isDragging := true, dragOrigin := Point(msg.x, msg.y), dragOffset := Point(0, 0))
    ensures cmds == Emit(h.emitMessages, DragCmd(DragStart, msg))
  {
    e.isDragging := true;
    e.dragOrigin := Point(msg.x, msg.y);
    e.dragOffset := Point(0, 0);
    cmds := Emit(h.emitMessages, DragCmd(DragStart, msg));
  }

  /** The pointer moved during a drag: the OnDragMove hook when set, otherwise
      the default. */
  method HandleDragMove(h: DragHandler, e: Interactable, msg: MouseMsg)
    returns (cmds: seq<Cmd>, trace: seq<Step>)
    modifies e
    ensures trace == [Ran(DragKind(DragMove), Resolved(h.onDragMove, true))]
    ensures !h.onDragMove ==>
              e.State() == old(e.State()).(isDragging := true, dragOffset := Offset(msg, old(e.dragOrigin)))
    ensures !h.onDragMove ==> cmds == Emit(h.emitMessages, DragCmd(DragMove, msg))
  {
    if h.onDragMove {
      cmds := RunCustom(e);
    } else {
      cmds := DefaultDragMove(h, e, msg);
    }
    trace := [Ran(DragKind(DragMove), Resolved(h.onDragMove, true))];
  }

  /** Default move policy: still dragging, the origin is kept and the offset
      is recomputed, so origin plus offset is the pointer position; a DragMove
      event when emitting. */
  method DefaultDragMove(h: DragHandler, e: Interactable, msg: MouseMsg) returns (cmds: seq<Cmd>)
    modifies e
    ensures e.State() == old(e.State()).(isDragging := true, dragOffset := Offset(msg, old(e.dragOrigin)))
    ensures e.dragOrigin == old(e.dragOrigin)
    ensures e.dragOrigin.x + e.dragOffset.x == msg.x && e.dragOrigin.y + e.dragOffset.y == msg.y
    ensures cmds == Emit(h.emitMessages, DragCmd(DragMove, msg))
  {
    e.isDragging := true;
    e.dragOffset := Point(msg.x - e.dragOrigin.x, msg.y - e.dragOrigin.y);
    cmds := Emit(h.emitMessages, DragCmd(DragMove, msg));
  }

  /** A drag ends: the OnDragEnd hook when set, otherwise the default. */
  method HandleDragEnd(h: DragHandler, e: Interactable, msg: MouseMsg)
    returns (cmds: seq<Cmd>, trace: seq<Step>)
    modifies e
    ensures trace == [Ran(DragKind(DragEnd), Resolved(h.onDragEnd, true))]
    ensures !h.onDragEnd ==> e.State() == old(e.State()).(isDragging := false)
    ensures !h.onDragEnd ==> cmds == Emit(h.emitMessages, DragCmd(DragEnd, msg))
  {
    if h.onDragEnd {
      cmds := RunCustom(e);
    } else {
      cmds := DefaultDragEnd(h, e, msg);
    }
    trace := [Ran(DragKind(DragEnd), Resolved(h.onDragEnd, true))];
  }

  /** Default end policy: no longer dragging; origin and offset are kept, so
      the DragEnd event (when emitting) reports where the drag finished. */
  method DefaultDragEnd(h: DragHandler, e: Interactable, msg: MouseMsg) returns (cmds: seq<Cmd>)
    modifies e
    ensures e.State() == old(e.State()).(isDragging := false)
    ensures cmds == Emit(h.emitMessages, DragCmd(DragEnd, msg))
  {
    e.isDragging := false;
    cmds := Emit(h.emitMessages, DragCmd(DragEnd, msg));
  }

  /** Another element's drag-start event: only the OnDragStartEvent hook acts. */
  method HandleDragStartEvent(h: DragHandler, e: Interactable, ev: DragEvent)
    returns (cmds: seq<Cmd>, trace: seq<Step>)
    modifies e
    ensures trace == [Ran(DragKind(DragStart), Resolved(h.onDragStartEvent, false))]
    ensures !h.onDragStartEvent ==> e.State() == old(e.State()) && cmds == []
  {
    if h.onDragStartEvent {
      cmds := RunCustom(e);
    } else {
      cmds := [];
    }
    trace := [Ran(DragKind(DragStart), Resolved(h.onDragStartEvent, false))];
  }

  /** Another element's drag-move event: only the OnDragMoveEvent hook acts. */
  method HandleDragMoveEvent(h: DragHandler, e: Interactable, ev: DragEvent)
    returns (cmds: seq<Cmd>, trace: seq<Step>)
    modifies e
    ensures trace == [Ran(DragKind(DragMove), Resolved(h.onDragMoveEvent, false))]
    ensures !h.onDragMoveEvent ==> e.State() == old(e.State()) && cmds == []
  {
    if h.onDragMoveEvent {
      cmds := RunCustom(e);
    } else {
      cmds := [];
    }
    trace := [Ran(DragKind(DragMove), Resolved(h.onDragMoveEvent, false))];
  }

  /** Another element's drag-end event: only the OnDragEndEvent hook acts. */
  method HandleDragEndEvent(h: DragHandler, e: Interactable, ev: DragEvent)
    returns (cmds: seq<Cmd>, trace: seq<Step>)
    modifies e
    ensures trace == [Ran(DragKind(DragEnd), Resolved(h.onDragEndEvent, false))]
    ensures !h.onDragEndEvent ==> e.State() == old(e.State()) && cmds == []
  {
    if h.onDragEndEvent {
      cmds := RunCustom(e);
    } else {
      cmds := [];
    }
    trace := [Ran(DragKind(DragEnd), Resolved(h.onDragEndEvent, false))];
  }
}
