/** The hover capability: local enter, hover and leave handlers with their
    default policies, and the handlers for hover events broadcast by other
    elements. */
module Hover {
  import opened Events
  import opened Interaction

  /** The pointer entered the element: the OnMouseEnter hook when set,
      otherwise the default. */
  method HandleMouseEnter(h: HoverHandler, e: Interactable, msg: MouseMsg)
    returns (cmds: seq<Cmd>, trace: seq<Step>)
    modifies e
    ensures trace == [Ran(HoverKind(MouseEnter), Resolved(h.onMouseEnter, true))]
    ensures !h.onMouseEnter ==> e.State() == old(e.State()).(isHovered := true)
    ensures !h.onMouseEnter ==> cmds == Emit(h.emitMessages, HoverCmd(MouseEnter, msg))
  {
    if h.onMouseEnter {
      cmds := RunCustom(e);
    } else {
      cmds := DefaultMouseEnter(h, e, msg);
    }
    trace := [Ran(HoverKind(MouseEnter), Resolved(h.onMouseEnter, true))];
  }

  /** Default enter policy: the element is hovered and nothing else changes; a
      MouseEnter event naming the element is broadcast when emitting. */
  method DefaultMouseEnter(h: HoverHandler, e: Interactable, msg: MouseMsg) returns (cmds: seq<Cmd>)
    modifies e
    ensures e.State() == old(e.State()).(isHovered := true)
    ensures cmds == Emit(h.emitMessages, HoverCmd(MouseEnter, msg))
  {
    e.isHovered := true;
    cmds := Emit(h.emitMessages, HoverCmd(MouseEnter, msg));
  }

  /** The pointer moved within the element: the OnMouseHover hook when set,
      otherwise the default. */
  method HandleMouseHover(h: HoverHandler, e: Interactable, msg: MouseMsg)
    returns (cmds: seq<Cmd>, trace: seq<Step>)
    modifies e
    ensures trace == [Ran(HoverKind(MouseHover), Resolved(h.onMouseHover, true))]
    ensures !h.onMouseHover ==> e.State() == old(e.State()).(isHovered := true)
    ensures !h.onMouseHover ==> cmds == Emit(h.emitMessages, HoverCmd(MouseHover, msg))
  {
    if h.onMouseHover {
      cmds := RunCustom(e);
    } else {
      cmds := DefaultMouseHover(h, e, msg);
    }
    trace := [Ran(HoverKind(MouseHover), Resolved(h.onMouseHover, true))];
  }

  /** Default hover policy: the element is hovered, so on an element that is
      already hovered the record is unchanged; a MouseHover event when emitting. */
  method DefaultMouseHover(h: HoverHandler, e: Interactable, msg: MouseMsg) returns (cmds: seq<Cmd>)
    modifies e
    ensures e.State() == old(e.State()).(isHovered := true)
    ensures old(e.isHovered) ==> e.State() == old(e.State())
    ensures cmds == Emit(h.emitMessages, HoverCmd(MouseHover, msg))
  {
    e.isHovered := true;
    cmds := Emit(h.emitMessages, HoverCmd(MouseHover, msg));
  }

  /** The pointer left the element: the OnMouseLeave hook when set, otherwise
      the default. */
  method HandleMouseLeave(h: HoverHandler, e: Interactable, msg: MouseMsg)
    returns (cmds: seq<Cmd>, trace: seq<Step>)
    modifies e
    ensures trace == [Ran(HoverKind(MouseLeave), Resolved(h.onMouseLeave, true))]
    ensures !h.onMouseLeave ==> e.State() == old(e.State()).(isHovered := false)
    ensures !h.onMouseLeave ==> cmds == Emit(h.emitMessages, HoverCmd(MouseLeave, msg))
  {
    if h.onMouseLeave {
      cmds := RunCustom(e);
    } else {
      cmds := DefaultMouseLeave(h, e, msg);
    }
    trace := [Ran(HoverKind(MouseLeave), Resolved(h.onMouseLeave, true))];
  }

  /** Default leave policy: the element is no longer hovered and nothing else
      changes; a MouseLeave event when emitting. */
  method DefaultMouseLeave(h: HoverHandler, e: Interactable, msg: MouseMsg) returns (cmds: seq<Cmd>)
    modifies e
    ensures e.State() == old(e.State()).(isHovered := false)
    ensures cmds == Emit(h.emitMessages, HoverCmd(MouseLeave, msg))
  {
    e.isHovered := false;
    cmds := Emit(h.emitMessages, HoverCmd(MouseLeave, msg));
  }

  /** Another element's enter event: only the OnMouseEnterEvent hook acts. */
  method HandleMouseEnterEvent(h: HoverHandler, e: Interactable, ev: HoverEvent)
    returns (cmds: seq<Cmd>, trace: seq<Step>)
    modifies e
    ensures trace == [Ran(HoverKind(MouseEnter), Resolved(h.onMouseEnterEvent, false))]
    ensures !h.onMouseEnterEvent ==> e.State() == old(e.State()) && cmds == []
  {
    if h.onMouseEnterEvent {
      cmds := RunCustom(e);
    } else {
      cmds := [];
    }
    trace := [Ran(HoverKind(MouseEnter), Resolved(h.onMouseEnterEvent, false))];
  }

  /** Another element's hover event: only the OnMouseHoverEvent hook acts. */
  method HandleMouseHoverEvent(h: HoverHandler, e: Interactable, ev: HoverEvent)
    returns (cmds: seq<Cmd>, trace: seq<Step>)
    modifies e
    ensures trace == [Ran(HoverKind(MouseHover), Resolved(h.onMouseHoverEvent, false))]
    ensures !h.onMouseHoverEvent ==> e.State() == old(e.State()) && cmds == []
  {
    if h.onMouseHoverEvent {
      cmds := RunCustom(e);
    } else {
      cmds := [];
    }
    trace := [Ran(HoverKind(MouseHover), Resolved(h.onMouseHoverEvent, false))];
  }

  /** Another element's leave event: only the OnMouseLeaveEvent hook acts. */
  method HandleMouseLeaveEvent(h: HoverHandler, e: Interactable, ev: HoverEvent)
    returns (cmds: seq<Cmd>, trace: seq<Step>)
    modifies e
    ensures trace == [Ran(HoverKind(MouseLeave), Resolved(h.onMouseLeaveEvent, false))]
    ensures !h.onMouseLeaveEvent ==> e.State() == old(e.State()) && cmds == []
  {
    if h.onMouseLeaveEvent {
      cmds := RunCustom(e);
    } else {
      cmds := [];
    }
    trace := [Ran(HoverKind(MouseLeave), Resolved(h.onMouseLeaveEvent, false))];
  }
}
