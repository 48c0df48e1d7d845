/** The click capability: local click, double-click and right-click handlers
    with their default policies, and the handlers for click events broadcast
    by other elements. */
module Click {
  import opened Events
  import opened Interaction

  /** A click on the element: the OnClick hook when set, otherwise the default. */
  method HandleClick(h: ClickHandler, e: Interactable, msg: MouseMsg)
    returns (cmds: seq<Cmd>, trace: seq<Step>)
    modifies e
    ensures trace == [Ran(ClickKind(Click), Resolved(h.onClick, true))]
    ensures !h.onClick ==> e.State() == old(e.State()).(isSelected := true)
    ensures !h.onClick ==> cmds == Emit(h.emitMessages, ClickCmd(Click, msg))
  {
    if h.onClick {
      cmds := RunCustom(e);
    } else {
      cmds := DefaultClick(h, e, msg);
    }
    trace := [Ran(ClickKind(Click), Resolved(h.onClick, true))];
  }

  /** Default click policy: the element becomes selected (it is not toggled, so
      a selected element stays selected) and, when the handler emits messages,
      one Click event naming the element is broadcast. */
  method DefaultClick(h: ClickHandler, e: Interactable, msg: MouseMsg) returns (cmds: seq<Cmd>)
    modifies e
    ensures e.isSelected
    ensures e.State() == old(e.State()).(isSelected := true)
    ensures old(e.isSelected) ==> e.State() == old(e.State())
    ensures cmds == Emit(h.emitMessages, ClickCmd(Click, msg))
  {
    e.isSelected := true;
    cmds := Emit(h.emitMessages, ClickCmd(Click, msg));
  }

  /** A double click: the OnDoubleClick hook when set, otherwise the default. */
  method HandleDoubleClick(h: ClickHandler, e: Interactable, msg: MouseMsg)
    returns (cmds: seq<Cmd>, trace: seq<Step>)
    modifies e
    ensures trace == [Ran(ClickKind(DoubleClick), Resolved(h.onDoubleClick, true))]
    ensures !h.onDoubleClick ==> e.State() == old(e.State()).(isSelected := true)
    ensures !h.onDoubleClick ==> cmds == Emit(h.emitMessages, ClickCmd(DoubleClick, msg))
  {
    if h.onDoubleClick {
      cmds := RunCustom(e);
    } else {
      cmds := DefaultDoubleClick(h, e, msg);
    }
    trace := [Ran(ClickKind(DoubleClick), Resolved(h.onDoubleClick, true))];
  }

  /** Default double-click policy: selected, and a DoubleClick event when emitting. */
  method DefaultDoubleClick(h: ClickHandler, e: Interactable, msg: MouseMsg) returns (cmds: seq<Cmd>)
    modifies e
    ensures e.State() == old(e.State()).(isSelected := true)
    ensures cmds == Emit(h.emitMessages, ClickCmd(DoubleClick, msg))
  {
    e.isSelected := true;
    cmds := Emit(h.emitMessages, ClickCmd(DoubleClick, msg));
  }

  /** A right click: only the OnRightClick hook acts; without it the element is
      returned untouched and nothing is emitted (the default policy below is
      never called). */
  method HandleRightClick(h: ClickHandler, e: Interactable, msg: MouseMsg)
    returns (cmds: seq<Cmd>, trace: seq<Step>)
    modifies e
    ensures trace == [Ran(ClickKind(RightClick), Resolved(h.onRightClick, false))]
    ensures !h.onRightClick ==> e.State() == old(e.State()) && cmds == []
  {
    if h.onRightClick {
      cmds := RunCustom(e);
    } else {
      cmds := [];
    }
    trace := [Ran(ClickKind(RightClick), Resolved(h.onRightClick, false))];
  }

  /** The right-click default that no entry point calls: it selects the element
      and, when emitting, tags its event DoubleClick rather than RightClick. */
  method DefaultRightClick(h: ClickHandler, e: Interactable, msg: MouseMsg) returns (cmds: seq<Cmd>)
    modifies e
    ensures e.State() == old(e.State()).(isSelected := true)
    ensures cmds == Emit(h.emitMessages, ClickCmd(DoubleClick, msg))
  {
    e.isSelected := true;
    cmds := Emit(h.emitMessages, ClickCmd(DoubleClick, msg));
  }

  /** Another element's click event: only the OnClickEvent hook acts. */
  method HandleClickEvent(h: ClickHandler, e: Interactable, ev: ClickEvent)
    returns (cmds: seq<Cmd>, trace: seq<Step>)
    modifies e
    ensures trace == [Ran(ClickKind(Click), Resolved(h.onClickEvent, false))]
    ensures !h.onClickEvent ==> e.State() == old(e.State()) && cmds == []
  {
    if h.onClickEvent {
      cmds := RunCustom(e);
    } else {
      cmds := [];
    }
    trace := [Ran(ClickKind(Click), Resolved(h.onClickEvent, false))];
  }

  /** Another element's double-click event: only the OnDoubleClickEvent hook acts. */
  method HandleDoubleClickEvent(h: ClickHandler, e: Interactable, ev: ClickEvent)
    returns (cmds: seq<Cmd>, trace: seq<Step>)
    modifies e
    ensures trace == [Ran(ClickKind(DoubleClick), Resolved(h.onDoubleClickEvent, false))]
    ensures !h.onDoubleClickEvent ==> e.State() == old(e.State()) && cmds == []
  {
    if h.onDoubleClickEvent {
      cmds := RunCustom(e);
    } else {
      cmds := [];
    }
    trace := [Ran(ClickKind(DoubleClick), Resolved(h.onDoubleClickEvent, false))];
  }

  /** Another element's right-click event: only the OnRightClickEvent hook acts. */
  method HandleRightClickEvent(h: ClickHandler, e: Interactable, ev: ClickEvent)
    returns (cmds: seq<Cmd>, trace: seq<Step>)
    modifies e
    ensures trace == [Ran(ClickKind(RightClick), Resolved(h.onRightClickEvent, false))]
    ensures !h.onRightClickEvent ==> e.State() == old(e.State()) && cmds == []
  {
    if h.onRightClickEvent {
      cmds := RunCustom(e);
    } else {
      cmds := [];
    }
    trace := [Ran(ClickKind(RightClick), Resolved(h.onRightClickEvent, false))];
  }
}
