/** Properties of the dispatchers under the default policies, stated on the
    routing functions (`LocalSteps`, `ExternalSteps`) and on what the default
    handlers do (`Effects`, `Emissions`, `ExternalState`). The dispatcher
    methods are proved to follow those functions, so each lemma here is a fact
    about every run of the dispatcher in which no application hook ran. */
module DispatchFacts {
  import opened Events
  import opened Interaction
  import opened Messages
  import Drag

  lemma {:induction false} KindsAppend(a: seq<Step>, b: seq<Step>)
    ensures Kinds(a + b) == Kinds(a) + Kinds(b)
    decreases |a|
  {
    if a == [] {
      assert a + b == b;
    } else {
      var head := if a[0].Ran? then [a[0].kind] else [];
      assert (a + b)[0] == a[0];
      assert (a + b)[1..] == a[1..] + b;
      KindsAppend(a[1..], b);
      assert Kinds(a + b) == head + (Kinds(a[1..]) + Kinds(b));
      assert head + (Kinds(a[1..]) + Kinds(b)) == (head + Kinds(a[1..])) + Kinds(b);
    }
  }

  /** The hover handlers a motion runs, in order: enter then hover inside an
      unhovered element, hover alone (never enter) inside a hovered one, leave
      alone outside a hovered one, and none outside an unhovered one; then
      drag-move exactly when drag is configured and the element is dragging,
      wherever the pointer is. */
  lemma MotionOrder(
    click: Option<ClickHandler>, hover: Option<HoverHandler>, drag: Option<DragHandler>,
    msg: MouseMsg, inside: bool, hovered: bool, dragging: bool)
    requires msg.action == Motion
    ensures Kinds(LocalSteps(click, hover, drag, msg, inside, hovered, dragging)) ==
              (if hover.None? then []
               else if inside && !hovered then [HoverKind(MouseEnter), HoverKind(MouseHover)]
               else if inside then [HoverKind(MouseHover)]
               else if hovered then [HoverKind(MouseLeave)]
               else [])
              + (if drag.Some? && dragging then [DragKind(DragMove)] else [])
  {
    var hs := HoverSteps(hover, inside, hovered);
    KindsAppend(hs, DragMoveSteps(drag, dragging));
    if hover.Some? && inside && !hovered {
      KindsAppend([hs[0]], [hs[1]]);
      assert hs == [hs[0]] + [hs[1]];
    }
  }

  /** A press runs click when click is configured and the pointer is inside,
      then drag-start when drag is configured too; otherwise it runs nothing. */
  lemma PressOrder(
    click: Option<ClickHandler>, hover: Option<HoverHandler>, drag: Option<DragHandler>,
    msg: MouseMsg, inside: bool, hovered: bool, dragging: bool)
    requires msg.action == Press
    ensures Kinds(LocalSteps(click, hover, drag, msg, inside, hovered, dragging)) ==
              (if click.Some? && inside
               then [ClickKind(Click)] + (if drag.Some? then [DragKind(DragStart)] else [])
               else [])
  {
    if click.Some? && inside && drag.Some? {
      var ps := PressSteps(click, drag, inside);
      assert ps == [ps[0]] + [ps[1]];
      KindsAppend([ps[0]], [ps[1]]);
    }
  }

  /** A release runs drag-end exactly when drag is configured and the element
      is dragging, and where the pointer is makes no difference. */
  lemma ReleaseIgnoresPosition(
    click: Option<ClickHandler>, hover: Option<HoverHandler>, drag: Option<DragHandler>,
    msg: MouseMsg, hovered: bool, dragging: bool)
    requires msg.action == Release
    ensures LocalSteps(click, hover, drag, msg, true, hovered, dragging)
            == LocalSteps(click, hover, drag, msg, false, hovered, dragging)
    ensures Kinds(LocalSteps(click, hover, drag, msg, true, hovered, dragging))
            == (if drag.Some? && dragging then [DragKind(DragEnd)] else [])
  {
  }

  /** A dispatch in which no application hook ran followed the route: the
      second alternative of the dispatcher's contract needs a hook in the hover
      handlers. */
  lemma DefaultsFollowRoute(
    click: Option<ClickHandler>, hover: Option<HoverHandler>, drag: Option<DragHandler>,
    msg: MouseMsg, inside: bool, hovered: bool, dragging: bool, trace: seq<Step>)
    requires || trace == LocalSteps(click, hover, drag, msg, inside, hovered, dragging)
             || (&& msg.action == Motion
                 && !NoCustom(HoverSteps(hover, inside, hovered))
                 && trace == HoverSteps(hover, inside, hovered) + DragMoveSteps(drag, !dragging))
    requires NoCustom(trace)
    ensures trace == LocalSteps(click, hover, drag, msg, inside, hovered, dragging)
  {
    if trace != LocalSteps(click, hover, drag, msg, inside, hovered, dragging) {
      NoCustomAppend(HoverSteps(hover, inside, hovered), DragMoveSteps(drag, !dragging));
    }
  }

  /** With hover configured and no application hook, a motion leaves the
      element hovered exactly when the pointer is inside. */
  lemma MotionSetsHovered(
    click: Option<ClickHandler>, hover: Option<HoverHandler>, drag: Option<DragHandler>,
    s: InteractionState, msg: MouseMsg, inside: bool)
    requires msg.action == Motion && hover.Some?
    requires NoCustom(LocalSteps(click, hover, drag, msg, inside, s.isHovered, s.isDragging))
    ensures Effects(LocalSteps(click, hover, drag, msg, inside, s.isHovered, s.isDragging), s, msg).isHovered == inside
  {
    var hs := HoverSteps(hover, inside, s.isHovered);
    var ds := DragMoveSteps(drag, s.isDragging);
    NoCustomAppend(hs, ds);
    EffectsAppend(hs, ds, s, msg);
    HoverStepsSetHovered(hover, inside, s, msg);
    DragMoveKeepsHovered(drag, s.isDragging, Effects(hs, s, msg), msg);
  }

  /** The default hover policies leave the element hovered exactly when the
      pointer is inside. */
  lemma HoverStepsSetHovered(hover: Option<HoverHandler>, inside: bool, s: InteractionState, msg: MouseMsg)
    requires hover.Some? && NoCustom(HoverSteps(hover, inside, s.isHovered))
    ensures Effects(HoverSteps(hover, inside, s.isHovered), s, msg).isHovered == inside
  {
    var hs := HoverSteps(hover, inside, s.isHovered);
    if hs != [] {
      assert !IsCustom(hs[|hs| - 1]);
    }
  }

  /** Drag-move leaves the hovered flag alone. */
  lemma DragMoveKeepsHovered(drag: Option<DragHandler>, dragging: bool, s: InteractionState, msg: MouseMsg)
    ensures Effects(DragMoveSteps(drag, dragging), s, msg).isHovered == s.isHovered
  {
  }

  /** With hover configured and no application hook, a motion into an
      unhovered element emits the enter event and then the hover event, followed
      by the drag-move event when a drag is in progress. */
  lemma EnterThenHoverEmitted(
    click: Option<ClickHandler>, hover: Option<HoverHandler>, drag: Option<DragHandler>,
    s: InteractionState, msg: MouseMsg)
    requires msg.action == Motion && hover.Some? && !s.isHovered
    requires NoCustom(LocalSteps(click, hover, drag, msg, true, s.isHovered, s.isDragging))
    ensures Emissions(LocalSteps(click, hover, drag, msg, true, s.isHovered, s.isDragging), click, hover, drag, msg)
            == Emit(hover.value.emitMessages, HoverCmd(MouseEnter, msg)) + Emit(hover.value.emitMessages, HoverCmd(MouseHover, msg))
               + (if drag.Some? && s.isDragging then Emit(drag.value.emitMessages, DragCmd(DragMove, msg)) else [])
  {
    var hs := HoverSteps(hover, true, s.isHovered);
    var trace := LocalSteps(click, hover, drag, msg, true, s.isHovered, s.isDragging);
    assert trace == hs + DragMoveSteps(drag, s.isDragging);
    assert !IsCustom(trace[0]) && !IsCustom(trace[1]);
    EmissionsSnoc([hs[0]], hs[1], click, hover, drag, msg);
    assert hs == [hs[0]] + [hs[1]];
    if drag.Some? && s.isDragging {
      assert !IsCustom(trace[2]);
      EmissionsSnoc(hs, trace[2], click, hover, drag, msg);
      assert trace == hs + [trace[2]];
    } else {
      assert trace == hs;
    }
  }

  /** Under the default policies hovering is idempotent: a second identical
      motion inside an element that the first left hovered runs the hover
      handler without enter (followed by drag-move during a drag), and leaves
      the record as it was. */
  lemma HoverIdempotent(
    click: Option<ClickHandler>, hover: Option<HoverHandler>, drag: Option<DragHandler>,
    s: InteractionState, msg: MouseMsg)
    requires msg.action == Motion && hover.Some?
    requires NoCustom(LocalSteps(click, hover, drag, msg, true, s.isHovered, s.isDragging))
    ensures var s1 := Effects(LocalSteps(click, hover, drag, msg, true, s.isHovered, s.isDragging), s, msg);
            && Kinds(LocalSteps(click, hover, drag, msg, true, s1.isHovered, s1.isDragging))
               == [HoverKind(MouseHover)] + (if drag.Some? && s.isDragging then [DragKind(DragMove)] else [])
            && Effects(LocalSteps(click, hover, drag, msg, true, s1.isHovered, s1.isDragging), s1, msg) == s1
  {
    var trace := LocalSteps(click, hover, drag, msg, true, s.isHovered, s.isDragging);
    var hs := HoverSteps(hover, true, s.isHovered);
    var ds := DragMoveSteps(drag, s.isDragging);
    assert trace == hs + ds;
    NoCustomAppend(hs, ds);
    MotionSetsHovered(click, hover, drag, s, msg, true);
    var s1 := Effects(trace, s, msg);
    assert !IsCustom(hs[|hs| - 1]);
    if drag.Some? && s.isDragging {
      assert !IsCustom(ds[0]);
      DragMoveTracksPointer(click, hover, drag, s, msg, true);
    } else {
      assert trace == hs + [];
      HoverKeepsDrag(hover, true, s, msg);
    }
    SecondMotion(click, hover, drag, s1, msg);
  }

  /** A motion inside an element that is already hovered, and whose offset
      already matches the pointer during a drag, runs hover (and drag-move
      during a drag) and changes nothing. */
  lemma SecondMotion(
    click: Option<ClickHandler>, hover: Option<HoverHandler>, drag: Option<DragHandler>,
    s: InteractionState, msg: MouseMsg)
    requires msg.action == Motion && hover.Some? && !hover.value.onMouseHover && s.isHovered
    requires drag.Some? && s.isDragging ==> !drag.value.onDragMove && s.dragOffset == Drag.Offset(msg, s.dragOrigin)
    ensures Kinds(LocalSteps(click, hover, drag, msg, true, s.isHovered, s.isDragging))
            == [HoverKind(MouseHover)] + (if drag.Some? && s.isDragging then [DragKind(DragMove)] else [])
    ensures Effects(LocalSteps(click, hover, drag, msg, true, s.isHovered, s.isDragging), s, msg) == s
  {
    var again := LocalSteps(click, hover, drag, msg, true, s.isHovered, s.isDragging);
    var first := Ran(HoverKind(MouseHover), Default);
    if drag.Some? && s.isDragging {
      var move := Ran(DragKind(DragMove), Default);
      assert again == [first] + [move];
      assert Kinds(again) == [HoverKind(MouseHover)] + Kinds([move]);
      assert again[..1] == [first] && [first][..0] == [];
      assert Effects([first], s, msg) == s;
    } else {
      assert again == [first] && [first][..0] == [];
    }
  }

  /** Under the default policies a motion during a drag keeps the origin and
      sets the offset so that origin plus offset is the pointer position. */
  lemma DragMoveTracksPointer(
    click: Option<ClickHandler>, hover: Option<HoverHandler>, drag: Option<DragHandler>,
    s: InteractionState, msg: MouseMsg, inside: bool)
    requires msg.action == Motion && drag.Some? && s.isDragging
    requires NoCustom(LocalSteps(click, hover, drag, msg, inside, s.isHovered, s.isDragging))
    ensures var s1 := Effects(LocalSteps(click, hover, drag, msg, inside, s.isHovered, s.isDragging), s, msg);
            && s1.isDragging
            && s1.dragOrigin == s.dragOrigin
            && s1.dragOrigin.x + s1.dragOffset.x == msg.x
            && s1.dragOrigin.y + s1.dragOffset.y == msg.y
  {
    var hs := HoverSteps(hover, inside, s.isHovered);
    var ds := DragMoveSteps(drag, s.isDragging);
    NoCustomAppend(hs, ds);
    EffectsAppend(hs, ds, s, msg);
    assert !IsCustom(ds[0]);
    HoverKeepsDrag(hover, inside, s, msg);
  }

  /** The hover handlers' default policies leave the drag fields alone. */
  lemma HoverKeepsDrag(hover: Option<HoverHandler>, inside: bool, s: InteractionState, msg: MouseMsg)
    ensures var s1 := Effects(HoverSteps(hover, inside, s.isHovered), s, msg);
            s1.isDragging == s.isDragging && s1.dragOrigin == s.dragOrigin && s1.dragOffset == s.dragOffset
  {
    var hs := HoverSteps(hover, inside, s.isHovered);
    if |hs| == 2 {
      assert hs == [hs[0]] + [hs[1]];
      EffectsAppend([hs[0]], [hs[1]], s, msg);
    }
  }

  /** Under the default policies a press inside an element with click and
      drag configured selects it and starts a drag at the pointer with a zero
      offset, emitting the click event before the drag-start event; without
      drag it only selects; outside, or without click, nothing changes. */
  lemma PressStartsDrag(
    click: Option<ClickHandler>, hover: Option<HoverHandler>, drag: Option<DragHandler>,
    s: InteractionState, msg: MouseMsg, inside: bool)
    requires msg.action == Press
    requires NoCustom(LocalSteps(click, hover, drag, msg, inside, s.isHovered, s.isDragging))
    ensures var trace := LocalSteps(click, hover, drag, msg, inside, s.isHovered, s.isDragging);
            && (click.Some? && inside && drag.Some? ==>
                  && Effects(trace, s, msg)
                     == s.(isSelected := true, isDragging := true, dragOrigin := Point(msg.x, msg.y), dragOffset := Point(0, 0))
                  && Emissions(trace, click, hover, drag, msg)
                     == Emit(click.value.emitMessages, ClickCmd(Click, msg)) + Emit(drag.value.emitMessages, DragCmd(DragStart, msg)))
            && (click.Some? && inside && drag.None? ==> Effects(trace, s, msg) == s.(isSelected := true))
            && (!(click.Some? && inside) ==> Effects(trace, s, msg) == s && Emissions(trace, click, hover, drag, msg) == [])
  {
    var trace := LocalSteps(click, hover, drag, msg, inside, s.isHovered, s.isDragging);
    if click.Some? && inside {
      assert !IsCustom(trace[0]);
      if drag.Some? {
        assert !IsCustom(trace[1]);
        assert trace == [trace[0]] + [trace[1]];
        EffectsAppend([trace[0]], [trace[1]], s, msg);
        EmissionsSnoc([trace[0]], trace[1], click, hover, drag, msg);
      }
    }
  }

  /** Under the default policies a release while dragging ends the drag,
      keeping origin and offset, and emits the drag-end event; otherwise it
      changes nothing. */
  lemma ReleaseEndsDrag(
    click: Option<ClickHandler>, hover: Option<HoverHandler>, drag: Option<DragHandler>,
    s: InteractionState, msg: MouseMsg, inside: bool)
    requires msg.action == Release
    requires NoCustom(LocalSteps(click, hover, drag, msg, inside, s.isHovered, s.isDragging))
    ensures var trace := LocalSteps(click, hover, drag, msg, inside, s.isHovered, s.isDragging);
            && (drag.Some? && s.isDragging ==>
                  && Effects(trace, s, msg) == s.(isDragging := false)
                  && Emissions(trace, click, hover, drag, msg) == Emit(drag.value.emitMessages, DragCmd(DragEnd, msg)))
            && (!(drag.Some? && s.isDragging) ==> Effects(trace, s, msg) == s && Emissions(trace, click, hover, drag, msg) == [])
  {
    var trace := LocalSteps(click, hover, drag, msg, inside, s.isHovered, s.isDragging);
    if drag.Some? && s.isDragging {
      assert !IsCustom(trace[0]);
    }
  }

  // ---------------------------------------------------------------------------
  // Sessions: many pointer messages in a row

  /** True when none of the three capabilities the local dispatcher calls has
      an override hook set, so every handler it runs is a default policy. */
  predicate DefaultsOnly(click: Option<ClickHandler>, hover: Option<HoverHandler>, drag: Option<DragHandler>)
  {
    && (click.Some? ==> !click.value.onClick)
    && (hover.Some? ==> !hover.value.onMouseEnter && !hover.value.onMouseHover && !hover.value.onMouseLeave)
    && (drag.Some? ==> !drag.value.onDragStart && !drag.value.onDragMove && !drag.value.onDragEnd)
  }

  /** Without override hooks no local dispatch runs application code. */
  lemma DefaultsOnlyNoCustom(
    click: Option<ClickHandler>, hover: Option<HoverHandler>, drag: Option<DragHandler>,
    msg: MouseMsg, inside: bool, hovered: bool, dragging: bool)
    requires DefaultsOnly(click, hover, drag)
    ensures NoCustom(LocalSteps(click, hover, drag, msg, inside, hovered, dragging))
  {
    var trace := LocalSteps(click, hover, drag, msg, inside, hovered, dragging);
    forall i | 0 <= i < |trace| ensures !IsCustom(trace[i]) {
      if msg.action == Motion {
        var hs := HoverSteps(hover, inside, hovered);
        if i < |hs| { assert trace[i] == hs[i]; } else { assert trace[i] == DragMoveSteps(drag, dragging)[i - |hs|]; }
      }
    }
  }

  /** The record after a sequence of pointer messages, each paired with its
      inside bit, under the default policies. It describes the code's runs only
      when `DefaultsOnly` holds, because it treats a hook step as changing
      nothing. */
  function Session(
    click: Option<ClickHandler>, hover: Option<HoverHandler>, drag: Option<DragHandler>,
    s: InteractionState, inputs: seq<(MouseMsg, bool)>): InteractionState
    decreases |inputs|
  {
    if inputs == [] then s
    else
      var (msg, inside) := inputs[0];
      Session(click, hover, drag, Effects(LocalSteps(click, hover, drag, msg, inside, s.isHovered, s.isDragging), s, msg), inputs[1..])
  }

  lemma {:induction false} EffectsKeepSelection(trace: seq<Step>, s: InteractionState, msg: MouseMsg)
    requires s.isSelected
    ensures Effects(trace, s, msg).isSelected
    decreases |trace|
  {
    if trace != [] {
      EffectsKeepSelection(trace[..|trace| - 1], s, msg);
    }
  }

  /** With no override hook, nothing the local dispatcher runs ever
      deselects: once selected, an element stays selected through any session. */
  lemma {:induction false} SelectionSticks(
    click: Option<ClickHandler>, hover: Option<HoverHandler>, drag: Option<DragHandler>,
    s: InteractionState, inputs: seq<(MouseMsg, bool)>)
    requires DefaultsOnly(click, hover, drag) && s.isSelected
    ensures Session(click, hover, drag, s, inputs).isSelected
    decreases |inputs|
  {
    if inputs != [] {
      var (msg, inside) := inputs[0];
      EffectsKeepSelection(LocalSteps(click, hover, drag, msg, inside, s.isHovered, s.isDragging), s, msg);
      SelectionSticks(click, hover, drag,
        Effects(LocalSteps(click, hover, drag, msg, inside, s.isHovered, s.isDragging), s, msg), inputs[1..]);
    }
  }

  lemma {:induction false} EffectsWithoutDrag(trace: seq<Step>, s: InteractionState, msg: MouseMsg)
    requires forall i :: 0 <= i < |trace| ==> !trace[i].Ran? || !trace[i].kind.DragKind?
    ensures Effects(trace, s, msg).isDragging == s.isDragging
    ensures Effects(trace, s, msg).dragOrigin == s.dragOrigin
    ensures Effects(trace, s, msg).dragOffset == s.dragOffset
    decreases |trace|
  {
    if trace != [] {
      EffectsWithoutDrag(trace[..|trace| - 1], s, msg);
    }
  }

  /** With no override hook, an element without the drag capability never
      starts dragging, and its drag points never move, whatever pointer
      messages arrive. */
  lemma {:induction false} NoDragCapabilityNoDrag(
    click: Option<ClickHandler>, hover: Option<HoverHandler>,
    s: InteractionState, inputs: seq<(MouseMsg, bool)>)
    requires DefaultsOnly(click, hover, None)
    ensures Session(click, hover, None, s, inputs).isDragging == s.isDragging
    ensures Session(click, hover, None, s, inputs).dragOrigin == s.dragOrigin
    ensures Session(click, hover, None, s, inputs).dragOffset == s.dragOffset
    decreases |inputs|
  {
    if inputs != [] {
      var (msg, inside) := inputs[0];
      var trace := LocalSteps(click, hover, None, msg, inside, s.isHovered, s.isDragging);
      forall i | 0 <= i < |trace| ensures !trace[i].Ran? || !trace[i].kind.DragKind? {
        if msg.action == Motion {
          assert trace == HoverSteps(hover, inside, s.isHovered) + [];
        }
      }
      EffectsWithoutDrag(trace, s, msg);
      NoDragCapabilityNoDrag(click, hover, Effects(trace, s, msg), inputs[1..]);
    }
  }

  // ---------------------------------------------------------------------------
  // External dispatch

  /** External dispatch runs a handler exactly when some listener is
      configured, the message is a semantic event, the listener slot of its
      category is configured and its type is a named one; and the handler it
      runs is then the one for that category and type. */
  lemma ExternalRouting(
    clickEvent: Option<ClickHandler>, hoverEvent: Option<HoverHandler>,
    dragEvent: Option<DragHandler>, dropEvent: Option<DropHandler>, msg: Msg)
    ensures var r := ExternalSteps(clickEvent, hoverEvent, dragEvent, dropEvent, msg);
            r != [] <==> (KindOf(msg).Some? && Listens(clickEvent, hoverEvent, dragEvent, dropEvent, KindOf(msg).value)
                          && Named(KindOf(msg).value))
  {
  }

  /** Without application code only drop events change the record through
      external dispatch. */
  lemma ExternalOnlyDropChanges(trace: seq<Step>, s: InteractionState, msg: Msg)
    requires !msg.DropMsg?
    ensures ExternalState(trace, s, msg) == s
  {
  }

  /** Without application code, an external drop event of any kind but enter
      has the effect of that kind's default handler; enter changes nothing. */
  lemma ExternalDropState(dropEvent: DropHandler, s: InteractionState, ev: DropEvent)
    requires NoCustom(DropListenerSteps(dropEvent, ev.eventType))
    ensures ev.eventType == DropEnter ==> ExternalState(DropListenerSteps(dropEvent, ev.eventType), s, DropMsg(ev)) == s
    ensures ev.eventType != DropEnter ==>
              ExternalState(DropListenerSteps(dropEvent, ev.eventType), s, DropMsg(ev))
              == DropEventEffect(ev.eventType, s, ev.acceptable)
  {
    var steps := DropListenerSteps(dropEvent, ev.eventType);
    if steps != [] {
      assert !IsCustom(steps[0]);
    }
  }

  /** The default external drop handlers change only the above-a-drop and
      validity flags: hover raises the first and copies the event's verdict,
      leave lowers it and copies the verdict, and release, accept and deny
      clear both. */
  lemma DropEventFlags(k: DropEventType, s: InteractionState, acceptable: bool)
    ensures var s1 := DropEventEffect(k, s, acceptable);
            && s1 == s.(isAboveDrop := s1.isAboveDrop, isValidDrop := s1.isValidDrop)
            && (k == DropHover ==> s1.isAboveDrop && s1.isValidDrop == acceptable)
            && (k == DropLeave ==> !s1.isAboveDrop && s1.isValidDrop == acceptable)
            && (k == DropRelease || k == DropAccept || k == DropDeny ==> !s1.isAboveDrop && !s1.isValidDrop)
  {
  }

  /** Cross-element drag feedback. A drop target whose default hover policy
      ran emits a DropHover command; once the host runs it, the drag source
      (a drop listener without hooks and without the LocalHandler override)
      ends above a drop with the target's validity as its own. */
  lemma SourceMirrorsTarget(
    targetId: string, target: InteractionState, ev: DragEvent,
    clickEvent: Option<ClickHandler>, hoverEvent: Option<HoverHandler>,
    dragEvent: Option<DragHandler>, dropEvent: DropHandler, source: InteractionState)
    requires !dropEvent.onDropEnterEvent
    ensures var msg := Resolve(DropCmd(DropHover, ev), targetId, target);
            var trace := ExternalSteps(clickEvent, hoverEvent, dragEvent, Some(dropEvent), msg);
            && trace == [Ran(DropKind(DropHover), Default)]
            && ExternalState(trace, source, msg) == source.(isAboveDrop := true, isValidDrop := target.isValidDrop)
  {
  }
}
