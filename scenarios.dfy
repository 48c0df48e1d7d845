/** Short client sessions over freshly built elements, in the way an
    application wires the library: each builds its elements, feeds them
    messages through the entry points, and runs the returned commands as the
    host would, right after each dispatch. */
module Scenarios {
  import opened Events
  import opened Interaction
  import opened Messages
  import Drop
  import DispatchFacts

  /** A drop target that accepts only "file" drags. */
  const FileTarget := DropHandler(
    false, false, false, false, false, false, false,
    false, false, false, false, false, false,
    ["file"], true)

  /** A drag of type `ev.dragType` enters a "file" target and is released on
      it. The target is valid while the drag is over it exactly for a "file"
      drag, ends reset, and its events carry these verdicts: the enter event
      (run before the release arrives) the acceptance verdict, the release
      event false (it reads the flag after the reset), then accept with true
      or deny with false. */
  method DropOnFileTarget(ev: DragEvent) returns (validWhileOver: bool, final: InteractionState, msgs: seq<Msg>)
    ensures validWhileOver == (ev.dragType == "file")
    ensures !final.isBelowDrop && !final.isValidDrop
    ensures msgs == [
      DropMsg(DropEvent("target", DropEnter, "", ev.dragType == "file", ev)),
      DropMsg(DropEvent("target", DropRelease, "", false, ev)),
      DropMsg(DropEvent("target", if ev.dragType == "file" then DropAccept else DropDeny, "", ev.dragType == "file", ev))]
  {
    var target := new Interactable("target", None, None, None, Some(FileTarget),
                                   None, None, None, None, false, false, false);
    assert Drop.Accepts(["file"], ev.dragType) == (ev.dragType == "file") by {
      assert multiset(["file"]) == multiset{"file"};
    }
    var entered, _ := Drop.HandleDropEnter(FileTarget, target, ev);
    validWhileOver := target.isValidDrop;
    msgs := RunAll(entered, target.id, target.State());
    var released, trace := Drop.HandleDropRelease(FileTarget, target, ev);
    assert trace[1..] == [Drop.FollowUp(FileTarget, ev.dragType == "file")];
    assert !IsCustom(trace[0]) && !IsCustom(trace[1]);
    final := target.State();
    msgs := msgs + RunAll(released, target.id, final);
  }

  /** Drag feedback between two elements: while a drag of type `ev.dragType`
      hovers over a "file" target, the target's DropHover event reaches the
      drag source, which then sees itself above a drop that is valid exactly
      for a "file" drag. */
  method HoverFeedback(ev: DragEvent) returns (source: InteractionState)
    ensures source == Initial.(isAboveDrop := true, isValidDrop := ev.dragType == "file")
  {
    var target := new Interactable("target", None, None, None, Some(FileTarget),
                                   None, None, None, None, false, false, false);
    var card := new Interactable("card", None, None, None, None,
                                 None, None, None, Some(FileTarget), false, false, false);
    assert Drop.Accepts(["file"], ev.dragType) == (ev.dragType == "file") by {
      assert multiset(["file"]) == multiset{"file"};
    }
    var hovered, _ := Drop.HandleDropHover(FileTarget, target, ev);
    var feedback := RunAll(hovered, target.id, target.State());
    var _, trace := HandleExternalEvent(card, feedback[0]);
    assert !IsCustom(trace[0]);
    source := card.State();
  }

  /** The card of `DragCard`: click and drag configured, emitting, no hooks. */
  const CardClick := ClickHandler(false, false, false, false, false, false, true)
  const CardDrag := DragHandler(false, false, false, false, false, false, true)

  /** A card with click and drag and no hooks is pressed at (2, 3), dragged to
      (7, 5) and released. It ends selected and not dragging, with the drag
      origin at the press and the offset (5, 2); it emits click and drag-start,
      then drag-move, then drag-end, each reporting the points as they are
      when the host runs it. */
  method DragCard() returns (final: InteractionState, msgs: seq<Msg>)
    ensures final == Initial.(isSelected := true, dragOrigin := Point(2, 3), dragOffset := Point(5, 2))
    ensures msgs == [
      ClickMsg(ClickEvent("card", Click, MouseMsg(2, 3, Press))),
      DragMsg(DragEvent("card", DragStart, "", Point(2, 3), Point(0, 0), MouseMsg(2, 3, Press))),
      DragMsg(DragEvent("card", DragMove, "", Point(2, 3), Point(5, 2), MouseMsg(7, 5, Motion))),
      DragMsg(DragEvent("card", DragEnd, "", Point(2, 3), Point(5, 2), MouseMsg(7, 5, Release)))]
  {
    var card := new Interactable("card", Some(CardClick), None, Some(CardDrag), None,
                                 None, None, None, None, false, false, false);
    var pressed := PressCard(card);
    var moved := MoveCard(card);
    var released := ReleaseCard(card);
    msgs := pressed + moved + released;
    final := card.State();
  }

  /** The press at (2, 3), inside the card. */
  method PressCard(card: Interactable) returns (msgs: seq<Msg>)
    requires card.id == "card" && card.click == Some(CardClick) && card.hover.None? && card.drag == Some(CardDrag)
    requires !card.hasLocalHandler && card.State() == Initial
    modifies card
    ensures card.State() == Initial.(isSelected := true, isDragging := true, dragOrigin := Point(2, 3))
    ensures msgs == [
      ClickMsg(ClickEvent("card", Click, MouseMsg(2, 3, Press))),
      DragMsg(DragEvent("card", DragStart, "", Point(2, 3), Point(0, 0), MouseMsg(2, 3, Press)))]
  {
    var press := MouseMsg(2, 3, Press);
    DispatchFacts.DefaultsOnlyNoCustom(card.click, card.hover, card.drag, press, true, false, false);
    DispatchFacts.PressStartsDrag(card.click, card.hover, card.drag, Initial, press, true);
    var cmds, _ := HandleMouseMsg(card, press, true);
    msgs := RunAll(cmds, card.id, card.State());
  }

  /** The motion to (7, 5), outside the card, during the drag. */
  method MoveCard(card: Interactable) returns (msgs: seq<Msg>)
    requires card.id == "card" && card.click == Some(CardClick) && card.hover.None? && card.drag == Some(CardDrag)
    requires !card.hasLocalHandler
    requires card.State() == Initial.(isSelected := true, isDragging := true, dragOrigin := Point(2, 3))
    modifies card
    ensures card.State() == Initial.(isSelected := true, isDragging := true, dragOrigin := Point(2, 3), dragOffset := Point(5, 2))
    ensures msgs == [DragMsg(DragEvent("card", DragMove, "", Point(2, 3), Point(5, 2), MouseMsg(7, 5, Motion)))]
  {
    var move := MouseMsg(7, 5, Motion);
    ghost var s := card.State();
    DispatchFacts.DefaultsOnlyNoCustom(card.click, card.hover, card.drag, move, false, false, true);
    var cmds, trace := HandleMouseMsg(card, move, false);
    DispatchFacts.DefaultsFollowRoute(card.click, card.hover, card.drag, move, false, false, true, trace);
    assert trace == [Ran(DragKind(DragMove), Default)];
    assert Effects(trace, s, move) == LocalEffect(trace[0], s, move);
    msgs := RunAll(cmds, card.id, card.State());
  }

  /** The release at (7, 5), ending the drag. */
  method ReleaseCard(card: Interactable) returns (msgs: seq<Msg>)
    requires card.id == "card" && card.click == Some(CardClick) && card.hover.None? && card.drag == Some(CardDrag)
    requires !card.hasLocalHandler
    requires card.State() == Initial.(isSelected := true, isDragging := true, dragOrigin := Point(2, 3), dragOffset := Point(5, 2))
    modifies card
    ensures card.State() == Initial.(isSelected := true, dragOrigin := Point(2, 3), dragOffset := Point(5, 2))
    ensures msgs == [DragMsg(DragEvent("card", DragEnd, "", Point(2, 3), Point(5, 2), MouseMsg(7, 5, Release)))]
  {
    var release := MouseMsg(7, 5, Release);
    DispatchFacts.DefaultsOnlyNoCustom(card.click, card.hover, card.drag, release, false, false, true);
    DispatchFacts.ReleaseEndsDrag(card.click, card.hover, card.drag, card.State(), release, false);
    var cmds, _ := HandleMouseMsg(card, release, false);
    msgs := RunAll(cmds, card.id, card.State());
  }
}
