/** The drop capability. Locally, a drop target reacts to a drag passing over
    it (enter, hover, leave) and to its release, which chains into exactly one
    of accept or deny; acceptance is a membership test of the drag's type in
    the target's accepted types. Externally, a drag source reacts to the drop
    events a target broadcasts. */
module Drop {
  import opened Events
  import opened Interaction

  /** The acceptance reference: the drag type is one of the accepted types.
      Stated on the multiset of accepted types, so it cannot depend on their order. */
  predicate Accepts(acceptedDropTypes: seq<string>, dragType: string)
  {
    dragType in multiset(acceptedDropTypes)
  }

  /** Default acceptance: scans the accepted types in order for the drag's type. */
  method DefaultIsAcceptable(h: DropHandler, ev: DragEvent) returns (ok: bool)
    ensures ok == Accepts(h.acceptedDropTypes, ev.dragType)
    ensures ok <==> exists j :: 0 <= j < |h.acceptedDropTypes| && h.acceptedDropTypes[j] == ev.dragType
    ensures h.acceptedDropTypes == [] ==> !ok
  {
    var i := 0;
    while i < |h.acceptedDropTypes|
      invariant 0 <= i <= |h.acceptedDropTypes|
      invariant forall j :: 0 <= j < i ==> h.acceptedDropTypes[j] != ev.dragType
    {
      if ev.dragType == h.acceptedDropTypes[i] {
        return true;
      }
      i := i + 1;
    }
    return false;
  }

  /** Acceptance: the IsAcceptable hook replaces the membership test entirely
      when set. The hook is application code that receives the element, so it
      may also change the record, and its verdict is arbitrary; the membership
      test changes nothing. */
  method HandleIsAcceptable(h: DropHandler, e: Interactable, ev: DragEvent) returns (ok: bool)
    modifies e
    ensures !h.isAcceptable ==> ok == Accepts(h.acceptedDropTypes, ev.dragType) && e.State() == old(e.State())
  {
    if h.isAcceptable {
      var _ := RunCustom(e);
      ok := *;
    } else {
      ok := DefaultIsAcceptable(h, ev);
    }
  }

  /** A drag entered the target: the OnDropEnter hook when set, otherwise the default. */
  method HandleDropEnter(h: DropHandler, e: Interactable, ev: DragEvent)
    returns (cmds: seq<Cmd>, trace: seq<Step>)
    modifies e
    ensures trace == [Ran(DropKind(DropEnter), Resolved(h.onDropEnter, true))]
    ensures !h.onDropEnter && !h.isAcceptable ==>
              e.State() == old(e.State()).(isBelowDrop := true, isValidDrop := Accepts(h.acceptedDropTypes, ev.dragType))
    ensures !h.onDropEnter ==> cmds == Emit(h.emitMessages, DropCmd(DropEnter, ev))
  {
    if h.onDropEnter {
      cmds := RunCustom(e);
    } else {
      cmds := DefaultDropEnter(h, e, ev);
    }
    trace := [Ran(DropKind(DropEnter), Resolved(h.onDropEnter, true))];
  }

  /** Default enter policy: the target is below a drag and its validity is the
      acceptance verdict; no other field changes. A DropEnter event when emitting. */
  method DefaultDropEnter(h: DropHandler, e: Interactable, ev: DragEvent) returns (cmds: seq<Cmd>)
    modifies e
    ensures !h.isAcceptable ==>
              e.State() == old(e.State()).(isBelowDrop := true, isValidDrop := Accepts(h.acceptedDropTypes, ev.dragType))
    ensures cmds == Emit(h.emitMessages, DropCmd(DropEnter, ev))
  {
    e.isBelowDrop := true;
    e.isValidDrop := HandleIsAcceptable(h, e, ev);
    cmds := Emit(h.emitMessages, DropCmd(DropEnter, ev));
  }

  /** A drag moved over the target: the OnDropHover hook when set, otherwise the default. */
  method HandleDropHover(h: DropHandler, e: Interactable, ev: DragEvent)
    returns (cmds: seq<Cmd>, trace: seq<Step>)
    modifies e
    ensures trace == [Ran(DropKind(DropHover), Resolved(h.onDropHover, true))]
    ensures !h.onDropHover && !h.isAcceptable ==>
              e.State() == old(e.State()).(isBelowDrop := true, isValidDrop := Accepts(h.acceptedDropTypes, ev.dragType))
    ensures !h.onDropHover ==> cmds == Emit(h.emitMessages, DropCmd(DropHover, ev))
  {
    if h.onDropHover {
      cmds := RunCustom(e);
    } else {
      cmds := DefaultDropHover(h, e, ev);
    }
    trace := [Ran(DropKind(DropHover), Resolved(h.onDropHover, true))];
  }

  /** Default hover policy: as for enter, with a DropHover event when emitting. */
  method DefaultDropHover(h: DropHandler, e: Interactable, ev: DragEvent) returns (cmds: seq<Cmd>)
    modifies e
    ensures !h.isAcceptable ==>
              e.State() == old(e.State()).(isBelowDrop := true, isValidDrop := Accepts(h.acceptedDropTypes, ev.dragType))
    ensures cmds == Emit(h.emitMessages, DropCmd(DropHover, ev))
  {
    e.isBelowDrop := true;
    e.isValidDrop := HandleIsAcceptable(h, e, ev);
    cmds := Emit(h.emitMessages, DropCmd(DropHover, ev));
  }

  /** A drag left the target: the OnDropLeave hook when set, otherwise the default. */
  method HandleDropLeave(h: DropHandler, e: Interactable, ev: DragEvent)
    returns (cmds: seq<Cmd>, trace: seq<Step>)
    modifies e
    ensures trace == [Ran(DropKind(DropLeave), Resolved(h.onDropLeave, true))]
    ensures !h.onDropLeave ==> e.State() == old(e.State()).(isBelowDrop := false, isValidDrop := false)
    ensures !h.onDropLeave ==> cmds == Emit(h.emitMessages, DropCmd(DropLeave, ev))
  {
    if h.onDropLeave {
      cmds := RunCustom(e);
    } else {
      cmds := DefaultDropLeave(h, e, ev);
    }
    trace := [Ran(DropKind(DropLeave), Resolved(h.onDropLeave, true))];
  }

  /** Default leave policy: neither below a drag nor a valid drop. The DropLeave
      command is created before the reset but reads IsValidDrop only when it
      runs, that is after the reset. */
  method DefaultDropLeave(h: DropHandler, e: Interactable, ev: DragEvent) returns (cmds: seq<Cmd>)
    modifies e
    ensures e.State() == old(e.State()).(isBelowDrop := false, isValidDrop := false)
    ensures cmds == Emit(h.emitMessages, DropCmd(DropLeave, ev))
  {
    e.isBelowDrop := false;
    cmds := Emit(h.emitMessages, DropCmd(DropLeave, ev));
    e.isValidDrop := false;
  }

  /** The handler a release chains into, for a given verdict. */
  function FollowUp(h: DropHandler, accepted: bool): Step
  {
    if accepted then Ran(DropKind(DropAccept), Resolved(h.onDropAccept, true))
    else Ran(DropKind(DropDeny), Resolved(h.onDropDeny, true))
  }

  /** A drag was released over the target: the OnDropRelease hook when set,
      otherwise the default, which chains into accept or deny. */
  method HandleDropRelease(h: DropHandler, e: Interactable, ev: DragEvent)
    returns (cmds: seq<Cmd>, trace: seq<Step>)
    modifies e
    ensures 1 <= |trace| <= 2
    ensures trace[0] == Ran(DropKind(DropRelease), Resolved(h.onDropRelease, true))
    ensures h.onDropRelease ==> |trace| == 1
    ensures !h.onDropRelease ==> trace[1..] == [FollowUp(h, true)] || trace[1..] == [FollowUp(h, false)]
    ensures !h.onDropRelease && !h.isAcceptable ==> trace[1..] == [FollowUp(h, Accepts(h.acceptedDropTypes, ev.dragType))]
    ensures !h.onDropRelease ==> Emit(h.emitMessages, DropCmd(DropRelease, ev)) <= cmds
    ensures NoCustom(trace) ==>
              && |trace| == 2
              && !e.isBelowDrop && !e.isValidDrop
              && cmds == Emit(h.emitMessages, DropCmd(DropRelease, ev)) + Emit(h.emitMessages, DropCmd(trace[1].kind.drop, ev))
    ensures NoCustom(trace) && !h.isAcceptable ==> e.State() == old(e.State()).(isBelowDrop := false, isValidDrop := false)
  {
    if h.onDropRelease {
      cmds := RunCustom(e);
      trace := [Ran(DropKind(DropRelease), Custom)];
    } else {
      var rest;
      cmds, rest := DefaultDropRelease(h, e, ev);
      trace := [Ran(DropKind(DropRelease), Default)] + rest;
      assert trace[1..] == rest;
      assert NoCustom(trace) ==> NoCustom(rest) by {
        if NoCustom(trace) {
          forall i | 0 <= i < |rest| ensures !IsCustom(rest[i]) {
            assert rest[i] == trace[i + 1];
          }
        }
      }
    }
  }

  /** Default release policy: the validity is the acceptance verdict, a
      DropRelease command is emitted first, and then exactly one of accept (valid)
      or deny (invalid) runs, never both. Under the default accept and deny the
      target ends neither below a drag nor a valid drop, whichever branch ran. */
  method DefaultDropRelease(h: DropHandler, e: Interactable, ev: DragEvent)
    returns (cmds: seq<Cmd>, trace: seq<Step>)
    modifies e
    ensures trace == [FollowUp(h, true)] || trace == [FollowUp(h, false)]
    ensures !h.isAcceptable ==> trace == [FollowUp(h, Accepts(h.acceptedDropTypes, ev.dragType))]
    ensures Emit(h.emitMessages, DropCmd(DropRelease, ev)) <= cmds
    ensures NoCustom(trace) ==>
              && !e.isBelowDrop && !e.isValidDrop
              && cmds == Emit(h.emitMessages, DropCmd(DropRelease, ev)) + Emit(h.emitMessages, DropCmd(trace[0].kind.drop, ev))
    ensures NoCustom(trace) && !h.isAcceptable ==> e.State() == old(e.State()).(isBelowDrop := false, isValidDrop := false)
  {
    e.isValidDrop := HandleIsAcceptable(h, e, ev);
    cmds := Emit(h.emitMessages, DropCmd(DropRelease, ev));
    var more;
    more, trace := Settle(h, e, ev, e.isValidDrop);
    cmds := cmds + more;
  }

  /** The branch that ends a release: accept when the drop is valid, deny
      otherwise. */
  method Settle(h: DropHandler, e: Interactable, ev: DragEvent, valid: bool)
    returns (cmds: seq<Cmd>, trace: seq<Step>)
    modifies e
    ensures trace == [FollowUp(h, valid)]
    ensures NoCustom(trace) ==>
              && e.State() == old(e.State()).(isBelowDrop := false, isValidDrop := false)
              && cmds == Emit(h.emitMessages, DropCmd(if valid then DropAccept else DropDeny, ev))
  {
    if valid {
      cmds, trace := HandleDropAccept(h, e, ev);
      assert NoCustom(trace) ==> !IsCustom(trace[0]);
    } else {
      cmds, trace := HandleDropDeny(h, e, ev);
      assert NoCustom(trace) ==> !IsCustom(trace[0]);
    }
  }

  /** The drop was accepted: the OnDropAccept hook when set, otherwise the default. */
  method HandleDropAccept(h: DropHandler, e: Interactable, ev: DragEvent)
    returns (cmds: seq<Cmd>, trace: seq<Step>)
    modifies e
    ensures trace == [FollowUp(h, true)]
    ensures !h.onDropAccept ==> e.State() == old(e.State()).(isBelowDrop := false, isValidDrop := false)
    ensures !h.onDropAccept ==> cmds == Emit(h.emitMessages, DropCmd(DropAccept, ev))
  {
    if h.onDropAccept {
      cmds := RunCustom(e);
    } else {
      cmds := DefaultDropAccept(h, e, ev);
    }
    trace := [Ran(DropKind(DropAccept), Resolved(h.onDropAccept, true))];
  }

  /** Default accept policy: the target is reset (neither below a drag nor a
      valid drop); its DropAccept event always says acceptable. */
  method DefaultDropAccept(h: DropHandler, e: Interactable, ev: DragEvent) returns (cmds: seq<Cmd>)
    modifies e
    ensures e.State() == old(e.State()).(isBelowDrop := false, isValidDrop := false)
    ensures cmds == Emit(h.emitMessages, DropCmd(DropAccept, ev))
  {
    cmds := Emit(h.emitMessages, DropCmd(DropAccept, ev));
    e.isBelowDrop := false;
    e.isValidDrop := false;
  }

  /** The drop was denied: the OnDropDeny hook when set, otherwise the default. */
  method HandleDropDeny(h: DropHandler, e: Interactable, ev: DragEvent)
    returns (cmds: seq<Cmd>, trace: seq<Step>)
    modifies e
    ensures trace == [FollowUp(h, false)]
    ensures !h.onDropDeny ==> e.State() == old(e.State()).(isBelowDrop := false, isValidDrop := false)
    ensures !h.onDropDeny ==> cmds == Emit(h.emitMessages, DropCmd(DropDeny, ev))
  {
    if h.onDropDeny {
      cmds := RunCustom(e);
    } else {
      cmds := DefaultDropDeny(h, e, ev);
    }
    trace := [Ran(DropKind(DropDeny), Resolved(h.onDropDeny, true))];
  }

  /** Default deny policy: the same reset as accept; its DropDeny event always
      says not acceptable. */
  method DefaultDropDeny(h: DropHandler, e: Interactable, ev: DragEvent) returns (cmds: seq<Cmd>)
    modifies e
    ensures e.State() == old(e.State()).(isBelowDrop := false, isValidDrop := false)
    ensures cmds == Emit(h.emitMessages, DropCmd(DropDeny, ev))
  {
    cmds := Emit(h.emitMessages, DropCmd(DropDeny, ev));
    e.isBelowDrop := false;
    e.isValidDrop := false;
  }

  // External drop events: the element is a drag source hearing from a target.

  /** A target reports the drag entered it: only the OnDropEnterEvent hook acts;
      the default below is never called. */
  method HandleDropEnterEvent(h: DropHandler, e: Interactable, ev: DropEvent)
    returns (cmds: seq<Cmd>, trace: seq<Step>)
    modifies e
    ensures trace == [Ran(DropKind(DropEnter), Resolved(h.onDropEnterEvent, false))]
    ensures !h.onDropEnterEvent ==> e.State() == old(e.State()) && cmds == []
  {
    if h.onDropEnterEvent {
      cmds := RunCustom(e);
    } else {
      cmds := [];
    }
    trace := [Ran(DropKind(DropEnter), Resolved(h.onDropEnterEvent, false))];
  }

  /** The external enter default that no entry point calls: above a drop, with
      the target's verdict as validity. */
  method DefaultDropEnterEvent(h: DropHandler, e: Interactable, ev: DropEvent) returns (cmds: seq<Cmd>)
    modifies e
    ensures e.State() == old(e.State()).(isAboveDrop := true, isValidDrop := ev.acceptable)
    ensures cmds == []
  {
    e.isAboveDrop := true;
    e.isValidDrop := ev.acceptable;
    cmds := [];
  }

  /** A target reports the drag hovering over it. The entry point tests the
      OnDropEnterEvent hook (not OnDropHoverEvent) and, when it is set, runs the
      OnDropHoverEvent hook; otherwise the default runs. */
  method HandleDropHoverEvent(h: DropHandler, e: Interactable, ev: DropEvent)
    returns (cmds: seq<Cmd>, trace: seq<Step>)
    modifies e
    ensures trace == [Ran(DropKind(DropHover), Resolved(h.onDropEnterEvent, true))]
    ensures !h.onDropEnterEvent ==> e.State() == old(e.State()).(isAboveDrop := true, isValidDrop := ev.acceptable)
    ensures !h.onDropEnterEvent ==> cmds == []
  {
    if h.onDropEnterEvent {
      cmds := RunCustom(e);
    } else {
      cmds := DefaultDropHoverEvent(h, e, ev);
    }
    trace := [Ran(DropKind(DropHover), Resolved(h.onDropEnterEvent, true))];
  }

  /** Default external hover: above a drop, with the target's verdict as validity. */
  method DefaultDropHoverEvent(h: DropHandler, e: Interactable, ev: DropEvent) returns (cmds: seq<Cmd>)
    modifies e
    ensures e.State() == old(e.State()).(isAboveDrop := true, isValidDrop := ev.acceptable)
    ensures cmds == []
  {
    e.isAboveDrop := true;
    e.isValidDrop := ev.acceptable;
    cmds := [];
  }

  /** A target reports the drag left it: the OnDropLeaveEvent hook when set,
      otherwise the default. */
  method HandleDropLeaveEvent(h: DropHandler, e: Interactable, ev: DropEvent)
    returns (cmds: seq<Cmd>, trace: seq<Step>)
    modifies e
    ensures trace == [Ran(DropKind(DropLeave), Resolved(h.onDropLeaveEvent, true))]
    ensures !h.onDropLeaveEvent ==> e.State() == old(e.State()).(isAboveDrop := false, isValidDrop := ev.acceptable)
    ensures !h.onDropLeaveEvent ==> cmds == []
  {
    if h.onDropLeaveEvent {
      cmds := RunCustom(e);
    } else {
      cmds := DefaultDropLeaveEvent(h, e, ev);
    }
    trace := [Ran(DropKind(DropLeave), Resolved(h.onDropLeaveEvent, true))];
  }

  /** Default external leave: no longer above a drop; the validity is copied
      from the event (it is not cleared). */
  method DefaultDropLeaveEvent(h: DropHandler, e: Interactable, ev: DropEvent) returns (cmds: seq<Cmd>)
    modifies e
    ensures e.State() == old(e.State()).(isAboveDrop := false, isValidDrop := ev.acceptable)
    ensures cmds == []
  {
    e.isAboveDrop := false;
    e.isValidDrop := ev.acceptable;
    cmds := [];
  }

  /** A target reports the drag released over it: the OnDropReleaseEvent hook
      when set, otherwise the default. */
  method HandleDropReleaseEvent(h: DropHandler, e: Interactable, ev: DropEvent)
    returns (cmds: seq<Cmd>, trace: seq<Step>)
    modifies e
    ensures trace == [Ran(DropKind(DropRelease), Resolved(h.onDropReleaseEvent, true))]
    ensures !h.onDropReleaseEvent ==> e.State() == old(e.State()).(isAboveDrop := false, isValidDrop := false)
    ensures !h.onDropReleaseEvent ==> cmds == []
  {
    if h.onDropReleaseEvent {
      cmds := RunCustom(e);
    } else {
      cmds := DefaultDropReleaseEvent(h, e, ev);
    }
    trace := [Ran(DropKind(DropRelease), Resolved(h.onDropReleaseEvent, true))];
  }

  /** Default external release: neither above a drop nor a valid drop. */
  method DefaultDropReleaseEvent(h: DropHandler, e: Interactable, ev: DropEvent) returns (cmds: seq<Cmd>)
    modifies e
    ensures e.State() == old(e.State()).(isAboveDrop := false, isValidDrop := false)
    ensures cmds == []
  {
    e.isAboveDrop := false;
    e.isValidDrop := false;
    cmds := [];
  }

  /** A target reports the drop accepted: the OnDropAcceptEvent hook when set,
      otherwise the default. */
  method HandleDropAcceptEvent(h: DropHandler, e: Interactable, ev: DropEvent)
    returns (cmds: seq<Cmd>, trace: seq<Step>)
    modifies e
    ensures trace == [Ran(DropKind(DropAccept), Resolved(h.onDropAcceptEvent, true))]
    ensures !h.onDropAcceptEvent ==> e.State() == old(e.State()).(isAboveDrop := false, isValidDrop := false)
    ensures !h.onDropAcceptEvent ==> cmds == []
  {
    if h.onDropAcceptEvent {
      cmds := RunCustom(e);
    } else {
      cmds := DefaultDropAcceptEvent(h, e, ev);
    }
    trace := [Ran(DropKind(DropAccept), Resolved(h.onDropAcceptEvent, true))];
  }

  /** Default external accept: neither above a drop nor a valid drop. */
  method DefaultDropAcceptEvent(h: DropHandler, e: Interactable, ev: DropEvent) returns (cmds: seq<Cmd>)
    modifies e
    ensures e.State() == old(e.State()).(isAboveDrop := false, isValidDrop := false)
    ensures cmds == []
  {
    e.isAboveDrop := false;
    e.isValidDrop := false;
    cmds := [];
  }

  /** A target reports the drop denied: the OnDropDenyEvent hook when set,
      otherwise the default. */
  method HandleDropDenyEvent(h: DropHandler, e: Interactable, ev: DropEvent)
    returns (cmds: seq<Cmd>, trace: seq<Step>)
    modifies e
    ensures trace == [Ran(DropKind(DropDeny), Resolved(h.onDropDenyEvent, true))]
    ensures !h.onDropDenyEvent ==> e.State() == old(e.State()).(isAboveDrop := false, isValidDrop := false)
    ensures !h.onDropDenyEvent ==> cmds == []
  {
    if h.onDropDenyEvent {
      cmds := RunCustom(e);
    } else {
      cmds := DefaultDropDenyEvent(h, e, ev);
    }
    trace := [Ran(DropKind(DropDeny), Resolved(h.onDropDenyEvent, true))];
  }

  /** Default external deny: neither above a drop nor a valid drop. */
  method DefaultDropDenyEvent(h: DropHandler, e: Interactable, ev: DropEvent) returns (cmds: seq<Cmd>)
    modifies e
    ensures e.State() == old(e.State()).(isAboveDrop := false, isValidDrop := false)
    ensures cmds == []
  {
    e.isAboveDrop := false;
    e.isValidDrop := false;
    cmds := [];
  }
}
