# teaspoon mouse interaction, modelled in Dafny

teaspoon adds mouse interaction to terminal UI elements built with bubbletea.
Each element owns an interaction record (`Interactable`) with six flags: three
for selection, hover and drag (`IsSelected`, `IsHovered`, `IsDragging`) and
three for drops (`IsValidDrop`, `IsAboveDrop`, `IsBelowDrop`). The record also
holds a drag origin and a drag offset. It also holds optional slots for four capabilities (click, hover,
drag, drop), optional slots for four event listeners, and optional override
hooks.

Two dispatchers drive the record:
- The **local dispatcher** turns a raw pointer message (motion, press, release)
  into calls to the hover, click and drag handlers. It decides by the flags and
  by whether the pointer is inside the element.
- The **external dispatcher** routes a semantic event that another element
  broadcast (click, hover, drag or drop, each with its kind) to the matching
  listener handler.

Every handler entry point runs the application's override hook when one is set,
and otherwise its default policy. A default policy updates the record and, when
its handler's `EmitMessages` is on, returns a command. When the host runs the
command, it produces the semantic event that other elements receive.

The model is imperative, like the code:
- `Interaction.Interactable` is a class whose eight interaction fields the
  handlers update in place.
- Each handler is a method that returns the commands it emitted, concatenated
  in call order (that is what `tea.Batch` of the non-nil commands amounts to).
- Each handler also returns a trace of which entry points ran, and whether each
  one ran its default, an application hook, or nothing.
- An application hook (`RunCustom`) may change the eight interaction fields
  arbitrarily and return any commands. Contracts therefore promise the default
  policies' effects only for runs in which no hook ran (`NoCustom(trace)`).
- The `IsAcceptable` hook also receives the element, so it too may change those
  fields. The drop enter, hover and release defaults promise that no other
  field changes only when that hook is not set.
- The `IsInside` hook is assumed to leave the record unchanged; it only
  supplies the inside bit, which is a parameter of the local dispatcher.

Specification functions describe the two dispatchers, and the dispatcher
methods are proved to follow them:
- `Messages.LocalSteps` and `Messages.ExternalSteps` say which handlers run,
  in which order.
- `Messages.Effects`, `Messages.Emissions` and `Messages.ExternalState` say
  what the default policies of those handlers do to the record and emit.

The lemmas in `DispatchFacts` state the routing and state properties on those
functions, including properties of whole sessions of pointer messages.
`Scenarios` builds elements and drives them through the entry points the way an
application does.

Commands are lazy in the code: the closure reads `ID`, `IsValidDrop`,
`DragOrigin` and `DragOffset` when the host runs it, not when it is created.
The model keeps this:
- A command is a descriptor (`Events.Cmd`).
- `Events.Resolve(cmd, id, state)` is the event it produces when it runs
  against the record `state`.

Files:
- `events.dfy`: messages, events, handler configurations, commands.
- `interactable.dfy`: the record, traces, hooks.
- `click.dfy`, `hover.dfy`, `drag.dfy`, `drop.dfy`: the capabilities.
- `messages.dfy`: the dispatchers and their specification functions.
- `facts.dfy`: properties of the dispatchers.
- `scenarios.dfy`: client sessions.

Behaviour of the code that the model keeps:
- The drop release command reads `IsValidDrop` when it runs. By then the chained
  accept or deny has cleared it, so the release event carries `false` even for
  an accepted drag (`Scenarios.DropOnFileTarget`). The DropLeave command
  behaves the same way.
- External drop leave copies the event's `Acceptable` into `IsValidDrop`
  (drop.go:435).
- The external override test reads `LocalHandler`, not `ExternalHandler`
  (messages.go:110).
- `HandleDropHoverEvent` tests the `OnDropEnterEvent` hook (drop.go:393).
- `HandleDropEnterEvent` and `HandleRightClick` never call their defaults.
- The unreachable `DefaultRightClick` tags its event `DoubleClick`.
- The local dispatcher never calls the drop capability.
- The local dispatcher sets `IsDragging` itself before drag-start and before
  drag-end.
- A press starts a drag only when click is configured too and the pointer is
  inside.

Three signatures in the code do not fit the way they are called. The model
follows their evident intent:
- The drag handlers take an unused third argument that the interface and the
  call sites do not pass, so the model takes two.
- The external click handlers are declared on `tea.MouseMsg`, but the
  dispatcher passes a `ClickEvent`, so the model takes a `ClickEvent`.
- `HandleExternalEvent` is declared on `tea.MouseMsg`. That signature
  type-checks, but a semantic event can never be passed to it, and its type
  switch over semantic events never matches. The model's `HandleExternalEvent`
  takes a semantic event.

Each `switch` branch of the two Go dispatchers is a separate Dafny method
(`MotionHandlers`, `PressHandlers`, `ReleaseHandlers`, `ClickEventHandlers`
and so on). The release chain of the drop capability ends in `Drop.Settle`.
These methods split the proof; they do not change the order of calls.

## Model

| member | source | states |
|---|---|---|
| Interaction.Interactable.constructor | interactable.go:26-54 | a new record has the given identity, slots and hook flags, and the zero interaction state (nothing selected, hovered, dragging or dropping; origin and offset at 0) |
| Events.Resolve | drag.go:101-113 | a command yields an event of its own category and kind with the emitter's ID (a drag command's event has the drag command's kind); a drag event has an empty DragType and carries origin and offset as they are when it runs; a drop event carries true for accept, false for deny, and otherwise the IsValidDrop that holds when it runs; the click (click.go:86-92), hover (hover.go:86-92) and drop (drop.go:133-140) closures are resolved the same way |
| Click.HandleClick | click.go:70-75 | the OnClick hook replaces the default entirely; without it the element is selected, nothing else changes, and one Click event is emitted iff EmitMessages |
| Click.DefaultClick | click.go:81-96 | sets IsSelected and changes no other field; does not toggle (an already selected element is left as it was); one Click event iff EmitMessages |
| Click.HandleDoubleClick | click.go:104-109 | the OnDoubleClick hook replaces the default; without it, selection and one DoubleClick event iff EmitMessages |
| Click.DefaultDoubleClick | click.go:115-131 | sets IsSelected only; emits a DoubleClick-kind event iff EmitMessages |
| Click.HandleRightClick | click.go:139-144 | without OnRightClick nothing changes and nothing is emitted (there is no default fallback) |
| Click.DefaultRightClick | click.go:150-166 | sets IsSelected only and emits an event tagged DoubleClick iff EmitMessages |
| Click.HandleClickEvent | click.go:188-193 | another element's click reaches only the OnClickEvent hook; without it the record is unchanged and nothing is emitted |
| Click.HandleDoubleClickEvent | click.go:202-207 | as above for double-click |
| Click.HandleRightClickEvent | click.go:216-221 | as above for right-click |
| Hover.HandleMouseEnter | hover.go:70-75 | the OnMouseEnter hook replaces the default and its emission; without it IsHovered is set, nothing else changes, one MouseEnter event iff EmitMessages |
| Hover.DefaultMouseEnter | hover.go:81-96 | sets IsHovered and changes no other field; one MouseEnter event iff EmitMessages |
| Hover.HandleMouseHover | hover.go:104-109 | the OnMouseHover hook replaces the default; without it IsHovered is set and one MouseHover event iff EmitMessages |
| Hover.DefaultMouseHover | hover.go:115-130 | sets IsHovered only, so on a hovered element it changes nothing; one MouseHover event iff EmitMessages |
| Hover.HandleMouseLeave | hover.go:138-143 | the OnMouseLeave hook replaces the default; without it IsHovered is cleared and one MouseLeave event iff EmitMessages |
| Hover.DefaultMouseLeave | hover.go:149-165 | clears IsHovered and changes no other field; one MouseLeave event iff EmitMessages |
| Hover.HandleMouseEnterEvent | hover.go:186-191 | another element's enter reaches only the OnMouseEnterEvent hook; without it nothing changes and nothing is emitted |
| Hover.HandleMouseHoverEvent | hover.go:200-205 | as above for hover |
| Hover.HandleMouseLeaveEvent | hover.go:214-219 | as above for leave |
| Drag.Offset | drag.go:133-140 | the offset is the pointer position minus the origin: origin plus offset is the pointer position |
| Drag.HandleDragStart | drag.go:83-88 | the OnDragStart hook replaces the default; without it, the default start effect and emission |
| Drag.DefaultDragStart | drag.go:94-114 | sets IsDragging, puts the origin at the pointer and the offset at (0, 0), changes nothing else; one DragStart event iff EmitMessages |
| Drag.HandleDragMove | drag.go:122-127 | the OnDragMove hook replaces the default; without it, the default move effect and emission |
| Drag.DefaultDragMove | drag.go:133-155 | keeps the origin, sets the offset so that origin plus offset is the pointer position, keeps IsDragging true, changes nothing else; one DragMove event iff EmitMessages |
| Drag.HandleDragEnd | drag.go:163-168 | the OnDragEnd hook replaces the default; without it IsDragging is cleared and one DragEnd event iff EmitMessages |
| Drag.DefaultDragEnd | drag.go:174-191 | clears IsDragging and keeps origin and offset; one DragEnd event iff EmitMessages |
| Drag.HandleDragStartEvent | drag.go:212-217 | another element's drag start reaches only the OnDragStartEvent hook; without it nothing changes and nothing is emitted |
| Drag.HandleDragMoveEvent | drag.go:226-231 | as above for drag move |
| Drag.HandleDragEndEvent | drag.go:240-245 | as above for drag end |
| Drop.DefaultIsAcceptable | drop.go:99-106 | the scan returns true exactly when the drag type equals some entry of AcceptedDropTypes, which is membership in their multiset (so the order of the list does not matter); an empty list gives false |
| Drop.HandleIsAcceptable | drop.go:88-93 | without the IsAcceptable hook the verdict is the membership test and the record is unchanged; with it the hook, which receives the element, replaces the test entirely and may change the record |
| Drop.HandleDropEnter | drop.go:114-119 | the OnDropEnter hook replaces the default; without it, one DropEnter event iff EmitMessages, and without the IsAcceptable hook too, the default enter effect |
| Drop.DefaultDropEnter | drop.go:125-143 | one DropEnter event iff EmitMessages; without the IsAcceptable hook, sets IsBelowDrop, sets IsValidDrop to the membership verdict and changes no other field |
| Drop.HandleDropHover | drop.go:151-156 | the OnDropHover hook replaces the default; without it, one DropHover event iff EmitMessages, and without the IsAcceptable hook too, the default hover effect |
| Drop.DefaultDropHover | drop.go:162-180 | one DropHover event iff EmitMessages; without the IsAcceptable hook, sets IsBelowDrop and IsValidDrop to the membership verdict, nothing else |
| Drop.HandleDropLeave | drop.go:188-193 | the OnDropLeave hook replaces the default; without it both drop flags end false and one DropLeave event iff EmitMessages |
| Drop.DefaultDropLeave | drop.go:199-219 | IsBelowDrop and IsValidDrop end false, nothing else changes; the DropLeave command is created between the two resets |
| Drop.HandleDropRelease | drop.go:227-232 | the OnDropRelease hook replaces the default and its chain; without it, the release step is followed by exactly one of accept or deny, accept exactly when the membership test holds (without the IsAcceptable hook), the release command comes first, and without hooks both drop flags end false with the release event followed by the accept or deny event; no other field changes when the IsAcceptable hook is not set either |
| Drop.DefaultDropRelease | drop.go:239-264 | recomputes IsValidDrop from acceptability, emits the release command, then chains into accept iff valid and deny otherwise, never both; without hooks both flags end false and the commands are release then accept or deny; with the IsAcceptable hook also unset, no other field changes |
| Drop.Settle | drop.go:257-261 | the chained step is accept for a valid drop and deny otherwise; without hooks both flags end false and its one command is of that kind |
| Drop.HandleDropAccept | drop.go:272-277 | the OnDropAccept hook replaces the default; without it both drop flags end false and one DropAccept event iff EmitMessages |
| Drop.DefaultDropAccept | drop.go:283-303 | IsBelowDrop and IsValidDrop end false, nothing else changes; the DropAccept event always carries Acceptable = true (through Events.Resolve) |
| Drop.HandleDropDeny | drop.go:311-316 | the OnDropDeny hook replaces the default; without it both drop flags end false and one DropDeny event iff EmitMessages |
| Drop.DefaultDropDeny | drop.go:322-342 | IsBelowDrop and IsValidDrop end false, nothing else changes; the DropDeny event always carries Acceptable = false |
| Drop.HandleDropEnterEvent | drop.go:365-370 | only the OnDropEnterEvent hook acts; without it the record is unchanged (the default is never called) |
| Drop.DefaultDropEnterEvent | drop.go:376-384 | sets IsAboveDrop and copies the event's Acceptable into IsValidDrop; emits nothing |
| Drop.HandleDropHoverEvent | drop.go:392-397 | resolves by the OnDropEnterEvent hook; without it, above a drop with the event's verdict as validity |
| Drop.DefaultDropHoverEvent | drop.go:403-411 | sets IsAboveDrop and copies Acceptable into IsValidDrop; emits nothing |
| Drop.HandleDropLeaveEvent | drop.go:419-424 | without the OnDropLeaveEvent hook, IsAboveDrop ends false and IsValidDrop takes the event's Acceptable |
| Drop.DefaultDropLeaveEvent | drop.go:430-438 | clears IsAboveDrop and copies Acceptable into IsValidDrop; emits nothing |
| Drop.HandleDropReleaseEvent | drop.go:446-451 | without the OnDropReleaseEvent hook both IsAboveDrop and IsValidDrop end false |
| Drop.DefaultDropReleaseEvent | drop.go:457-464 | clears IsAboveDrop and IsValidDrop; emits nothing |
| Drop.HandleDropAcceptEvent | drop.go:472-477 | without the OnDropAcceptEvent hook both flags end false |
| Drop.DefaultDropAcceptEvent | drop.go:483-490 | clears IsAboveDrop and IsValidDrop; emits nothing |
| Drop.HandleDropDenyEvent | drop.go:498-503 | without the OnDropDenyEvent hook both flags end false |
| Drop.DefaultDropDenyEvent | drop.go:509-516 | clears IsAboveDrop and IsValidDrop; emits nothing |
| Messages.HandleMouseMsg | messages.go:13-18 | a set LocalHandler hook replaces local dispatch entirely; otherwise the default dispatcher's routing, fast path and effects |
| Messages.DefaultLocalHandler | messages.go:24-101 | with no capability configured nothing changes and nothing is emitted; otherwise the handlers run are those of LocalSteps for the flags as they were on arrival, and without hooks the record and commands are Effects and Emissions of that trace; if a hover hook ran during a motion, drag-move is instead routed by IsDragging as that hook left it |
| Messages.MotionHandlers | messages.go:41-69 | a motion runs the hover handlers, then drag-move when drag is configured and the element is dragging at that point |
| Messages.MotionHover | messages.go:42-60 | inside an unhovered element enter then hover; inside a hovered one hover only; outside a hovered one leave; under the defaults IsDragging is untouched |
| Messages.HoverInside | messages.go:43-53 | a motion inside runs enter only when the element was not hovered, then hover; under the defaults IsDragging is untouched |
| Messages.PressHandlers | messages.go:71-85 | a press inside with click configured runs click and then, with drag configured, marks the element dragging and runs drag-start; otherwise nothing runs |
| Messages.ReleaseHandlers | messages.go:87-94 | a release while dragging with drag configured clears IsDragging and runs drag-end; otherwise nothing runs |
| Messages.ExternalSteps | messages.go:120-198 | external dispatch runs at most one handler, and it is one whose category and kind are those of the event |
| Messages.HandleExternalEvent | messages.go:109-114 | with the LocalHandler flag set the ExternalHandler hook replaces external dispatch; otherwise the handlers are those of ExternalSteps and, without hooks, nothing is emitted and the record is ExternalState |
| Messages.DefaultExternalHandler | messages.go:120-198 | routes by category and then by kind to the matching handler of the matching slot; without hooks nothing is emitted and only drop events change the record |
| Messages.ClickEventHandlers | messages.go:130-143 | a click event runs the handler of its kind on the ClickEvent slot; without hooks nothing changes |
| Messages.HoverEventHandlers | messages.go:145-158 | a hover event runs the handler of its kind on the HoverEvent slot; without hooks nothing changes |
| Messages.DragEventHandlers | messages.go:160-173 | a drag event runs the handler of its kind on the DragEvent slot; without hooks nothing changes |
| Messages.DropEventHandlers | messages.go:175-194 | a drop event runs the handler of its kind on the DropEvent slot; without hooks the record is ExternalState of that step |
| DispatchFacts.MotionOrder | messages.go:41-69 | the handlers a motion runs, in order: enter then hover inside an unhovered element, hover alone (never enter) inside a hovered one, leave alone outside a hovered one, none otherwise; then drag-move exactly when drag is configured and dragging, regardless of position |
| DispatchFacts.PressOrder | messages.go:71-85 | a press runs click then drag-start when both are configured and the pointer is inside, click alone without drag, and nothing outside or without click |
| DispatchFacts.ReleaseIgnoresPosition | messages.go:87-94 | a release runs drag-end exactly when drag is configured and dragging, whatever the inside bit |
| DispatchFacts.DefaultsFollowRoute | messages.go:24-101 | a dispatch in which no hook ran followed LocalSteps exactly |
| DispatchFacts.DefaultsOnlyNoCustom | messages.go:24-101 | with no override hook on click, hover or drag, no local dispatch runs application code |
| DispatchFacts.MotionSetsHovered | messages.go:41-60 | with hover configured and no hooks, after a motion IsHovered equals the inside bit |
| DispatchFacts.HoverStepsSetHovered | hover.go:81-165 | the default hover policies a motion runs leave IsHovered equal to the inside bit |
| DispatchFacts.EnterThenHoverEmitted | messages.go:44-53 | a motion into an unhovered element emits the enter event, then the hover event, then the drag-move event when a drag is in progress |
| DispatchFacts.HoverIdempotent | hover.go:115-117 | a second identical motion inside runs hover without enter, followed by drag-move exactly when a drag is in progress, and leaves the record as the first left it |
| DispatchFacts.SecondMotion | hover.go:115-130 | a motion inside an already hovered element whose offset already matches the pointer during a drag runs hover (then drag-move during a drag) and changes nothing |
| DispatchFacts.DragMoveTracksPointer | messages.go:63-69 | during a drag a motion keeps the origin and makes origin plus offset the pointer position, wherever the pointer is |
| DispatchFacts.HoverKeepsDrag | hover.go:81-165 | the default hover policies leave IsDragging, origin and offset alone |
| DispatchFacts.PressStartsDrag | messages.go:71-85 | a press inside with click and drag selects, starts dragging at the pointer with zero offset, and emits click before drag-start; with click only it selects; outside or without click nothing changes and nothing is emitted |
| DispatchFacts.ReleaseEndsDrag | messages.go:87-94 | a release while dragging clears IsDragging, keeps origin and offset and emits drag-end; otherwise nothing changes and nothing is emitted |
| DispatchFacts.SelectionSticks | click.go:81-83 | under the default policies (no click, hover or drag hook) nothing deselects: once selected, an element stays selected through any sequence of pointer messages |
| DispatchFacts.NoDragCapabilityNoDrag | messages.go:63-94 | under the default policies (no click or hover hook), an element without the drag capability never changes IsDragging, origin or offset, whatever pointer messages arrive |
| DispatchFacts.ExternalRouting | messages.go:120-198 | external dispatch runs a handler exactly when the event's category slot is configured and its kind is a named one (so all slots empty, an absent slot or an unknown kind is a no-op) |
| DispatchFacts.ExternalOnlyDropChanges | messages.go:129-173 | without hooks, click, hover and drag events leave the record unchanged |
| DispatchFacts.ExternalDropState | drop.go:365-516 | without hooks an external drop enter changes nothing and every other kind has its default handler's effect |
| DispatchFacts.DropEventFlags | drop.go:376-516 | the external drop defaults change only IsAboveDrop and IsValidDrop: hover raises the first and copies the verdict, leave lowers it and copies the verdict, release, accept and deny clear both |
| DispatchFacts.SourceMirrorsTarget | drop.go:162-180 | a target's DropHover event, once delivered to a drag source without hooks, leaves the source above a drop with the target's validity as its own |
| Scenarios.DropOnFileTarget | drop.go:239-264 | a "file" target is valid while a drag is over it exactly for a "file" drag; after the release both flags are false, and the events are enter with the verdict, release with false (lazy read), then accept with true or deny with false |
| Scenarios.HoverFeedback | drop.go:403-411 | a drag source that receives a "file" target's hover event ends above a drop that is valid exactly for a "file" drag |
| Scenarios.DragCard | messages.go:71-94 | press, move and release on a card with click and drag select it, leave it not dragging with origin at the press and offset (5, 2), and emit click, drag-start, drag-move, drag-end in that order |
| Scenarios.PressCard | messages.go:71-85 | the press at (2, 3) selects the card, starts a drag there and yields the click event then the drag-start event with zero offset |
| Scenarios.MoveCard | messages.go:63-69 | the motion to (7, 5), though outside the card, moves the drag: offset (5, 2), one drag-move event |
| Scenarios.ReleaseCard | messages.go:87-94 | the release ends the drag, keeps origin and offset, and yields one drag-end event |

## Left out

- `LastClickTime`, `DoubleClickThreshold` and `ClickCount` (interactable.go:29-31): no code reads or writes them, and there is no double-click detection to model.
- The pointer message's button and modifier keys: no handler in the core reads them.
- `DefaultIsInside` (interactable.go:58-60) asks the bubblezone library for the element's bounds. It is a foreign call, so the inside bit is a parameter of the local dispatcher. The `IsInside` hook is kept only as a presence flag, for the same reason; what it may do to the record is not modelled (see the `Messages.DefaultLocalHandler` line below).
- The copy `*interaction = *i` at the end of the local dispatcher (messages.go:97-98): the model covers the normal case, where the receiver is the element's own record and the copy changes nothing. Separate receiver and element records are not modelled.
- What application hooks do (`On*` handlers, `IsAcceptable`, `LocalHandler`, `ExternalHandler`; for `IsInside` see below): they are arbitrary application code. The model changes the eight interaction fields arbitrarily, returns arbitrary commands (or an arbitrary verdict, for `IsAcceptable`), and records that a hook ran.
- Hooks reassigning the element's capability slots, listener slots or hook fields: the model keeps these as constants of the record, so it assumes a hook never replaces them. The code would see such a change, for example when the press branch reads `Drag` again after `OnClick` (messages.go:78).
- bubbletea's runtime: the concurrent execution of commands and their redelivery as messages are not modelled. `Events.RunAll` stands for the host running a batch against one record state.
- The demo program `custom_click_behaviour.go`: it is rendering and run-loop code. Its toggle override is an instance of an `OnClick` hook, which the model treats as arbitrary.
- Messages.HandleExternalEvent: the override test reads the `LocalHandler` flag as in the code; when it is set, the model makes no promise about the `ExternalHandler` hook that runs, even if that hook is absent.
- Drop.HandleDropHoverEvent: with the `OnDropEnterEvent` hook set and `OnDropHoverEvent` absent, the code calls a nil function and panics (drop.go:393-394); the model instead runs an arbitrary hook step.
- Messages.DefaultLocalHandler: the model assumes that the `IsInside` hook, which receives the element (messages.go:34-35), leaves the record unchanged. The routing and the `NoCustom` effects it promises, and so those of `Messages.HandleMouseMsg`, read the flags as they were on arrival. The code reads them after that hook has run.
