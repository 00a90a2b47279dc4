# Focusly modal lifecycle, modelled in Dafny

Focusly is a small browser modal-dialog widget (`src/focusly.js`). With the
DOM taken away, what remains is a lifecycle state machine: a process-wide
registry of open instances (`Focusly.elements`), per-instance state (the
merged options, the three close permissions, the built backdrop subtree, the
"shown" class, the escape listener, the single `ontransitionend` slot, the
footer buttons and the content), and the body's scroll lock (the
"focusly--no-scroll" marker and its right padding).

This project models every public operation (`new Focusly`, `open`,
`close(destroy)`, `destroy`, `setContent`, `setFooterContent`,
`addFooterButton`) and every incoming event (a keydown on the document, a
click on the backdrop or on the close button, a transition end, the
deferred show timer) as a pure transition over immutable records, and proves
what each does and how they combine.

Files and modules:

- `base.dfy` (`Base`): `Option`, `Result`, JavaScript truthiness of a string.
- `options.dfy` (`Options`): the caller's options, the merge with defaults,
  the close flags, the container's classes.
- `footer.dfy` (`Footer`): the footer region's children under DOM `append`
  (which moves a node that is already a child) and `innerHTML` (which
  replaces every child), with a closed form of the button re-render.
- `modal.dfy` (`Modal`): one instance: construction, `_build`, the three
  content and footer setters, and the instance invariant.
- `lifecycle.dfy` (`Lifecycle`): the world (registry, document keydown
  listeners, page lock, callback trace), `open`, `close`, `destroy`, the
  event handlers, keydown dispatch, and the world invariant `WF`.
- `events.dfy` (`Events`): one event type, `Step`, and runs of events.
- `scenarios.dfy` (`Scenarios`): multi-step behaviours.

Behaviour of the code that the model makes explicit:

- `close` pops the LAST registry entry, whichever instance is closing
  (`Scenarios.OutOfOrderClosePopsTop`).
- Escape closes an instance only while it is the last registry entry; but
  the document runs the escape handlers in listener-registration order, and
  opening an instance that is still open does not re-register its handler
  (`addEventListener` of the same bound function is a no-op), so one Escape can
  close two entries and leave the remaining top entry without a listener
  (`Scenarios.OneEscapeClosesTwo`).
- The transition-end slot holds one handler, overwritten by every `open`
  and `close`; it is not removed after it runs.
- The close completion clears the scroll lock unconditionally, even while
  other instances are registered (`Scenarios.CompletionUnlocksWhileOthersOpen`).
- Non-empty footer markup set while the footer exists replaces the rendered
  buttons until the next `addFooterButton` re-appends them
  (`Scenarios.FooterContentHidesButtons`).

`src/focusly.js` has no `enableScrollLock` option, no scrollbar-presence
check, no lock accounting on registry-size transitions (every `open` locks
and every close completion unlocks), no restoration of an earlier padding,
and its transition-end handler is not one-shot; the model follows it.

## Model

| member | source | states |
|---|---|---|
| `Options.Merge` | src/focusly.js:25-33 | Defaults are destroyOnClose true, footer false, cssClass empty and all three close methods; every key the caller gives overrides its default. |
| `Options.FlagsOf` | src/focusly.js:36-39 | The button, overlay and escape permissions are exactly membership of "button", "overlay", "escape" in closeMethods. |
| `Options.ContainerClasses` | src/focusly.js:59-66 | The container carries its own marker class and every string entry of cssClass, and nothing else; non-string entries are skipped. |
| `Modal.Construct` | src/focusly.js:3-44 | Construction succeeds iff content is truthy, or a truthy templateId names an existing template; missing both gives MissingContent, an unknown template gives TemplateNotFound; with both, templateId is dropped and content is used; the configuration is the caller's options (with templateId dropped in that case) merged with the defaults, and the flags follow its closeMethods; the instance keeps the caller's content as given on both paths (so the template is used exactly when that content is falsy); it is unbuilt, buildable, has no buttons, no footer markup, no pending show and no cached width. |
| `Modal.Build` | src/focusly.js:46-97 | The built subtree holds the markup when content is truthy and the template clone otherwise, a close button iff button-close is allowed, a footer iff the footer option is set, whose children are the footer markup (when non-empty) followed by all stored buttons in order; it starts hidden with no handlers. |
| `Modal.SetContent` | src/focusly.js:99-105 | The content is stored, written into a built content region, and used by the next build; the instance stays buildable iff the new content is non-empty or a template exists; nothing else changes. |
| `Modal.SetFooterContent` | src/focusly.js:107-110 | The markup is stored; on an existing footer, non-empty markup replaces every child, buttons included, and empty markup changes nothing; without a footer region nothing is rendered; no other part of the subtree (body, close button, shown flag, click handler, transition-end slot, classes) changes, and no other field of the instance. |
| `Modal.AddFooterButton` | src/focusly.js:112-117 | The button is appended to the stored list without deduplication; an existing footer becomes its non-button children followed by every button node in call order; without a footer region nothing is rendered; no other part of the subtree or the instance changes. |
| `Modal.AddFooterButtonWF` | src/focusly.js:112-131 | Adding a button keeps the footer's shape, and the footer then ends with all stored buttons, the new one last. |
| `Modal.ConstructWF` | src/focusly.js:3-44 | A constructed instance satisfies the instance invariant. |
| `Modal.BuildWF` | src/focusly.js:46-97 | A freshly built subtree satisfies the instance invariant. |
| `Modal.SetContentWF` | src/focusly.js:99-105 | setContent keeps the instance invariant. |
| `Modal.SetFooterContentWF` | src/focusly.js:107-123 | setFooterContent keeps the instance invariant, including the footer's shape. |
| `Footer.AppendNode` | src/focusly.js:127-129 | Appending a node makes it the last child, leaves exactly one copy of it, keeps every other child and adds at most one node. |
| `Footer.AppendAllClosedForm` | src/focusly.js:125-131 | Appending distinct nodes one by one equals the other children in their order followed by the appended nodes in call order. |
| `Footer.RenderContent` | src/focusly.js:119-123 | Footer markup replaces every child only when it is non-empty; otherwise the children stay. |
| `Footer.RenderButtons` | src/focusly.js:125-131 | Re-rendering n buttons leaves the non-button children in order and ends with button 0 to n-1. |
| `Footer.RenderButtonsShaped` | src/focusly.js:82-93 | Rendering the buttons into a footer that showed a prefix of them yields its markup (if any) followed by all buttons. |
| `Footer.WithoutButtons` | src/focusly.js:125-131 | Re-appending the list removes every earlier copy of its buttons. |
| `Lifecycle.Top` | src/focusly.js:180 | The top is the last registry entry and exists iff the registry is non-empty. |
| `Lifecycle.Listen` | src/focusly.js:164-166 | Installing the bound escape handler adds it once, after the handlers already registered; installing it again is a no-op. |
| `Lifecycle.Unlisten` | src/focusly.js:199-201 | Removing the escape handler takes it out of the listener list and keeps the others. |
| `Lifecycle.UnlistenConcat` | src/focusly.js:199-201 | Removing a handler from a listener list works part by part, so the survivors keep their registration order. |
| `Lifecycle.UnlistenAbsent` | src/focusly.js:199-201 | Removing a handler that is not registered leaves the list as it is. |
| `Lifecycle.UnlistenLast` | src/focusly.js:199-201 | Adding a handler after a list it is absent from and removing it again restores that list. |
| `Lifecycle.ScrollbarWidth` | src/focusly.js:222-237 | A cached width is reused only when non-zero; a cached 0 is measured again. |
| `Lifecycle.Open` | src/focusly.js:142-175 | open appends the instance to the registry (it becomes the top); builds only when no subtree exists, otherwise reuses it; sets the open handler in the transition-end slot, installs the backdrop click handler and escape listener as allowed, schedules one show, caches the scrollbar width (a truthy cache is kept) and always locks the page with it; the escape listener is added through Listen, after every existing one and only if not already present; no other instance changes. |
| `Lifecycle.Close` | src/focusly.js:193-216 | close removes the last registry entry whichever instance closes, keeping the others in order; hides the backdrop; removes the escape listener through Unlisten iff escape-close is allowed, the remaining listeners keeping their order; puts the close completion in the transition-end slot; the page is untouched. |
| `Lifecycle.CloseDefault` | src/focusly.js:193 | close() without an argument destroys exactly when destroyOnClose is set. |
| `Lifecycle.Destroy` | src/focusly.js:218-220 | destroy() is close(true): it pops one entry and schedules a destroying completion. |
| `Lifecycle.HandleEscapeKey` | src/focusly.js:177-184 | The escape handler closes its instance iff the key is "Escape" and the instance is the last registry entry; otherwise nothing changes. |
| `Lifecycle.BackdropClick` | src/focusly.js:156-162 | A click closes the instance only when the handler is installed and the target is the backdrop itself; a click inside the container changes nothing. |
| `Lifecycle.CloseButtonClick` | src/focusly.js:68-73 | The close button runs close() with the default destroy: it pops the last registry entry, drops the escape listener when escape-close is allowed, hides the backdrop and puts the close completion in the slot. |
| `Lifecycle.ShowTick` | src/focusly.js:149-151 | The deferred show adds the shown class to the current backdrop and consumes one pending show; nothing else in that subtree, no other instance, and neither registry, listeners, page nor trace changes. |
| `Lifecycle.TransitionEnd` | src/focusly.js:186-191 | Only a "transform" transition end runs the slot's handler: the open handler calls onOpen if given; the close completion drops the subtree iff destroy, always clears the scroll lock whatever the registry holds, and calls onClose if given; other properties change nothing. |
| `Lifecycle.DispatchFrom` | src/focusly.js:177-184 | Running the escape handlers of a listener snapshot keeps the world invariant, only ever pops the registry, and changes nothing for a key other than "Escape". |
| `Lifecycle.DispatchKeydown` | src/focusly.js:164-166 | A document keydown keeps the invariant, can only shorten the registry, and is a no-op unless the key is "Escape". |
| `Lifecycle.DispatchFromShrinks` | src/focusly.js:180-182 | If the top instance listens, an Escape dispatch closes at least one entry. |
| `Lifecycle.DispatchKeydownClosesTop` | src/focusly.js:180-182 | An Escape keydown with a listening top instance shortens the registry. |
| `Lifecycle.OpenWF` | src/focusly.js:142-175 | open keeps the world invariant: listeners are distinct, built, allowed to close on escape, and hold the open handler. |
| `Lifecycle.CloseWF` | src/focusly.js:193-216 | close keeps the world invariant. |
| `Lifecycle.HandleEscapeKeyWF` | src/focusly.js:177-184 | The escape handler keeps the world invariant. |
| `Lifecycle.BackdropClickWF` | src/focusly.js:156-162 | A backdrop click keeps the world invariant. |
| `Lifecycle.ShowTickWF` | src/focusly.js:149-151 | The deferred show keeps the world invariant. |
| `Lifecycle.TransitionEndWF` | src/focusly.js:203-215 | A completion never tears down an instance that still listens for Escape, so it keeps the world invariant. |
| `Lifecycle.ListenerBuilt` | src/focusly.js:164-166 | In a well-formed world every installed escape listener belongs to a built instance holding the open handler. |
| `Events.Step` | src/focusly.js:142-220 | Every enabled event keeps the world invariant; open pushes one entry, close and destroy pop one from a non-empty registry, a non-Escape keydown changes nothing. |
| `Events.AddInstance` | src/focusly.js:3-44 | A successfully constructed instance joins the world under a fresh id; the registry, listeners and page are untouched and the world invariant holds. |
| `Events.UpdateInstance` | src/focusly.js:99-117 | A setter that keeps the built state, flags and transition-end slot keeps the world invariant. |
| `Events.Run` | src/focusly.js:142-220 | A run records the worlds it passes through, starting from the given one: each performed event was enabled in the world before it and Step leads to the next, every world keeps the invariant, and the run stops exactly at the first event that is not enabled. |
| `Events.InitialWF` | src/focusly.js:1 | The empty registry with an unlocked page is well formed. |
| `Scenarios.OpenThenCloseRestoresRegistry` | src/focusly.js:143-194 | An open followed by a close leaves the registry as before. |
| `Scenarios.OutOfOrderClosePopsTop` | src/focusly.js:193-194 | Closing the lower of two stacked instances removes the upper one from the registry and leaves the lower one registered. |
| `Scenarios.CompletionUnlocksWhileOthersOpen` | src/focusly.js:203-212 | After the upper of two instances closes and completes, the page is unlocked though the lower one is still registered. |
| `Scenarios.CloseReplacesOpenHandler` | src/focusly.js:186-191 | A close right after an open replaces the open handler: the next transform end runs only the close completion. |
| `Scenarios.OpenReplacesCloseHandler` | src/focusly.js:168-171 | An open right after a close replaces the close completion: the subtree survives, the lock stays, onOpen runs. |
| `Scenarios.ReopenAfterCompletion` | src/focusly.js:204-208 | After a destroying completion the next open rebuilds the subtree from the current state; after a keeping one it reuses the old subtree. |
| `Scenarios.WidthCachedOnceNonZero` | src/focusly.js:222-223 | Once a non-zero scrollbar width is cached, a later open pads the page by that width whatever a new measurement gives. |
| `Scenarios.DispatchWithoutTop` | src/focusly.js:180-181 | Escape handlers of instances that are not on top change nothing. |
| `Scenarios.DispatchConcat` | src/focusly.js:177-184 | Dispatch over a concatenated snapshot is dispatch over each part in turn. |
| `Scenarios.EscapeReachesLastListener` | src/focusly.js:177-184 | When the top's handler is the last registered, one Escape closes exactly the top. |
| `Scenarios.EscapeClosesTopOnly` | src/focusly.js:177-184 | Open a, open b, Escape: only b closes; Escape again: a closes. |
| `Scenarios.EscapePopsLastListener` | src/focusly.js:177-201 | When the top's handler is the last registered, one Escape closes it, pops one registry entry and leaves the earlier handlers in order. |
| `Scenarios.DispatchSingle` | src/focusly.js:180-182 | A snapshot holding only the listening top instance closes it. |
| `Scenarios.EscapeSkipsToTop` | src/focusly.js:177-184 | Handlers registered before the top's run without effect, then the top closes. |
| `Scenarios.CloseTopOfThree` | src/focusly.js:193-201 | Closing the top of a registry ending x, y, x pops one x and drops x's listener. |
| `Scenarios.EscapeOverTwoListeners` | src/focusly.js:177-201 | With handlers registered x then y and a registry ending x, y, x, one Escape pops two entries and leaves x without a listener. |
| `Scenarios.OpenXYXShape` | src/focusly.js:143-166 | Opening x, y, x again leaves listeners x, y and a registry ending x, y, x. |
| `Scenarios.OpenBothListeners` | src/focusly.js:143-166 | Opening two escape-closable instances registers their handlers in call order and pushes both. |
| `Scenarios.ReopenKeepsListeners` | src/focusly.js:143-166 | Opening an instance whose handler is still registered pushes it again and leaves the listener list unchanged. |
| `Scenarios.OneEscapeClosesTwo` | src/focusly.js:164-184 | Open x, y, then x again: a single Escape closes two entries and the x left on top no longer listens for Escape. |
| `Scenarios.FooterButtonBeforeFirstOpen` | src/focusly.js:82-93 | Content plus footer plus one "OK" button, then open: one registry entry, a footer showing exactly that button, the page locked. |
| `Scenarios.FooterContentHidesButtons` | src/focusly.js:119-131 | Non-empty footer markup on an existing footer hides the buttons; the next addFooterButton puts all of them back after the markup. |
| `Scenarios.AddFooterButtons` | src/focusly.js:112-131 | Repeated addFooterButton grows the list by exactly the given buttons and a built footer ends with all of them in call order. |

## Left out

- DOM construction and mutation (`createElement`, class names of the backdrop and content region, `innerHTML` parsing, `document.body.append`): replaced by the abstract `Subtree` record.
- Template lookup and cloning: a template is found iff its id is in the set `templates` given to construction, and the content region then holds an opaque `TemplateClone(id)`.
- Timing of the deferred show: `open` schedules one pending show and the `ShowTimerFired` event may arrive at any later point; no clock is modelled.
- Scrollbar-width measurement is a layout query: its result is the `measured` argument of `open`.
- Logging (`console.log`, `console.error`, `console.warn`): diagnostics only.
- User callbacks are foreign code: `onOpen` and `onClose` are recorded in the world's trace when they would be called; footer button callbacks and anything a callback does in turn are not modelled.
- The return value of `open` (the backdrop element) is not modelled.
- Calling methods on an instance whose construction failed: the failed instance is never added to the world.
- Calls that would dereference a missing backdrop (`close`, `destroy`, the close button, a backdrop click, the show timer on an unbuilt instance) and an `open` that would build with neither truthy content nor a template are preconditions, not modelled crashes; an `Events.Run` stops in front of them.
- Option values are typed: an explicitly `undefined` key, non-boolean `destroyOnClose`/`footer`, and a non-string argument to the setters are not modelled.
- `classList.add` rejecting empty or whitespace class names, and the order of the container's classes, are not modelled (the classes are a set).
- Transition-end events are delivered per instance with a property name; which descendant they bubbled from is not modelled.
- The constructor's write of `options.templateId = null` into the caller's own options object (src/focusly.js:10) is not modelled: the model has no caller-side object to mutate.
- `Object.assign` shares the caller's `cssClass` array with the instance, so a later change to that array changes the next `_build`; the model keeps options as immutable values, so that aliasing is not modelled.
- Template resolution through `document.querySelector("#" + templateId)`: it throws for an id that is not a valid CSS identifier and can match another element for an id containing `.` or other selector syntax; the model resolves ids only by membership in `templates`.
- Options.Merge: states the default close methods by membership only, not their order, since the code only tests membership.
