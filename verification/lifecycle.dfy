/** The process-wide state around the instances (src/focusly.js lines
    1, 142-220): the registry `Focusly.elements`, the document's keydown
    listener list, the body's scroll lock, and the callbacks fired so far.
    Each public operation and each incoming event is a pure transition. */
module Lifecycle {
  import opened Base
  import opened Modal

  type Id = nat

  /** The body's "focusly--no-scroll" marker and its inline right padding in
      pixels (`None` is the empty string). */
  datatype Page = Page(noScroll: bool, paddingRight: Option<nat>)

  const Unlocked: Page := Page(false, None)

  /** A user callback the model saw being invoked. */
  datatype Notice = OnOpenCalled(id: Id) | OnCloseCalled(id: Id)

  /** Where a click on the backdrop element originated. */
  datatype ClickTarget = OnBackdrop | InsideContainer

  datatype World = World(
    registry: seq<Id>,
    instances: map<Id, Instance>,
    listeners: seq<Id>,
    page: Page,
    trace: seq<Notice>)

  const Initial: World := World([], map[], [], Unlocked, [])

  /** The last registry entry, if any. */
  function Top(w: World): (t: Option<Id>)
    ensures t.Some? <==> |w.registry| > 0
    ensures t.Some? ==> t.value == w.registry[|w.registry| - 1]
  {
    if |w.registry| == 0 then None else Some(w.registry[|w.registry| - 1])
  }

  /** `removeEventListener`: the listener leaves the list, the others keep
      their registration order. */
  function Unlisten(ls: seq<Id>, id: Id): (r: seq<Id>)
    ensures id !in r
    ensures forall x :: x in r <==> x in ls && x != id
    ensures Distinct(ls) ==> Distinct(r)
  {
    if |ls| == 0 then []
    else
      var rest := Unlisten(ls[1..], id);
      assert Distinct(ls) ==> Distinct(ls[1..]) && ls[0] !in ls[1..];
      if ls[0] == id then rest else [ls[0]] + rest
  }

  /** Removing a listener from a concatenation removes it from each part. */
  lemma {:induction false} UnlistenConcat(p: seq<Id>, q: seq<Id>, id: Id)
    ensures Unlisten(p + q, id) == Unlisten(p, id) + Unlisten(q, id)
    decreases |p|
  {
    if |p| == 0 {
      assert p + q == q;
    } else {
      assert (p + q)[0] == p[0];
      assert (p + q)[1..] == p[1..] + q;
      UnlistenConcat(p[1..], q, id);
    }
  }

  /** Removing a listener that is not registered changes nothing. */
  lemma {:induction false} UnlistenAbsent(ls: seq<Id>, id: Id)
    requires id !in ls
    ensures Unlisten(ls, id) == ls
    decreases |ls|
  {
    if |ls| > 0 {
      UnlistenAbsent(ls[1..], id);
      assert [ls[0]] + ls[1..] == ls;
    }
  }

  /** Adding a listener and removing it again restores a list it was absent from. */
  lemma {:induction false} UnlistenLast(ls: seq<Id>, id: Id)
    requires Unlisten(ls, id) == ls
    ensures Unlisten(ls + [id], id) == ls
    decreases |ls|
  {
    if |ls| == 0 {
      assert ([] + [id])[1..] == [];
    } else {
      assert (ls + [id])[1..] == ls[1..] + [id];
      assert ls[0] != id;
      assert Unlisten(ls[1..], id) == ls[1..] by {
        assert Unlisten(ls, id) == [ls[0]] + Unlisten(ls[1..], id);
      }
      UnlistenLast(ls[1..], id);
      assert [ls[0]] + ls[1..] == ls;
    }
  }

  /** `addEventListener` of the one bound handler: adding it again is a no-op. */
  function Listen(ls: seq<Id>, id: Id): (r: seq<Id>)
    ensures id in r
    ensures forall x :: x in r <==> x in ls || x == id
    ensures Distinct(ls) ==> Distinct(r)
    ensures id in ls ==> r == ls
    ensures |ls| <= |r| <= |ls| + 1 && r[..|ls|] == ls
  {
    if id in ls then ls else ls + [id]
  }

  /** `_getScrollbarWidth`: a cached width is reused only when it is truthy,
      so a cached 0 is measured again. */
  function ScrollbarWidth(inst: Instance, measured: nat): (width: nat)
    ensures inst.scrollbarWidth != 0 ==> width == inst.scrollbarWidth
    ensures inst.scrollbarWidth == 0 ==> width == measured
  {
    if inst.scrollbarWidth != 0 then inst.scrollbarWidth else measured
  }

  /** `open()` can run: the instance exists and either has a subtree or
      can build one. */
  predicate Openable(w: World, id: Id) {
    id in w.instances && (Built(w.instances[id]) || Buildable(w.instances[id]))
  }

  /** `open()` with `measured` the width a fresh measurement would give. */
  function Open(w: World, id: Id, measured: nat): (r: World)
    requires Openable(w, id)
    ensures r.registry == w.registry + [id]
    ensures Top(r) == Some(id)
    ensures id in r.instances && Built(r.instances[id])
    ensures r.instances == w.instances[id := r.instances[id]]
    ensures var before, after := w.instances[id], r.instances[id];
            && (Built(before) ==>
                  after.subtree.value == before.subtree.value.(
                    clickHandler := before.subtree.value.clickHandler || before.flags.overlay,
                    onTransitionEnd := OpenHandler))
            && (!Built(before) ==>
                  after.subtree.value == Build(before).(clickHandler := before.flags.overlay, onTransitionEnd := OpenHandler))
            && after.pendingShows == before.pendingShows + 1
            && after == before.(subtree := after.subtree, pendingShows := after.pendingShows,
                                scrollbarWidth := after.scrollbarWidth)
    ensures r.instances[id].scrollbarWidth == ScrollbarWidth(w.instances[id], measured)
    ensures r.page == Page(true, Some(ScrollbarWidth(w.instances[id], measured)))
    ensures r.listeners == if w.instances[id].flags.escape then Listen(w.listeners, id) else w.listeners
    ensures id in r.listeners <==> id in w.listeners || w.instances[id].flags.escape
    ensures forall x :: x != id ==> (x in r.listeners <==> x in w.listeners)
    ensures r.trace == w.trace
  {
    var inst := w.instances[id];
    var built := if Built(inst) then inst.subtree.value else Build(inst);
    var width := ScrollbarWidth(inst, measured);
    var sub := built.(clickHandler := built.clickHandler || inst.flags.overlay,
                      onTransitionEnd := OpenHandler);
    var inst' := inst.(subtree := Some(sub), pendingShows := inst.pendingShows + 1,
                       scrollbarWidth := width);
    World(
      w.registry + [id],
      w.instances[id := inst'],
      if inst.flags.escape then Listen(w.listeners, id) else w.listeners,
      Page(true, Some(width)),
      w.trace)
  }

  /** `close(destroy)`: pops the LAST registry entry whichever instance is
      closing, hides the backdrop, drops the escape listener, and puts the
      close completion into the single transition-end slot. */
  function Close(w: World, id: Id, destroy: bool): (r: World)
    requires id in w.instances && Built(w.instances[id])
    ensures |w.registry| > 0 ==> r.registry == w.registry[..|w.registry| - 1]
    ensures |w.registry| == 0 ==> r.registry == []
    ensures id in r.instances && Built(r.instances[id])
    ensures r.instances == w.instances[id := r.instances[id]]
    ensures r.instances[id].subtree.value
              == w.instances[id].subtree.value.(shown := false, onTransitionEnd := CloseHandler(destroy))
    ensures r.instances[id] == w.instances[id].(subtree := r.instances[id].subtree)
    ensures w.instances[id].flags.escape ==> id !in r.listeners
    ensures !w.instances[id].flags.escape ==> r.listeners == w.listeners
    ensures r.listeners == if w.instances[id].flags.escape then Unlisten(w.listeners, id) else w.listeners
    ensures forall x :: x != id ==> (x in r.listeners <==> x in w.listeners)
    ensures r.page == w.page && r.trace == w.trace
  {
    var inst := w.instances[id];
    var sub := inst.subtree.value.(shown := false, onTransitionEnd := CloseHandler(destroy));
    World(
      if |w.registry| == 0 then [] else w.registry[..|w.registry| - 1],
      w.instances[id := inst.(subtree := Some(sub))],
      if inst.flags.escape then Unlisten(w.listeners, id) else w.listeners,
      w.page,
      w.trace)
  }

  /** `close()` with no argument: `destroy` defaults to `destroyOnClose`. */
  function CloseDefault(w: World, id: Id): (r: World)
    requires id in w.instances && Built(w.instances[id])
    ensures r == Close(w, id, w.instances[id].config.destroyOnClose)
    ensures id in r.instances && Built(r.instances[id])
    ensures r.instances[id].subtree.value.onTransitionEnd
              == CloseHandler(w.instances[id].config.destroyOnClose)
  {
    Close(w, id, w.instances[id].config.destroyOnClose)
  }

  /** `destroy()`: a close that always tears the subtree down on completion. */
  function Destroy(w: World, id: Id): (r: World)
    requires id in w.instances && Built(w.instances[id])
    ensures r == Close(w, id, true)
    ensures r.instances[id].subtree.value.onTransitionEnd == CloseHandler(true)
    ensures |w.registry| > 0 ==> |r.registry| == |w.registry| - 1
  {
    Close(w, id, true)
  }

  /** `_handleEscapeKey` of instance `id`: it closes the instance exactly when
      the key is "Escape" and the instance is the last registry entry. */
  function HandleEscapeKey(w: World, id: Id, key: string): (r: World)
    requires id in w.instances && Built(w.instances[id])
    ensures key == "Escape" && Top(w) == Some(id) ==> r == CloseDefault(w, id)
    ensures r == w <==> !(key == "Escape" && Top(w) == Some(id))
    ensures r == w || |r.registry| == |w.registry| - 1
  {
    if key == "Escape" && Top(w) == Some(id) then CloseDefault(w, id) else w
  }

  /** The backdrop's click handler, installed by `open` when overlay-close is
      allowed: it closes only when the click's target is the backdrop itself. */
  function BackdropClick(w: World, id: Id, target: ClickTarget): (r: World)
    requires id in w.instances && Built(w.instances[id])
    ensures target == InsideContainer ==> r == w
    ensures !w.instances[id].subtree.value.clickHandler ==> r == w
    ensures target == OnBackdrop && w.instances[id].subtree.value.clickHandler ==>
              r == CloseDefault(w, id)
  {
    if target == OnBackdrop && w.instances[id].subtree.value.clickHandler then CloseDefault(w, id) else w
  }

  /** The "×" button `_build` adds when button-close is allowed calls `close()`. */
  function CloseButtonClick(w: World, id: Id): (r: World)
    requires id in w.instances && Built(w.instances[id])
    requires w.instances[id].subtree.value.closeButton
    ensures r == CloseDefault(w, id)
    ensures |w.registry| > 0 ==> r.registry == w.registry[..|w.registry| - 1]
    ensures w.instances[id].flags.escape ==> id !in r.listeners
    ensures id in r.instances && Built(r.instances[id])
    ensures r.instances[id].subtree.value.onTransitionEnd
              == CloseHandler(w.instances[id].config.destroyOnClose)
    ensures !r.instances[id].subtree.value.shown
  {
    CloseDefault(w, id)
  }

  /** The deferred show (`setTimeout(…, 0)` in `open`) firing: it adds the
      "focusly--show" class to whatever backdrop the instance has now. */
  function ShowTick(w: World, id: Id): (r: World)
    requires id in w.instances && Built(w.instances[id]) && w.instances[id].pendingShows > 0
    ensures id in r.instances && Built(r.instances[id])
    ensures r.instances == w.instances[id := r.instances[id]]
    ensures r.instances[id].subtree.value == w.instances[id].subtree.value.(shown := true)
    ensures r.instances[id].pendingShows == w.instances[id].pendingShows - 1
    ensures r.instances[id] == w.instances[id].(subtree := r.instances[id].subtree,
                                                pendingShows := r.instances[id].pendingShows)
    ensures r.registry == w.registry && r.listeners == w.listeners && r.page == w.page
    ensures r.trace == w.trace
  {
    var inst := w.instances[id];
    var inst' := inst.(subtree := Some(inst.subtree.value.(shown := true)),
                       pendingShows := inst.pendingShows - 1);
    w.(instances := w.instances[id := inst'])
  }

  /** A transition-end event reaching the backdrop of `id`. Only the
      "transform" property runs the handler, and the handler stays in place
      after it runs. The close completion removes the subtree when asked to
      and always clears the page's scroll lock. */
  function TransitionEnd(w: World, id: Id, prop: string): (r: World)
    requires id in w.instances
    ensures prop != "transform" || !Built(w.instances[id]) ==> r == w
    ensures r.registry == w.registry && r.listeners == w.listeners
    ensures r.instances.Keys == w.instances.Keys
    ensures Built(w.instances[id]) && prop == "transform" ==>
              match w.instances[id].subtree.value.onTransitionEnd
              case NoHandler => r == w
              case OpenHandler =>
                && r.instances == w.instances && r.page == w.page
                && r.trace == w.trace + (if w.instances[id].config.hasOnOpen then [OnOpenCalled(id)] else [])
              case CloseHandler(destroy) =>
                && r.page == Unlocked
                && (destroy ==> r.instances == w.instances[id := w.instances[id].(subtree := None)])
                && (!destroy ==> r.instances == w.instances)
                && r.trace == w.trace + (if w.instances[id].config.hasOnClose then [OnCloseCalled(id)] else [])
  {
    var inst := w.instances[id];
    if !Built(inst) || prop != "transform" then w
    else
      match inst.subtree.value.onTransitionEnd
      case NoHandler => w
      case OpenHandler =>
        if inst.config.hasOnOpen then w.(trace := w.trace + [OnOpenCalled(id)]) else w
      case CloseHandler(destroy) =>
        var inst' := if destroy then inst.(subtree := None) else inst;
        w.(instances := w.instances[id := inst'],
           page := Unlocked,
           trace := w.trace + (if inst.config.hasOnClose then [OnCloseCalled(id)] else []))
  }

  /** An instance whose escape handler is installed: it is built, escape-close
      is allowed, and its pending transition-end handler is the open one. */
  predicate ListenerOK(w: World, id: Id) {
    && id in w.instances
    && w.instances[id].flags.escape
    && Built(w.instances[id])
    && w.instances[id].subtree.value.onTransitionEnd == OpenHandler
  }

  /** What every reachable world satisfies. */
  predicate WF(w: World) {
    && (forall i :: 0 <= i < |w.registry| ==> w.registry[i] in w.instances)
    && (forall i :: 0 <= i < |w.listeners| ==> ListenerOK(w, w.listeners[i]))
    && Distinct(w.listeners)
    && (w.page.noScroll <==> w.page.paddingRight.Some?)
    && (forall id :: id in w.instances ==> InstanceWF(w.instances[id]))
  }

  lemma ListenerBuilt(w: World, id: Id)
    requires WF(w) && id in w.listeners
    ensures ListenerOK(w, id)
  {
    var i :| 0 <= i < |w.listeners| && w.listeners[i] == id;
  }

  lemma OpenWF(w: World, id: Id, measured: nat)
    requires WF(w) && id in w.instances
    requires Built(w.instances[id]) || Buildable(w.instances[id])
    ensures WF(Open(w, id, measured))
  {
    var r := Open(w, id, measured);
    if !Built(w.instances[id]) {
      BuildWF(w.instances[id]);
    }
    forall i | 0 <= i < |r.listeners| ensures ListenerOK(r, r.listeners[i]) {
      var x := r.listeners[i];
      if x != id {
        ListenerBuilt(w, x);
      }
    }
  }

  lemma CloseWF(w: World, id: Id, destroy: bool)
    requires WF(w) && id in w.instances && Built(w.instances[id])
    ensures WF(Close(w, id, destroy))
  {
    var r := Close(w, id, destroy);
    forall i | 0 <= i < |r.listeners| ensures ListenerOK(r, r.listeners[i]) {
      var x := r.listeners[i];
      assert x in w.listeners;
      ListenerBuilt(w, x);
    }
  }

  lemma HandleEscapeKeyWF(w: World, id: Id, key: string)
    requires WF(w) && id in w.instances && Built(w.instances[id])
    ensures WF(HandleEscapeKey(w, id, key))
  {
    CloseWF(w, id, w.instances[id].config.destroyOnClose);
  }

  lemma BackdropClickWF(w: World, id: Id, target: ClickTarget)
    requires WF(w) && id in w.instances && Built(w.instances[id])
    ensures WF(BackdropClick(w, id, target))
  {
    CloseWF(w, id, w.instances[id].config.destroyOnClose);
  }

  lemma ShowTickWF(w: World, id: Id)
    requires WF(w) && id in w.instances && Built(w.instances[id]) && w.instances[id].pendingShows > 0
    ensures WF(ShowTick(w, id))
  {
    var r := ShowTick(w, id);
    forall i | 0 <= i < |r.listeners| ensures ListenerOK(r, r.listeners[i]) {
      ListenerBuilt(w, r.listeners[i]);
    }
  }

  /** A destroying completion never removes the subtree of an instance that
      still listens for Escape: its slot would hold the open handler. */
  lemma TransitionEndWF(w: World, id: Id, prop: string)
    requires WF(w) && id in w.instances
    ensures WF(TransitionEnd(w, id, prop))
  {
    var r := TransitionEnd(w, id, prop);
    forall i | 0 <= i < |r.listeners| ensures ListenerOK(r, r.listeners[i]) {
      ListenerBuilt(w, r.listeners[i]);
    }
  }

  /** The document dispatching one keydown to the escape handlers in their
      registration order. The list is read when dispatch starts; a handler
      removed by an earlier one in the same dispatch does not run. */
  function DispatchFrom(w: World, key: string, pending: seq<Id>): (r: World)
    requires WF(w)
    ensures WF(r)
    ensures |r.registry| <= |w.registry| && r.registry == w.registry[..|r.registry|]
    ensures key != "Escape" ==> r == w
    decreases |pending|
  {
    if |pending| == 0 then w
    else
      var id := pending[0];
      var next := if id in w.listeners then
                    ListenerBuilt(w, id);
                    HandleEscapeKeyWF(w, id, key);
                    HandleEscapeKey(w, id, key)
                  else w;
      DispatchFrom(next, key, pending[1..])
  }

  /** A keydown on the document. */
  function DispatchKeydown(w: World, key: string): (r: World)
    requires WF(w)
    ensures WF(r)
    ensures key != "Escape" ==> r == w
    ensures |r.registry| <= |w.registry| && r.registry == w.registry[..|r.registry|]
  {
    DispatchFrom(w, key, w.listeners)
  }

  /** If the top instance listens for Escape, an Escape keydown closes at
      least one registry entry. */
  lemma {:induction false} DispatchFromShrinks(w: World, pending: seq<Id>, t: Id)
    requires WF(w) && Top(w) == Some(t) && t in w.listeners && t in pending
    ensures |DispatchFrom(w, "Escape", pending).registry| < |w.registry|
    decreases |pending|
  {
    var id := pending[0];
    ListenerBuilt(w, t);
    if id in w.listeners {
      ListenerBuilt(w, id);
      HandleEscapeKeyWF(w, id, "Escape");
    }
    var next := if id in w.listeners then HandleEscapeKey(w, id, "Escape") else w;
    if next == w {
      if id == t {
        assert false;
      } else {
        DispatchFromShrinks(w, pending[1..], t);
      }
    }
  }

  lemma DispatchKeydownClosesTop(w: World, t: Id)
    requires WF(w) && Top(w) == Some(t) && t in w.listeners
    ensures |DispatchKeydown(w, "Escape").registry| < |w.registry|
  {
    DispatchFromShrinks(w, w.listeners, t);
  }
}
