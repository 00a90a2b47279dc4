/** Everything that can happen to the widget, as one event type, and runs of
    events. A step the source cannot take (it would dereference a missing
    backdrop, or build without content or template) is not enabled, and a
    run stops in front of it. */
module Events {
  import opened Base
  import opened Options
  import opened Modal
  import opened Lifecycle

  datatype Event =
    | Constructed(id: Id, options: UserOptions, templates: set<string>)
    | OpenCall(id: Id, measured: nat)
    | CloseCall(id: Id, destroy: Option<bool>)
    | DestroyCall(id: Id)
    | SetContentCall(id: Id, html: string)
    | SetFooterContentCall(id: Id, html: string)
    | AddFooterButtonCall(id: Id, button: ButtonDesc)
    | Keydown(key: string)
    | BackdropClicked(id: Id, target: ClickTarget)
    | CloseButtonClicked(id: Id)
    | TransitionEnded(id: Id, prop: string)
    | ShowTimerFired(id: Id)

  predicate Enabled(w: World, e: Event) {
    match e
    case Constructed(id, _, _) => id !in w.instances
    case OpenCall(id, _) => Openable(w, id)
    case CloseCall(id, _) => id in w.instances && Built(w.instances[id])
    case DestroyCall(id) => id in w.instances && Built(w.instances[id])
    case SetContentCall(id, _) => id in w.instances
    case SetFooterContentCall(id, _) => id in w.instances
    case AddFooterButtonCall(id, _) => id in w.instances
    case Keydown(_) => true
    case BackdropClicked(id, _) => id in w.instances && Built(w.instances[id])
    case CloseButtonClicked(id) =>
      id in w.instances && Built(w.instances[id]) && w.instances[id].subtree.value.closeButton
    case TransitionEnded(id, _) => id in w.instances
    case ShowTimerFired(id) =>
      id in w.instances && Built(w.instances[id]) && w.instances[id].pendingShows > 0
  }

  /** Registers a freshly constructed instance under an unused id; the
      registry, listeners and page stay. */
  function AddInstance(w: World, id: Id, inst: Instance): (r: World)
    requires id !in w.instances
    requires WF(w) && InstanceWF(inst)
    ensures WF(r)
    ensures r.instances == w.instances[id := inst]
    ensures r.registry == w.registry && r.listeners == w.listeners && r.page == w.page
  {
    var r := w.(instances := w.instances[id := inst]);
    assert forall i :: 0 <= i < |r.listeners| ==> ListenerOK(r, r.listeners[i]) by {
      forall i | 0 <= i < |r.listeners| ensures ListenerOK(r, r.listeners[i]) {
        ListenerBuilt(w, r.listeners[i]);
      }
    }
    r
  }

  /** Replaces one instance; the registry, listeners and page stay. */
  function UpdateInstance(w: World, id: Id, inst: Instance): (r: World)
    requires id in w.instances
    requires Built(inst) == Built(w.instances[id])
    requires Built(inst) ==> inst.subtree.value.onTransitionEnd == w.instances[id].subtree.value.onTransitionEnd
    requires inst.flags == w.instances[id].flags
    requires WF(w) && InstanceWF(inst)
    ensures WF(r)
    ensures r.instances == w.instances[id := inst]
    ensures r.registry == w.registry && r.listeners == w.listeners && r.page == w.page
  {
    var r := w.(instances := w.instances[id := inst]);
    assert forall i :: 0 <= i < |r.listeners| ==> ListenerOK(r, r.listeners[i]) by {
      forall i | 0 <= i < |r.listeners| ensures ListenerOK(r, r.listeners[i]) {
        ListenerBuilt(w, r.listeners[i]);
      }
    }
    r
  }

  /** One event. Every enabled event keeps the world well formed. */
  function Step(w: World, e: Event): (r: World)
    requires WF(w) && Enabled(w, e)
    ensures WF(r)
    ensures e.Keydown? && e.key != "Escape" ==> r == w
    ensures e.OpenCall? ==> r.registry == w.registry + [e.id]
    ensures e.CloseCall? || e.DestroyCall? ==>
              |r.registry| == if |w.registry| == 0 then 0 else |w.registry| - 1
  {
    match e
    case Constructed(id, u, templates) =>
      var c := Construct(u, templates);
      if c.Ok? then
        ConstructWF(u, templates);
        AddInstance(w, id, c.value)
      else w
    case OpenCall(id, measured) =>
      OpenWF(w, id, measured);
      Open(w, id, measured)
    case CloseCall(id, destroy) =>
      var d := if destroy.Some? then destroy.value else w.instances[id].config.destroyOnClose;
      CloseWF(w, id, d);
      Close(w, id, d)
    case DestroyCall(id) =>
      CloseWF(w, id, true);
      Destroy(w, id)
    case SetContentCall(id, html) =>
      SetContentWF(w.instances[id], html);
      UpdateInstance(w, id, SetContent(w.instances[id], html))
    case SetFooterContentCall(id, html) =>
      SetFooterContentWF(w.instances[id], html);
      UpdateInstance(w, id, SetFooterContent(w.instances[id], html))
    case AddFooterButtonCall(id, b) =>
      AddFooterButtonWF(w.instances[id], b);
      UpdateInstance(w, id, AddFooterButton(w.instances[id], b))
    case Keydown(key) =>
      DispatchKeydown(w, key)
    case BackdropClicked(id, target) =>
      BackdropClickWF(w, id, target);
      BackdropClick(w, id, target)
    case CloseButtonClicked(id) =>
      CloseWF(w, id, w.instances[id].config.destroyOnClose);
      CloseButtonClick(w, id)
    case TransitionEnded(id, prop) =>
      TransitionEndWF(w, id, prop);
      TransitionEnd(w, id, prop)
    case ShowTimerFired(id) =>
      ShowTickWF(w, id);
      ShowTick(w, id)
  }

  /** The worlds a run passed through, starting with the initial one, and
      how many of its events took place. */
  datatype RunResult = RunResult(worlds: seq<World>, performed: nat)

  /** Performs the events in order, stopping in front of the first one that
      is not enabled: every performed event was enabled in the world before
      it and led to the next world. */
  function Run(w: World, es: seq<Event>): (r: RunResult)
    requires WF(w)
    ensures r.performed <= |es| && |r.worlds| == r.performed + 1
    ensures r.worlds[0] == w
    ensures forall k :: 0 <= k < |r.worlds| ==> WF(r.worlds[k])
    ensures forall k :: 0 <= k < r.performed ==>
              Enabled(r.worlds[k], es[k]) && r.worlds[k + 1] == Step(r.worlds[k], es[k])
    ensures r.performed < |es| ==> !Enabled(r.worlds[r.performed], es[r.performed])
    decreases |es|
  {
    if |es| == 0 || !Enabled(w, es[0]) then RunResult([w], 0)
    else
      var rest := Run(Step(w, es[0]), es[1..]);
      RunCons(w, es, rest);
      RunResult([w] + rest.worlds, rest.performed + 1)
  }

  /** One enabled event in front of a recorded run gives the recorded run
      one event longer. */
  lemma RunCons(w: World, es: seq<Event>, rest: RunResult)
    requires WF(w) && |es| > 0 && Enabled(w, es[0])
    requires rest.performed <= |es[1..]| && |rest.worlds| == rest.performed + 1
    requires rest.worlds[0] == Step(w, es[0])
    requires forall k :: 0 <= k < |rest.worlds| ==> WF(rest.worlds[k])
    requires forall k :: 0 <= k < rest.performed ==>
               Enabled(rest.worlds[k], es[1..][k]) && rest.worlds[k + 1] == Step(rest.worlds[k], es[1..][k])
    requires rest.performed < |es[1..]| ==> !Enabled(rest.worlds[rest.performed], es[1..][rest.performed])
    ensures var ws := [w] + rest.worlds;
            && (forall k :: 0 <= k < |ws| ==> WF(ws[k]))
            && (forall k :: 0 <= k < rest.performed + 1 ==>
                  Enabled(ws[k], es[k]) && ws[k + 1] == Step(ws[k], es[k]))
            && (rest.performed + 1 < |es| ==> !Enabled(ws[rest.performed + 1], es[rest.performed + 1]))
  {
    var ws := [w] + rest.worlds;
    forall k | 0 <= k < |ws| ensures WF(ws[k]) {
      if k > 0 { assert ws[k] == rest.worlds[k - 1]; }
    }
    forall k | 1 <= k < rest.performed + 1
      ensures Enabled(ws[k], es[k]) && ws[k + 1] == Step(ws[k], es[k])
    {
      assert ws[k] == rest.worlds[k - 1] && ws[k + 1] == rest.worlds[k];
      assert es[k] == es[1..][k - 1];
    }
  }

  lemma InitialWF()
    ensures WF(Initial)
  {
  }
}
