/** Multi-step behaviours of the lifecycle: the orderings that are easy to
    misstate about the registry, the escape key, the transition-end slot and
    the scroll lock. */
module Scenarios {
  import opened Base
  import opened Options
  import opened Footer
  import opened Modal
  import opened Lifecycle

  /** An open followed by any close of the same instance leaves the registry
      as it was. */
  lemma OpenThenCloseRestoresRegistry(w: World, id: Id, measured: nat, destroy: bool)
    requires Openable(w, id)
    ensures Close(Open(w, id, measured), id, destroy).registry == w.registry
  {
    var w1 := Open(w, id, measured);
    assert w1.registry[..|w1.registry| - 1] == w.registry;
  }

  /** Closing the LOWER of two stacked instances pops the upper one from the
      registry: `a` stays registered, `b` is gone, and `b` keeps its open
      handler while `a` now waits for its close completion. */
  lemma OutOfOrderClosePopsTop(w: World, a: Id, b: Id, ma: nat, mb: nat, destroy: bool)
    requires Openable(w, a) && Openable(w, b) && a != b
    ensures var w2 := Open(Open(w, a, ma), b, mb);
            var w3 := Close(w2, a, destroy);
            && w3.registry == w.registry + [a]
            && w3.instances[a].subtree.value.onTransitionEnd == CloseHandler(destroy)
            && w3.instances[b].subtree.value.onTransitionEnd == OpenHandler
  {
    var w1 := Open(w, a, ma);
    var w2 := Open(w1, b, mb);
    assert w2.registry == w.registry + [a, b];
    assert w2.registry[..|w2.registry| - 1] == w.registry + [a];
  }

  /** The close completion clears the scroll lock even while another
      instance is still registered. */
  lemma CompletionUnlocksWhileOthersOpen(w: World, a: Id, b: Id, ma: nat, mb: nat, destroy: bool)
    requires Openable(w, a) && Openable(w, b) && a != b
    ensures var w2 := Open(Open(w, a, ma), b, mb);
            var w4 := TransitionEnd(Close(w2, b, destroy), b, "transform");
            && w4.registry == w.registry + [a]
            && w4.page == Unlocked
            && !w4.page.noScroll
  {
    var w1 := Open(w, a, ma);
    var w2 := Open(w1, b, mb);
    assert w2.registry[..|w2.registry| - 1] == w.registry + [a];
  }

  /** The transition-end slot holds only the latest handler: a close right
      after an open replaces the open handler, so the next "transform"
      transition end runs the close completion and never the open callback. */
  lemma CloseReplacesOpenHandler(w: World, id: Id, measured: nat, destroy: bool)
    requires Openable(w, id)
    ensures var w2 := Close(Open(w, id, measured), id, destroy);
            var w3 := TransitionEnd(w2, id, "transform");
            && w3.page == Unlocked
            && w3.trace == w.trace + (if w.instances[id].config.hasOnClose then [OnCloseCalled(id)] else [])
            && (destroy ==> !Built(w3.instances[id]))
            && (!destroy ==> Built(w3.instances[id]))
  {
  }

  /** An open right after a close replaces the close completion: the
      subtree survives even a destroying close, and the lock stays on. */
  lemma OpenReplacesCloseHandler(w: World, id: Id, measured: nat, destroy: bool)
    requires id in w.instances && Built(w.instances[id])
    ensures var w2 := Open(Close(w, id, destroy), id, measured);
            var w3 := TransitionEnd(w2, id, "transform");
            && Built(w3.instances[id])
            && w3.instances[id].subtree.value.body == w.instances[id].subtree.value.body
            && w3.page == w2.page && w3.page.noScroll
            && w3.trace == w.trace + (if w.instances[id].config.hasOnOpen then [OnOpenCalled(id)] else [])
  {
  }

  /** After a destroying close has completed, the next open builds a fresh
      subtree from the current content, footer content and buttons; after a
      keeping close it reuses the old one. */
  lemma ReopenAfterCompletion(w: World, id: Id, measured: nat, destroy: bool)
    requires id in w.instances && Built(w.instances[id]) && Buildable(w.instances[id])
    ensures var w3 := TransitionEnd(Close(w, id, destroy), id, "transform");
            var w4 := Open(w3, id, measured);
            var inst := w.instances[id];
            && (destroy ==>
                  && w4.instances[id].subtree.value.body == Build(inst).body
                  && w4.instances[id].subtree.value.footer == Build(inst).footer
                  && !w4.instances[id].subtree.value.shown)
            && (!destroy ==>
                  && w4.instances[id].subtree.value.body == inst.subtree.value.body
                  && w4.instances[id].subtree.value.footer == inst.subtree.value.footer)
  {
  }

  /** The scrollbar width is measured until a non-zero value is cached;
      from then on every open pads the page by that same width, whatever a
      new measurement would give. */
  lemma WidthCachedOnceNonZero(w: World, id: Id, m1: nat, m2: nat, destroy: bool)
    requires Openable(w, id) && ScrollbarWidth(w.instances[id], m1) != 0
    ensures Open(Close(Open(w, id, m1), id, destroy), id, m2).page == Open(w, id, m1).page
  {
  }

  /** An Escape reaching a handler that is not the top's changes nothing. */
  lemma {:induction false} DispatchWithoutTop(w: World, pending: seq<Id>)
    requires WF(w)
    requires forall i :: 0 <= i < |pending| ==> Top(w) != Some(pending[i])
    ensures DispatchFrom(w, "Escape", pending) == w
    decreases |pending|
  {
    if |pending| > 0 {
      if pending[0] in w.listeners {
        ListenerBuilt(w, pending[0]);
      }
      DispatchWithoutTop(w, pending[1..]);
    }
  }

  /** Dispatching over a concatenated listener snapshot is dispatching over
      the first part, then over the second. */
  lemma {:induction false} DispatchConcat(w: World, key: string, p: seq<Id>, q: seq<Id>)
    requires WF(w)
    ensures DispatchFrom(w, key, p + q) == DispatchFrom(DispatchFrom(w, key, p), key, q)
    decreases |p|
  {
    if |p| == 0 {
      assert p + q == q;
    } else {
      assert (p + q)[0] == p[0];
      assert (p + q)[1..] == p[1..] + q;
      var id := p[0];
      if id in w.listeners {
        ListenerBuilt(w, id);
        HandleEscapeKeyWF(w, id, key);
      }
      var next := if id in w.listeners then HandleEscapeKey(w, id, key) else w;
      DispatchConcat(next, key, p[1..], q);
    }
  }

  /** Opens `a`, then `b`; the result is well formed. */
  function OpenBoth(w: World, a: Id, b: Id, ma: nat, mb: nat): (r: World)
    requires WF(w) && Openable(w, a) && Openable(w, b) && a != b
    ensures WF(r)
    ensures r == Open(Open(w, a, ma), b, mb)
  {
    OpenWF(w, a, ma);
    OpenWF(Open(w, a, ma), b, mb);
    Open(Open(w, a, ma), b, mb)
  }

  predicate EscapeOpenable(w: World, id: Id) {
    Openable(w, id) && w.instances[id].flags.escape && id !in w.listeners
  }

  /** When the top instance's escape handler is the last one registered, an
      Escape keydown closes exactly that instance. */
  lemma {:induction false} EscapeReachesLastListener(w: World, p: seq<Id>, t: Id)
    requires WF(w) && Top(w) == Some(t) && w.listeners == p + [t]
    ensures t in w.instances && Built(w.instances[t])
    ensures DispatchKeydown(w, "Escape") == CloseDefault(w, t)
  {
    ListenerBuilt(w, t);
    assert forall i :: 0 <= i < |p| ==> p[i] != t by {
      forall i | 0 <= i < |p| ensures p[i] != t {
        assert w.listeners[i] == p[i] && w.listeners[|p|] == t;
      }
    }
    DispatchConcat(w, "Escape", p, [t]);
    DispatchWithoutTop(w, p);
    assert DispatchFrom(w, "Escape", [t]) == DispatchFrom(HandleEscapeKey(w, t, "Escape"), "Escape", []);
  }

  /** Open `a`, then `b`, then press Escape: only `b` closes. Press Escape
      again: `a` closes. */
  lemma {:induction false} EscapeClosesTopOnly(w: World, a: Id, b: Id, ma: nat, mb: nat)
    requires WF(w) && a != b && EscapeOpenable(w, a) && EscapeOpenable(w, b)
    ensures var w2 := OpenBoth(w, a, b, ma, mb);
            var w3 := DispatchKeydown(w2, "Escape");
            && w3 == CloseDefault(w2, b)
            && w3.registry == w.registry + [a]
            && DispatchKeydown(w3, "Escape") == CloseDefault(w3, a)
            && DispatchKeydown(w3, "Escape").registry == w.registry
  {
    var w2 := OpenBoth(w, a, b, ma, mb);
    assert w2.listeners == (w.listeners + [a]) + [b];
    assert w2.registry == w.registry + [a, b];
    EscapePopsLastListener(w2, w.listeners + [a], b);
    var w3 := DispatchKeydown(w2, "Escape");
    assert w2.registry[..|w2.registry| - 1] == w.registry + [a];
    EscapePopsLastListener(w3, w.listeners, a);
    assert w3.registry[..|w3.registry| - 1] == w.registry;
  }

  /** The Escape that closes the top whose handler is registered last also
      pops one entry and leaves the earlier handlers in their order. */
  lemma {:induction false} EscapePopsLastListener(w: World, p: seq<Id>, t: Id)
    requires WF(w) && Top(w) == Some(t) && w.listeners == p + [t] && t !in p
    ensures t in w.instances && Built(w.instances[t])
    ensures var r := DispatchKeydown(w, "Escape");
            && r == CloseDefault(w, t)
            && r.registry == w.registry[..|w.registry| - 1]
            && r.listeners == p
  {
    EscapeReachesLastListener(w, p, t);
    ListenerBuilt(w, t);
    UnlistenAbsent(p, t);
    UnlistenLast(p, t);
  }

  /** One handler run on a snapshot of one listener that is on top. */
  lemma DispatchSingle(w: World, t: Id)
    requires WF(w) && Top(w) == Some(t) && t in w.listeners
    ensures t in w.instances && Built(w.instances[t])
    ensures DispatchFrom(w, "Escape", [t]) == CloseDefault(w, t)
  {
    ListenerBuilt(w, t);
    HandleEscapeKeyWF(w, t, "Escape");
    assert DispatchFrom(w, "Escape", [t]) == DispatchFrom(HandleEscapeKey(w, t, "Escape"), "Escape", []);
  }

  /** Opens `x`, `y`, then `x` again; the result is well formed. */
  function OpenXYX(w: World, x: Id, y: Id, mx: nat, my: nat): (r: World)
    requires WF(w) && Openable(w, x) && Openable(w, y) && x != y
    ensures WF(r)
    ensures r == Open(Open(Open(w, x, mx), y, my), x, mx)
  {
    var w2 := OpenBoth(w, x, y, mx, my);
    OpenWF(w2, x, mx);
    Open(w2, x, mx)
  }

  /** The same instance opened twice keeps one escape handler registered
      BEFORE the one of an instance opened in between. Then a single Escape
      runs the first handler, which closes the top entry, and the second,
      whose instance has just become the top: two entries go at once, and
      the entry left on top no longer listens for Escape at all. */
  lemma OpenXYXShape(w: World, x: Id, y: Id, mx: nat, my: nat)
    requires WF(w) && x != y && EscapeOpenable(w, x) && EscapeOpenable(w, y)
    ensures OpenXYX(w, x, y, mx, my).listeners == w.listeners + [x, y]
    ensures OpenXYX(w, x, y, mx, my).registry == w.registry + [x, y, x]
  {
    var w2 := OpenBoth(w, x, y, mx, my);
    OpenBothListeners(w, x, y, mx, my);
    ReopenKeepsListeners(w2, x, mx);
  }

  /** Opening two escape-closable instances registers their handlers in
      call order. */
  lemma OpenBothListeners(w: World, x: Id, y: Id, mx: nat, my: nat)
    requires x != y && EscapeOpenable(w, x) && EscapeOpenable(w, y)
    ensures Openable(Open(w, x, mx), y)
    ensures var w2 := Open(Open(w, x, mx), y, my);
            && w2.listeners == w.listeners + [x, y]
            && w2.registry == w.registry + [x, y]
            && Openable(w2, x)
  {
    var w1 := Open(w, x, mx);
    assert w1.instances[y] == w.instances[y];
  }

  /** Opening an instance whose handler is still registered pushes it again
      but leaves the listener list as it is. */
  lemma ReopenKeepsListeners(w: World, x: Id, m: nat)
    requires Openable(w, x) && x in w.listeners
    ensures Open(w, x, m).listeners == w.listeners
    ensures Open(w, x, m).registry == w.registry + [x]
  {
  }

  /** Listeners that are not on top do nothing before the top one runs. */
  lemma {:induction false} EscapeSkipsToTop(w: World, p: seq<Id>, q: seq<Id>, t: Id)
    requires WF(w) && Top(w) == Some(t) && t !in p && t in w.listeners
    requires w.listeners == p + [t] + q
    ensures t in w.instances && Built(w.instances[t])
    ensures WF(CloseDefault(w, t))
    ensures DispatchKeydown(w, "Escape") == DispatchFrom(CloseDefault(w, t), "Escape", q)
  {
    assert forall i :: 0 <= i < |p| ==> Top(w) != Some(p[i]);
    DispatchConcat(w, "Escape", p + [t], q);
    DispatchConcat(w, "Escape", p, [t]);
    DispatchWithoutTop(w, p);
    DispatchSingle(w, t);
    CloseWF(w, t, w.instances[t].config.destroyOnClose);
  }

  lemma CloseTopOfThree(w: World, p: seq<Id>, stack: seq<Id>, x: Id, y: Id)
    requires WF(w) && x != y && x !in p
    requires w.listeners == p + [x, y] && w.registry == stack + [x, y, x]
    ensures x in w.instances && Built(w.instances[x])
    ensures CloseDefault(w, x).listeners == p + [y]
    ensures CloseDefault(w, x).registry == stack + [x, y]
  {
    ListenerBuilt(w, x);
    assert w.registry[..|w.registry| - 1] == stack + [x, y];
    UnlistenConcat(p, [x, y], x);
    UnlistenAbsent(p, x);
    assert [x, y][1..] == [y] && [y][1..] == [];
    assert Unlisten([y], x) == [y] + Unlisten([], x);
    assert Unlisten([x, y], x) == [y];
  }

  /** The dispatch at the heart of `OneEscapeClosesTwo`, for any world of
      that shape. */
  lemma {:induction false} EscapeOverTwoListeners(w: World, p: seq<Id>, stack: seq<Id>, x: Id, y: Id)
    requires WF(w) && x != y && x !in p
    requires w.listeners == p + [x, y] && w.registry == stack + [x, y, x]
    ensures DispatchKeydown(w, "Escape").registry == stack + [x]
    ensures x !in DispatchKeydown(w, "Escape").listeners
  {
    assert w.listeners == p + [x] + [y];
    EscapeSkipsToTop(w, p, [y], x);
    CloseTopOfThree(w, p, stack, x, y);
    var w1 := CloseDefault(w, x);
    DispatchSingle(w1, y);
    assert w1.registry[..|w1.registry| - 1] == stack + [x];
  }

  lemma OneEscapeClosesTwo(w: World, x: Id, y: Id, mx: nat, my: nat)
    requires WF(w) && x != y && EscapeOpenable(w, x) && EscapeOpenable(w, y)
    ensures var w3 := OpenXYX(w, x, y, mx, my);
            var w4 := DispatchKeydown(w3, "Escape");
            && w3.registry == w.registry + [x, y, x]
            && w4.registry == w.registry + [x]
            && x !in w4.listeners
  {
    OpenXYXShape(w, x, y, mx, my);
    EscapeOverTwoListeners(OpenXYX(w, x, y, mx, my), w.listeners, w.registry, x, y);
  }

  /** A modal with markup content and a footer, one "OK" button added before
      the first open: after the open it is the only registry entry, its
      footer shows exactly that button, and the page is locked with the
      measured padding. */
  lemma FooterButtonBeforeFirstOpen(measured: nat)
    ensures var u := UserOptions(Some("<p>Hi</p>"), None, None, Some(true), None, None, false, false);
            var c := Construct(u, {});
            && c.Ok?
            && var inst := AddFooterButton(c.value, ButtonDesc("OK", "btn"));
               var w := Open(Initial.(instances := map[0 := inst]), 0, measured);
               && w.registry == [0]
               && w.instances[0].subtree.value.footer == Some([Button(0)])
               && w.instances[0].subtree.value.body == ContentMarkup("<p>Hi</p>")
               && w.instances[0].subtree.value.closeButton
               && w.listeners == [0]
               && w.page == Page(true, Some(measured))
  {
    var u := UserOptions(Some("<p>Hi</p>"), None, None, Some(true), None, None, false, false);
    var inst := AddFooterButton(Construct(u, {}).value, ButtonDesc("OK", "btn"));
    assert ButtonRun(1) == [Button(0)];
    assert "button" in Merge(u).closeMethods;
  }

  /** Footer markup set while the footer exists replaces the rendered
      buttons; they come back, after the markup, with the next added button. */
  lemma FooterContentHidesButtons(inst: Instance, html: string, b: ButtonDesc)
    requires InstanceWF(inst) && Built(inst) && inst.subtree.value.footer.Some?
    requires html != "" && |inst.buttons| > 0
    ensures var i1 := SetFooterContent(inst, html);
            && i1.buttons == inst.buttons
            && i1.subtree.value.footer == Some([Markup(html)])
            && AddFooterButton(i1, b).subtree.value.footer
                 == Some([Markup(html)] + ButtonRun(|inst.buttons| + 1))
  {
    var i1 := SetFooterContent(inst, html);
    SetFooterContentWF(inst, html);
    RenderButtonsShaped([Markup(html)], |inst.buttons|, |inst.buttons| + 1);
  }

  /** `addFooterButton` called once per entry of `bs`, in order: the stored
      list grows by exactly `bs`, and a built footer ends with every button
      node in call order. */
  function AddFooterButtons(inst: Instance, bs: seq<ButtonDesc>): (r: Instance)
    requires InstanceWF(inst)
    ensures InstanceWF(r)
    ensures r.buttons == inst.buttons + bs
    ensures Built(r) == Built(inst)
    ensures Built(inst) ==> r.subtree.value.footer.Some? == inst.subtree.value.footer.Some?
    ensures Built(inst) && inst.subtree.value.footer.Some? && |bs| > 0 ==>
              EndsWithButtons(r.subtree.value.footer.value, |r.buttons|)
    decreases |bs|
  {
    if |bs| == 0 then
      assert inst.buttons + bs == inst.buttons;
      inst
    else
      var prev := AddFooterButtons(inst, bs[..|bs| - 1]);
      AddFooterButtonWF(prev, bs[|bs| - 1]);
      assert inst.buttons + bs == prev.buttons + [bs[|bs| - 1]];
      AddFooterButton(prev, bs[|bs| - 1])
  }
}
