/** One Focusly instance with the DOM replaced by abstract fields
    (src/focusly.js lines 3-140).

    The built subtree stands for `_backdrop` and what hangs under it: the
    container's classes, the close button, the content node, the footer
    region, the "focusly--show" class, the backdrop's click handler and its
    single `ontransitionend` slot. */
module Modal {
  import opened Base
  import opened Options
  import opened Footer

  /** Why the constructor gave up (it logs and returns early). */
  datatype ConstructError = MissingContent | TemplateNotFound(id: string)

  /** What the content region holds. */
  datatype ContentNode = ContentMarkup(html: string) | TemplateClone(templateId: string)

  /** The one `ontransitionend` handler of the backdrop: the one `open`
      installs, or the close completion with its `destroy` argument. */
  datatype Handler = NoHandler | OpenHandler | CloseHandler(destroy: bool)

  /** A footer button; its click callback is foreign code and not kept. */
  datatype ButtonDesc = ButtonDesc(title: string, cssClass: string)

  datatype Subtree = Subtree(
    containerClasses: set<string>,
    closeButton: bool,
    body: ContentNode,
    footer: Option<seq<FooterChild>>,
    shown: bool,
    clickHandler: bool,
    onTransitionEnd: Handler)

  datatype Instance = Instance(
    config: Config,
    flags: CloseFlags,
    template: Option<string>,
    content: Option<string>,
    footerContent: Option<string>,
    buttons: seq<ButtonDesc>,
    subtree: Option<Subtree>,
    pendingShows: nat,
    scrollbarWidth: nat)

  /** The constructor succeeds exactly when `content` is truthy, or when a
      truthy `templateId` names an existing template. */
  predicate Usable(u: UserOptions, templates: set<string>) {
    Truthy(u.content) || (Truthy(u.templateId) && u.templateId.value in templates)
  }

  /** `new Focusly(options)`; `templates` are the ids the document lookup
      would find. */
  function Construct(u: UserOptions, templates: set<string>): (r: Result<Instance, ConstructError>)
    ensures r.Ok? <==> Usable(u, templates)
    ensures !Truthy(u.content) && !Truthy(u.templateId) ==> r == Err(MissingContent)
    ensures !Truthy(u.content) && Truthy(u.templateId) && u.templateId.value !in templates ==>
              r == Err(TemplateNotFound(u.templateId.value))
    ensures r.Ok? ==> r.value.content == u.content
    ensures r.Ok? && Truthy(u.content) ==> r.value.template.None?
    ensures r.Ok? && Truthy(u.content) && Truthy(u.templateId) ==> r.value.config.templateId.None?
    ensures r.Ok? && !Truthy(u.content) ==> r.value.template == u.templateId
    ensures r.Ok? ==> r.value.flags == FlagsOf(r.value.config.closeMethods)
    ensures r.Ok? ==> r.value.config == Merge(if Truthy(u.content) && Truthy(u.templateId) then u.(templateId := None) else u)
    ensures r.Ok? ==> Buildable(r.value) && r.value.subtree.None? && r.value.buttons == []
    ensures r.Ok? ==> r.value.footerContent.None? && r.value.pendingShows == 0 && r.value.scrollbarWidth == 0
  {
    if !Truthy(u.content) && !Truthy(u.templateId) then
      Err(MissingContent)
    else
      var u' := if Truthy(u.content) && Truthy(u.templateId) then u.(templateId := None) else u;
      if Truthy(u'.templateId) && u'.templateId.value !in templates then
        Err(TemplateNotFound(u'.templateId.value))
      else
        var config := Merge(u');
        Ok(Instance(
          config,
          FlagsOf(config.closeMethods),
          if Truthy(u'.templateId) then u'.templateId else None,
          config.content,
          None,
          [],
          None,
          0,
          0))
  }

  /** `_build` can run: the content is truthy, or a template was resolved. */
  predicate Buildable(inst: Instance) {
    Truthy(inst.content) || inst.template.Some?
  }

  predicate Built(inst: Instance) {
    inst.subtree.Some?
  }

  /** `_build`: a fresh subtree from the current content, options, footer
      content and buttons; hidden, no handlers yet. */
  function Build(inst: Instance): (s: Subtree)
    requires Buildable(inst)
    ensures Truthy(inst.content) ==> s.body == ContentMarkup(inst.content.value)
    ensures !Truthy(inst.content) ==> s.body == TemplateClone(inst.template.value)
    ensures s.closeButton <==> inst.flags.button
    ensures s.footer.Some? <==> inst.config.footer
    ensures s.footer.Some? && Truthy(inst.footerContent) ==>
              s.footer.value == [Markup(inst.footerContent.value)] + ButtonRun(|inst.buttons|)
    ensures s.footer.Some? && !Truthy(inst.footerContent) ==> s.footer.value == ButtonRun(|inst.buttons|)
    ensures s.containerClasses == ContainerClasses(inst.config.cssClass)
    ensures !s.shown && !s.clickHandler && s.onTransitionEnd == NoHandler
  {
    var body := if Truthy(inst.content) then ContentMarkup(inst.content.value)
                else TemplateClone(inst.template.value);
    var footer := if inst.config.footer then
                    RenderButtonsShaped(RenderContent([], inst.footerContent), 0, |inst.buttons|);
                    Some(RenderButtons(RenderContent([], inst.footerContent), |inst.buttons|))
                  else None;
    Subtree(ContainerClasses(inst.config.cssClass), inst.flags.button, body, footer, false, false, NoHandler)
  }

  /** `setContent(html)`: stored for the next build, and written into the
      content region when one exists. */
  function SetContent(inst: Instance, html: string): (r: Instance)
    ensures r.content == Some(html)
    ensures Built(r) == Built(inst)
    ensures Built(inst) ==> r.subtree.value == inst.subtree.value.(body := ContentMarkup(html))
    ensures Buildable(r) <==> html != "" || inst.template.Some?
    ensures Buildable(r) ==> Build(r).body == if html != "" then ContentMarkup(html) else TemplateClone(inst.template.value)
    ensures r.(content := inst.content, subtree := inst.subtree) == inst
  {
    var sub := if inst.subtree.Some? then Some(inst.subtree.value.(body := ContentMarkup(html))) else None;
    inst.(content := Some(html), subtree := sub)
  }

  /** `setFooterContent(html)`: stored; when the footer region exists and the
      markup is non-empty it REPLACES every child, rendered buttons included. */
  function SetFooterContent(inst: Instance, html: string): (r: Instance)
    ensures r.footerContent == Some(html)
    ensures Built(r) == Built(inst)
    ensures Built(inst) && inst.subtree.value.footer.Some? && html != "" ==>
              r.subtree.value.footer == Some([Markup(html)])
    ensures Built(inst) && html == "" ==> r.subtree == inst.subtree
    ensures Built(inst) ==> r.subtree.value.footer.Some? == inst.subtree.value.footer.Some?
    ensures !(Built(inst) && inst.subtree.value.footer.Some?) ==> r.subtree == inst.subtree
    ensures Built(inst) ==> r.subtree.value.(footer := inst.subtree.value.footer) == inst.subtree.value
    ensures r.(footerContent := inst.footerContent, subtree := inst.subtree) == inst
  {
    var sub := if inst.subtree.Some? && inst.subtree.value.footer.Some? then
                 var s := inst.subtree.value;
                 Some(s.(footer := Some(RenderContent(s.footer.value, Some(html)))))
               else inst.subtree;
    inst.(footerContent := Some(html), subtree := sub)
  }

  /** `addFooterButton(title, cssClass, callback)`: appended to the list in
      call order, never deduplicated, and the whole list re-appended to the
      footer region when one exists. */
  function AddFooterButton(inst: Instance, b: ButtonDesc): (r: Instance)
    ensures r.buttons == inst.buttons + [b]
    ensures |r.buttons| == |inst.buttons| + 1
    ensures Built(r) == Built(inst)
    ensures Built(inst) ==> r.subtree.value.footer.Some? == inst.subtree.value.footer.Some?
    ensures Built(inst) && inst.subtree.value.footer.Some? ==>
              var before := inst.subtree.value.footer.value;
              var after := r.subtree.value.footer.value;
              after == Without(before, ButtonRun(|r.buttons|)) + ButtonRun(|r.buttons|)
    ensures !(Built(inst) && inst.subtree.value.footer.Some?) ==> r.subtree == inst.subtree
    ensures Built(inst) ==> r.subtree.value.(footer := inst.subtree.value.footer) == inst.subtree.value
    ensures r.(buttons := inst.buttons, subtree := inst.subtree) == inst
  {
    var buttons := inst.buttons + [b];
    var sub := if inst.subtree.Some? && inst.subtree.value.footer.Some? then
                 var s := inst.subtree.value;
                 Some(s.(footer := Some(RenderButtons(s.footer.value, |buttons|))))
               else inst.subtree;
    inst.(buttons := buttons, subtree := sub)
  }

  /** What every reachable instance satisfies: the flags are the membership
      tests, and a built subtree has a close button iff button-close is
      allowed, a footer iff `footer` is set, and a footer of a known shape. */
  predicate InstanceWF(inst: Instance) {
    && inst.flags == FlagsOf(inst.config.closeMethods)
    && (inst.subtree.Some? ==>
          var s := inst.subtree.value;
          && s.closeButton == inst.flags.button
          && s.footer.Some? == inst.config.footer
          && (s.footer.Some? ==> Shaped(s.footer.value, |inst.buttons|)))
  }

  lemma ConstructWF(u: UserOptions, templates: set<string>)
    requires Usable(u, templates)
    ensures InstanceWF(Construct(u, templates).value)
  {
  }

  lemma BuildWF(inst: Instance)
    requires InstanceWF(inst) && Buildable(inst)
    ensures InstanceWF(inst.(subtree := Some(Build(inst))))
  {
  }

  lemma SetContentWF(inst: Instance, html: string)
    requires InstanceWF(inst)
    ensures InstanceWF(SetContent(inst, html))
  {
  }

  lemma SetFooterContentWF(inst: Instance, html: string)
    requires InstanceWF(inst)
    ensures InstanceWF(SetFooterContent(inst, html))
  {
  }

  /** A button added to a built footer of known shape shows up at the end,
      after any markup and after every earlier button, in call order. */
  lemma {:induction false} AddFooterButtonWF(inst: Instance, b: ButtonDesc)
    requires InstanceWF(inst)
    ensures InstanceWF(AddFooterButton(inst, b))
    ensures Built(inst) && inst.subtree.value.footer.Some? ==>
              var f := AddFooterButton(inst, b).subtree.value.footer.value;
              |f| >= |inst.buttons| + 1 && f[|f| - 1] == Button(|inst.buttons|)
              && f[|f| - |inst.buttons| - 1..] == ButtonRun(|inst.buttons| + 1)
  {
    if Built(inst) && inst.subtree.value.footer.Some? {
      var c := inst.subtree.value.footer.value;
      RenderButtonsShaped(c, |inst.buttons|, |inst.buttons| + 1);
    }
  }
}
