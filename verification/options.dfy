/** The options object a caller passes to the constructor, and the merged
    configuration the instance keeps (src/focusly.js lines 25-39). */
module Options {
  import opened Base

  /** One entry of the caller's `cssClass` array: only strings become classes. */
  datatype ClassEntry = ClassName(name: string) | NotAString

  /** The caller's options as given; `None` means the key is absent.
      Callbacks are foreign code, so only their presence is kept. */
  datatype UserOptions = UserOptions(
    content: Option<string>,
    templateId: Option<string>,
    destroyOnClose: Option<bool>,
    footer: Option<bool>,
    cssClass: Option<seq<ClassEntry>>,
    closeMethods: Option<seq<string>>,
    hasOnOpen: bool,
    hasOnClose: bool)

  /** The merged configuration `this.opt`. */
  datatype Config = Config(
    content: Option<string>,
    templateId: Option<string>,
    destroyOnClose: bool,
    footer: bool,
    cssClass: seq<ClassEntry>,
    closeMethods: seq<string>,
    hasOnOpen: bool,
    hasOnClose: bool)

  /** The three close permissions derived from `closeMethods`. */
  datatype CloseFlags = CloseFlags(button: bool, overlay: bool, escape: bool)

  const DefaultCloseMethods: seq<string> := ["button", "overlay", "escape"]

  /** A caller value wins over the default; an absent key keeps the default. */
  function Or<T>(given: Option<T>, default: T): T {
    if given.Some? then given.value else default
  }

  /** `Object.assign(defaults, options)`: defaults `destroyOnClose = true`,
      `footer = false`, `cssClass = []` and all three close methods, each
      overridden by the caller's value when the key is present. */
  function Merge(u: UserOptions): (c: Config)
    ensures u.destroyOnClose.None? ==> c.destroyOnClose
    ensures u.destroyOnClose.Some? ==> c.destroyOnClose == u.destroyOnClose.value
    ensures u.footer.None? ==> !c.footer
    ensures u.footer.Some? ==> c.footer == u.footer.value
    ensures u.cssClass.None? ==> c.cssClass == []
    ensures u.cssClass.Some? ==> c.cssClass == u.cssClass.value
    ensures u.closeMethods.None? ==> "button" in c.closeMethods && "overlay" in c.closeMethods && "escape" in c.closeMethods
    ensures u.closeMethods.Some? ==> c.closeMethods == u.closeMethods.value
    ensures c.content == u.content && c.templateId == u.templateId
    ensures c.hasOnOpen == u.hasOnOpen && c.hasOnClose == u.hasOnClose
  {
    Config(
      u.content,
      u.templateId,
      Or(u.destroyOnClose, true),
      Or(u.footer, false),
      Or(u.cssClass, []),
      Or(u.closeMethods, DefaultCloseMethods),
      u.hasOnOpen,
      u.hasOnClose)
  }

  /** `closeMethods.includes(...)` for each of the three methods. */
  function FlagsOf(methods: seq<string>): (f: CloseFlags)
    ensures f.button <==> "button" in methods
    ensures f.overlay <==> "overlay" in methods
    ensures f.escape <==> "escape" in methods
  {
    CloseFlags("button" in methods, "overlay" in methods, "escape" in methods)
  }

  /** The class names the container receives: its own marker plus every
      string entry of `cssClass`, non-strings skipped. */
  function ContainerClasses(cssClass: seq<ClassEntry>): (classes: set<string>)
    ensures "focusly__container" in classes
    ensures forall i :: 0 <= i < |cssClass| && cssClass[i].ClassName? ==> cssClass[i].name in classes
    ensures forall s :: s in classes ==> s == "focusly__container" || ClassName(s) in cssClass
  {
    {"focusly__container"} + set i | 0 <= i < |cssClass| && cssClass[i].ClassName? :: cssClass[i].name
  }
}
