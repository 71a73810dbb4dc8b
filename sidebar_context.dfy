/**
 * The shared sidebar state: whether the sidebar is pinned open and whether it
 * is collapsed, and the collapse state actually shown, which ignores
 * `isCollapsed` while the sidebar is pinned.
 */
module SidebarContext {
  import opened Wrappers

  class Sidebar {
    var isCollapsed: bool
    var isPinned: bool

    /** The provider's initial state: expanded and pinned. */
    constructor ()
      ensures !isCollapsed && isPinned
      ensures !EffectiveCollapsed()
    {
      isCollapsed := false;
      isPinned := true;
    }

    /** `effectiveCollapsed`: collapsed on screen only when unpinned and collapsed. */
    function EffectiveCollapsed(): (b: bool)
      reads this
      ensures b <==> !isPinned && isCollapsed
      ensures isPinned ==> !b
    {
      if isPinned then false else isCollapsed
    }

    method SetIsCollapsed(value: bool)
      modifies this
      ensures isCollapsed == value && isPinned == old(isPinned)
    {
      isCollapsed := value;
    }

    method SetIsPinned(value: bool)
      modifies this
      ensures isPinned == value && isCollapsed == old(isCollapsed)
    {
      isPinned := value;
    }

    /** `togglePin`: flips the pin; pinning also expands, unpinning keeps the collapse state. */
    method TogglePin()
      modifies this
      ensures isPinned == !old(isPinned)
      ensures isCollapsed == if old(isPinned) then old(isCollapsed) else false
      ensures !old(isPinned) ==> !EffectiveCollapsed()
    {
      if !isPinned {
        isCollapsed := false;
      }
      isPinned := !isPinned;
    }
  }

  /** The outcome of `useSidebar`: the context, or the error it throws outside a provider. */
  datatype Lookup = Found(sidebar: Sidebar) | Thrown(message: string)

  /** `useSidebar`, given the nearest provider's state if there is one. */
  function UseSidebar(ctx: Option<Sidebar>): (r: Lookup)
    ensures ctx.Some? <==> r.Found?
    ensures ctx.Some? ==> r.sidebar == ctx.value
    ensures ctx.None? ==> r.message == "useSidebar must be used inside SidebarProvider"
  {
    match ctx
    case Some(s) => Found(s)
    case None => Thrown("useSidebar must be used inside SidebarProvider")
  }

  /** `useSidebarCollapsed`: the shown collapse state, or not collapsed outside a provider. */
  function UseSidebarCollapsed(ctx: Option<Sidebar>): (b: bool)
    reads if ctx.Some? then {ctx.value} else {}
    ensures ctx.None? ==> !b
    ensures ctx.Some? ==> (b <==> !ctx.value.isPinned && ctx.value.isCollapsed)
  {
    match ctx
    case Some(s) => s.EffectiveCollapsed()
    case None => false
  }

  /** The `isPinned` of `useSidebarPin`: unpinned outside a provider. */
  function UseSidebarPinned(ctx: Option<Sidebar>): (b: bool)
    reads if ctx.Some? then {ctx.value} else {}
    ensures ctx.None? ==> !b
    ensures ctx.Some? ==> b == ctx.value.isPinned
  {
    match ctx
    case Some(s) => s.isPinned
    case None => false
  }

  /** The `togglePin` of `useSidebarPin`: the provider's toggle, or a no-op outside one. */
  method UseSidebarTogglePin(ctx: Option<Sidebar>)
    modifies if ctx.Some? then {ctx.value} else {}
    ensures ctx.Some? ==> ctx.value.isPinned == !old(ctx.value.isPinned)
    ensures ctx.Some? ==> ctx.value.isCollapsed == if old(ctx.value.isPinned) then old(ctx.value.isCollapsed) else false
  {
    if ctx.Some? {
      ctx.value.TogglePin();
    }
  }
}
