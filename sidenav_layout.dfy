/**
 * The side navigation layout: four content slots filled by header and footer
 * components as they register, and hover handlers that expand or collapse an
 * unpinned sidebar.
 */
module SideNavLayout {
  import opened Wrappers
  import SidebarContext

  /** The width class of the `aside`: narrow when collapsed on screen. */
  function WidthClass(effectiveCollapsed: bool): (c: string)
    ensures c == "w-16" <==> effectiveCollapsed
    ensures c == "w-64" <==> !effectiveCollapsed
  {
    if effectiveCollapsed then "w-16" else "w-64"
  }

  /** A layout over rendered nodes of type `Node`; an empty slot is `None`. */
  class Layout<Node> {
    const sidebar: SidebarContext.Sidebar
    var scrollHeader: Option<Node>
    var scrollFooter: Option<Node>
    var stickyHeader: Option<Node>
    var stickyFooter: Option<Node>

    constructor (sidebar: SidebarContext.Sidebar)
      ensures this.sidebar == sidebar
      ensures scrollHeader == None && scrollFooter == None && stickyHeader == None && stickyFooter == None
    {
      this.sidebar := sidebar;
      scrollHeader := None;
      scrollFooter := None;
      stickyHeader := None;
      stickyFooter := None;
    }

    function Width(): string
      reads this, sidebar
    {
      WidthClass(sidebar.EffectiveCollapsed())
    }

    /** `registerHeader(node, sticky)`: exactly one header slot is written. */
    method RegisterHeader(node: Option<Node>, sticky: bool)
      modifies this
      ensures sticky ==> stickyHeader == node && scrollHeader == old(scrollHeader)
      ensures !sticky ==> scrollHeader == node && stickyHeader == old(stickyHeader)
      ensures scrollFooter == old(scrollFooter) && stickyFooter == old(stickyFooter)
    {
      if sticky {
        stickyHeader := node;
      } else {
        scrollHeader := node;
      }
    }

    /** `registerFooter(node, sticky)`: exactly one footer slot is written. */
    method RegisterFooter(node: Option<Node>, sticky: bool)
      modifies this
      ensures sticky ==> stickyFooter == node && scrollFooter == old(scrollFooter)
      ensures !sticky ==> scrollFooter == node && stickyFooter == old(stickyFooter)
      ensures scrollHeader == old(scrollHeader) && stickyHeader == old(stickyHeader)
    {
      if sticky {
        stickyFooter := node;
      } else {
        scrollFooter := node;
      }
    }

    /** Hovering expands an unpinned sidebar; a pinned one is left alone. */
    method HandleMouseEnter()
      modifies sidebar
      ensures sidebar.isPinned == old(sidebar.isPinned)
      ensures sidebar.isCollapsed == if old(sidebar.isPinned) then old(sidebar.isCollapsed) else false
      ensures !sidebar.EffectiveCollapsed() && Width() == "w-64"
    {
      if !sidebar.isPinned {
        sidebar.SetIsCollapsed(false);
      }
    }

    /** Leaving collapses an unpinned sidebar; a pinned one is left alone. */
    method HandleMouseLeave()
      modifies sidebar
      ensures sidebar.isPinned == old(sidebar.isPinned)
      ensures sidebar.isCollapsed == if old(sidebar.isPinned) then old(sidebar.isCollapsed) else true
      ensures sidebar.EffectiveCollapsed() == !sidebar.isPinned
      ensures Width() == if sidebar.isPinned then "w-64" else "w-16"
    {
      if !sidebar.isPinned {
        sidebar.SetIsCollapsed(true);
      }
    }
  }
}
