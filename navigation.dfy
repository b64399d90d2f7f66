/**
 The navigation bar: six fixed in-page links, a mobile-menu flag and the
 search button that flips the shared search-open flag.
 */
module Navigation {
  import opened Wrappers
  import opened Scroll
  import opened UseSearchHook

  /** A link: its fragment selector and the text shown (the source's `label`). */
  datatype NavItem = NavItem(href: string, caption: string)

  /** The six links, in display order. */
  const NavItems: seq<NavItem> := [
    NavItem("#home", "Home"),
    NavItem("#about", "About"),
    NavItem("#experience", "Experience"),
    NavItem("#skills", "Skills"),
    NavItem("#projects", "Projects"),
    NavItem("#contact", "Contact")
  ]

  /** Six links, each a fragment selector, no two to the same place. */
  lemma NavItemsShape()
    ensures |NavItems| == 6
    ensures forall i :: 0 <= i < |NavItems| ==> |NavItems[i].href| > 1 && NavItems[i].href[0] == '#'
    ensures forall i, j :: 0 <= i < j < |NavItems| ==> NavItems[i].href != NavItems[j].href
  {
  }

  /** The `Navigation` component's state. */
  class Nav {
    const search: SearchContext
    var isMenuOpen: bool

    /** The mobile menu starts closed. */
    constructor (search: SearchContext)
      ensures this.search == search && !isMenuOpen
    {
      this.search := search;
      isMenuOpen := false;
    }

    /** The menu button negates the flag. */
    method ToggleMenu()
      modifies this
      ensures isMenuOpen == !old(isMenuOpen)
    {
      isMenuOpen := !isMenuOpen;
    }

    /**
     `handleNavClick(href)`: closes the menu whatever happens next, then
     scrolls to the element `href` selects when there is one.
     */
    method HandleNavClick(href: string, lookup: string -> Option<int>, pageYOffset: int)
      returns (scrollTo: Option<int>)
      modifies this
      ensures !isMenuOpen
      ensures scrollTo.Some? <==> lookup(href).Some?
      ensures scrollTo.Some? ==> scrollTo.value == lookup(href).value + pageYOffset - HeaderOffset
    {
      isMenuOpen := false;
      scrollTo := None;
      var top := lookup(href);
      if top.Some? {
        scrollTo := Some(ScrollTarget(top.value, pageYOffset));
      }
    }

    /** The search button: `toggleSearch` on the shared context. */
    method SearchButton()
      modifies search
      ensures search.isSearchOpen == !old(search.isSearchOpen)
    {
      search.ToggleSearch();
    }
  }
}
