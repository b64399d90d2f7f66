/**
 The smooth-scroll target shared by the navigation bar and the search
 overlay: the element's document offset minus the height of the fixed header.
 The browser's `document.querySelector(...).getBoundingClientRect().top` is
 given as a lookup from a selector to the element's viewport top, `None` when
 no element matches; `window.pageYOffset` is a parameter.
 */
module Scroll {
  import opened Wrappers

  /** Height of the fixed navigation bar, in pixels. */
  const HeaderOffset: int := 80

  /**
   The `top` passed to `window.scrollTo`. Once the page is scrolled there, the
   element's document offset `top + pageYOffset` sits `HeaderOffset` pixels
   below the top of the viewport, just under the fixed header.
   */
  function ScrollTarget(top: int, pageYOffset: int): (y: int)
    ensures (top + pageYOffset) - y == HeaderOffset
  {
    top + pageYOffset - 80
  }

  /**
   Where the page scrolls for `selector`: nowhere when no element matches,
   otherwise to the element's header-adjusted offset.
   */
  function ScrollToSelector(selector: string, lookup: string -> Option<int>, pageYOffset: int): (r: Option<int>)
    ensures r.Some? <==> lookup(selector).Some?
    ensures r.Some? ==> lookup(selector).value + pageYOffset - r.value == HeaderOffset
  {
    match lookup(selector)
    case None => None
    case Some(top) => Some(ScrollTarget(top, pageYOffset))
  }
}
