/**
 * The mobile menu: the toggle button and the navigation panel each carry an
 * `active` class, and the page body's `overflow` style locks scrolling while
 * the panel is open.
 */
module Menu {

  const OVERFLOW_HIDDEN := "hidden"
  /** The empty inline value, which restores the stylesheet's own overflow. */
  const OVERFLOW_RESTORED := ""

  /** The body overflow the toggle handler writes for a panel that is (or is not) open. */
  function OverflowFor(navOpen: bool): (r: string)
    ensures r == OVERFLOW_HIDDEN <==> navOpen
    ensures r == OVERFLOW_RESTORED <==> !navOpen
  {
    if navOpen then OVERFLOW_HIDDEN else OVERFLOW_RESTORED
  }

  class MobileMenu {
    var toggleActive: bool
    var navActive: bool
    var bodyOverflow: string

    /** Scrolling is locked exactly while the panel is open, and the toggle shows the panel's state. */
    ghost predicate Consistent()
      reads this
    {
      bodyOverflow == OverflowFor(navActive) && toggleActive == navActive
    }

    /** The page as loaded: menu closed, no inline overflow. */
    constructor ()
      ensures !toggleActive && !navActive && bodyOverflow == OVERFLOW_RESTORED
      ensures Consistent()
    {
      toggleActive := false;
      navActive := false;
      bodyOverflow := OVERFLOW_RESTORED;
    }

    /** Click on the toggle: both flags flip, then the overflow follows the panel. */
    method ToggleClick()
      modifies this
      ensures toggleActive == !old(toggleActive)
      ensures navActive == !old(navActive)
      ensures bodyOverflow == OverflowFor(navActive)
      ensures old(Consistent()) ==> Consistent()
    {
      toggleActive := !toggleActive;
      navActive := !navActive;
      bodyOverflow := if navActive then OVERFLOW_HIDDEN else OVERFLOW_RESTORED;
    }

    /** Click on any nav link: the menu closes and scrolling is restored. */
    method NavLinkClick()
      modifies this
      ensures !toggleActive && !navActive
      ensures bodyOverflow == OVERFLOW_RESTORED
      ensures Consistent()
    {
      toggleActive := false;
      navActive := false;
      bodyOverflow := OVERFLOW_RESTORED;
    }
  }
}
