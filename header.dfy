/** The header's shadow, chosen on every scroll from the vertical scroll offset. */
module HeaderScroll {

  /** Scroll offsets above this many pixels get the stronger shadow. */
  const THRESHOLD := 100
  const SCROLLED_SHADOW := "0 4px 20px rgba(0,0,0,0.1)"
  const RESTING_SHADOW := "0 1px 2px rgba(0,0,0,0.05)"

  /** The `box-shadow` the scroll handler writes for a given `pageYOffset`. */
  function ShadowFor(pageYOffset: int): (r: string)
    ensures r == SCROLLED_SHADOW <==> pageYOffset > THRESHOLD
    ensures r == RESTING_SHADOW <==> pageYOffset <= THRESHOLD
  {
    if pageYOffset > THRESHOLD then SCROLLED_SHADOW else RESTING_SHADOW
  }

  /** Scrolling further down never takes the stronger shadow away. */
  lemma ShadowMonotone(a: int, b: int)
    requires a <= b && ShadowFor(a) == SCROLLED_SHADOW
    ensures ShadowFor(b) == SCROLLED_SHADOW
  {
  }

  class Header {
    var boxShadow: string
    /** The offset seen by the previous scroll event (written, never read). */
    var lastScroll: int

    constructor ()
      ensures lastScroll == 0
    {
      boxShadow := "";
      lastScroll := 0;
    }

    /** The scroll handler. */
    method OnScroll(pageYOffset: int)
      modifies this
      ensures boxShadow == ShadowFor(pageYOffset)
      ensures lastScroll == pageYOffset
    {
      var currentScroll := pageYOffset;
      if currentScroll > THRESHOLD {
        boxShadow := SCROLLED_SHADOW;
      } else {
        boxShadow := RESTING_SHADOW;
      }
      lastScroll := currentScroll;
    }
  }
}
