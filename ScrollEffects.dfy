/** The two scroll-offset thresholds: the navbar's background and the
    visibility of the scroll-to-top button. Offsets are whole pixels. */
module ScrollEffects {

  /** `window.pageYOffset || document.documentElement.scrollTop`: the second
      is read only when the first is 0. */
  function ScrollTop(pageYOffset: int, documentScrollTop: int): int {
    if pageYOffset != 0 then pageYOffset else documentScrollTop
  }

  /** The navbar's inline `background` and `backdropFilter`. */
  datatype NavbarStyle = NavbarStyle(background: string, backdropFilter: string)

  const DarkNavbar := NavbarStyle("rgba(26, 26, 26, 0.98)", "blur(15px)")
  const LightNavbar := NavbarStyle("rgba(26, 26, 26, 0.95)", "blur(10px)")

  /** The navbar is dark exactly when the page is scrolled past 100. */
  function NavbarStyleAt(scrollTop: int): (r: NavbarStyle)
    ensures r == DarkNavbar <==> scrollTop > 100
    ensures r == LightNavbar <==> scrollTop <= 100
  {
    if scrollTop > 100 then DarkNavbar else LightNavbar
  }

  /** The navbar's scroll handler, from both readings of the offset. The
      document's scrollTop decides only when pageYOffset reads 0. */
  function NavbarStyleOnScroll(pageYOffset: int, documentScrollTop: int): (r: NavbarStyle)
    ensures r == DarkNavbar <==> pageYOffset > 100 || (pageYOffset == 0 && documentScrollTop > 100)
    ensures r == LightNavbar <==> !(pageYOffset > 100 || (pageYOffset == 0 && documentScrollTop > 100))
  {
    NavbarStyleAt(ScrollTop(pageYOffset, documentScrollTop))
  }

  /** A non-zero pageYOffset alone fixes the navbar's style: the document's
      scrollTop is then never consulted. */
  lemma PageOffsetDecidesNavbar(pageYOffset: int, d1: int, d2: int)
    requires pageYOffset != 0
    ensures NavbarStyleOnScroll(pageYOffset, d1) == NavbarStyleOnScroll(pageYOffset, d2)
    ensures NavbarStyleOnScroll(pageYOffset, d1) == NavbarStyleAt(pageYOffset)
  {}

  /** The scroll-to-top button's inline `opacity` and `transform`. */
  datatype ButtonStyle = ButtonStyle(opacity: string, transform: string)

  const ShownButton := ButtonStyle("1", "translateY(0)")
  const HiddenButton := ButtonStyle("0", "translateY(100px)")

  /** The button is shown exactly when the page is scrolled past 300. */
  function ScrollButtonStyleAt(pageYOffset: int): (r: ButtonStyle)
    ensures r == ShownButton <==> pageYOffset > 300
    ensures r == HiddenButton <==> pageYOffset <= 300
  {
    if pageYOffset > 300 then ShownButton else HiddenButton
  }

  /** Both sides of both boundaries. */
  lemma ThresholdBoundaries()
    ensures NavbarStyleAt(99) == LightNavbar && NavbarStyleAt(100) == LightNavbar
    ensures NavbarStyleAt(101) == DarkNavbar
    ensures ScrollButtonStyleAt(300) == HiddenButton && ScrollButtonStyleAt(301) == ShownButton
  {}
}
