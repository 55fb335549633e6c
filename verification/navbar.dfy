/**
 * The site navigation bar of `src/components/Navbar.tsx`: the mobile menu toggle and the
 * bar that hides while the page scrolls down and shows again when it scrolls up or nears
 * the top.
 */
module Navbar {

  datatype Navbar = Navbar(isOpen: bool, isVisible: bool, lastScrollY: int)

  const Initial := Navbar(false, true, 0)

  /** Within this many pixels of the top the bar is always shown. */
  const TopZone := 100

  /** `toggleMenu`. */
  function ToggleMenu(n: Navbar): (n': Navbar)
    ensures n'.isOpen == !n.isOpen
    ensures n'.isVisible == n.isVisible && n'.lastScrollY == n.lastScrollY
  {
    n.(isOpen := !n.isOpen)
  }

  lemma ToggleMenuTwice(n: Navbar)
    ensures ToggleMenu(ToggleMenu(n)) == n
  {
  }

  /** `controlNavbar` for a scroll event at position `y`. */
  function OnScroll(n: Navbar, y: int): (n': Navbar)
    ensures y < TopZone ==> n'.isVisible
    ensures y >= TopZone ==> (n'.isVisible <==> y <= n.lastScrollY)
    ensures n'.lastScrollY == y
    ensures n'.isOpen == n.isOpen
  {
    if y < TopZone then n.(isVisible := true, lastScrollY := y)
    else if y > n.lastScrollY then n.(isVisible := false, lastScrollY := y)
    else n.(isVisible := true, lastScrollY := y)
  }

  /** The result of a run of scroll events, each handled in turn. */
  function ScrollAll(n: Navbar, ys: seq<int>): Navbar
    decreases |ys|
  {
    if ys == [] then n else ScrollAll(OnScroll(n, ys[0]), ys[1..])
  }

  /**
   * Only the last two positions matter: after a run of scroll events, the bar is hidden
   * exactly when the last position is past the top zone and below the one before it.
   */
  lemma {:induction false} ScrollAllLast(n: Navbar, ys: seq<int>)
    requires |ys| >= 2
    ensures var n' := ScrollAll(n, ys);
      var y, prev := ys[|ys| - 1], ys[|ys| - 2];
      && n'.lastScrollY == y
      && (n'.isVisible <==> y < TopZone || y <= prev)
      && n'.isOpen == n.isOpen
    decreases |ys|
  {
    var m := OnScroll(n, ys[0]);
    if |ys| == 2 {
      assert ys[1..][1..] == [];
      assert ScrollAll(n, ys) == ScrollAll(OnScroll(m, ys[1]), []);
    } else {
      ScrollAllLast(m, ys[1..]);
      assert ys[1..][|ys| - 2] == ys[|ys| - 1] && ys[1..][|ys| - 3] == ys[|ys| - 2];
    }
  }

  /** Scrolling back to the same position always shows the bar. */
  lemma SameSpotShows(n: Navbar, y: int)
    ensures OnScroll(OnScroll(n, y), y).isVisible
  {
  }
}
