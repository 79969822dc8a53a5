/** The mobile menu of `initNavigation` (script.js:11-38) and the window's
    `resize` listener (script.js:207-217): the `active` class of `.nav-links`
    and the class name of the menu toggle's icon. */
module Navigation {

  /** The icon's class name while the menu is closed. */
  const Bars: string := "fas fa-bars"
  /** The icon's class name while the menu is open. */
  const Times: string := "fas fa-times"
  /** The widest viewport, in CSS pixels, that keeps the menu open on resize. */
  const Breakpoint: int := 768

  /** The icon that goes with a menu state (script.js:21-25): the cross
      exactly when the menu is open, the bars exactly when it is closed. */
  function IconFor(active: bool): (icon: string)
    ensures icon == Times <==> active
    ensures icon == Bars <==> !active
  {
    assert Bars[7] != Times[7];
    if active then Times else Bars
  }

  /** The two icons differ, so the icon tells the menu state. */
  lemma IconDeterminesState(a: bool, b: bool)
    ensures IconFor(a) == IconFor(b) <==> a == b
  {
    assert Bars[7] != Times[7];
  }

  /** The menu: whether `.nav-links` has the `active` class, the toggle's
      icon class name, and whether the page has a `.menu-toggle` at all (each
      handler checks for it). */
  class Nav {
    var active: bool
    var icon: string
    const hasToggle: bool

    /** Where the toggle exists, its icon shows the menu state. */
    ghost predicate Valid()
      reads this
    {
      hasToggle ==> icon == IconFor(active)
    }

    /** The page as loaded: the menu closed, the icon the bars. */
    constructor (hasToggle: bool)
      ensures Valid() && this.hasToggle == hasToggle
      ensures !active && icon == Bars
    {
      this.hasToggle := hasToggle;
      active, icon := false, Bars;
    }

    /** A click on the toggle (registered only when it exists): flips the
        menu, then sets the icon from the new state. */
    method Toggle()
      requires Valid() && hasToggle
      modifies this
      ensures Valid()
      ensures active == !old(active)
      ensures icon == Times <==> active
    {
      active := !active;
      if active {
        icon := Times;
      } else {
        icon := Bars;
      }
      IconDeterminesState(active, true);
    }

    /** A click on a link in the menu: closes it, and resets the icon when
        the toggle exists. */
    method LinkClick()
      requires Valid()
      modifies this
      ensures Valid()
      ensures !active
      ensures icon == if hasToggle then Bars else old(icon)
    {
      active := false;
      if hasToggle {
        icon := Bars;
      }
    }

    /** The window is resized to `width`: wider than the breakpoint closes
        the menu (when the toggle exists); otherwise nothing changes. */
    method Resize(width: int)
      requires Valid()
      modifies this
      ensures Valid()
      ensures width > Breakpoint && hasToggle ==> !active && icon == Bars
      ensures !(width > Breakpoint && hasToggle) ==> active == old(active) && icon == old(icon)
    {
      if width > Breakpoint && hasToggle {
        active := false;
        icon := Bars;
      }
    }
  }

  /** Open the menu, close it by a link, open it again: a resize to the
      breakpoint keeps it open, one pixel wider closes it. */
  method NavScenario() returns (isOpen: bool, openIcon: string, closed: bool, closedIcon: string,
                                afterNarrow: bool, afterWide: bool)
    ensures isOpen && openIcon == Times
    ensures !closed && closedIcon == Bars
    ensures afterNarrow && !afterWide
  {
    var n := new Nav(true);
    n.Toggle();
    isOpen, openIcon := n.active, n.icon;
    n.LinkClick();
    closed, closedIcon := n.active, n.icon;
    n.Toggle();
    n.Resize(768);
    afterNarrow := n.active;
    n.Resize(769);
    afterWide := n.active;
  }
}
