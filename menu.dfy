/**
 * The mobile menu (script.js:23-37): a button and the list of navigation links,
 * each with an `active` class. Clicking the button toggles both classes; clicking
 * any navigation link removes both.
 */
module MobileMenu {

  /** Whether the button and the link list carry the `active` class. */
  datatype MenuState = MenuState(button: bool, links: bool)

  /** The page as it loads: neither element is active. */
  const Closed := MenuState(false, false)

  /** The button's click listener: `classList.toggle("active")` on both elements. */
  function Toggled(m: MenuState): MenuState {
    MenuState(!m.button, !m.links)
  }

  /** A navigation link's click listener: `classList.remove("active")` on both elements. */
  function Dismissed(m: MenuState): MenuState {
    MenuState(false, false)
  }

  /** The button shows the menu as open exactly when the link list is open. */
  predicate Synced(m: MenuState) {
    m.button == m.links
  }

  /** The menu is open. */
  predicate IsOpen(m: MenuState) {
    m.button && m.links
  }

  /** Toggling keeps the two elements in step, and out of step if they were. */
  lemma ToggledKeepsSync(m: MenuState)
    ensures Synced(Toggled(m)) <==> Synced(m)
  {
  }

  /** From a synced state a toggle opens a closed menu and closes an open one. */
  lemma ToggledFlipsOpen(m: MenuState)
    requires Synced(m)
    ensures IsOpen(Toggled(m)) <==> !IsOpen(m)
    ensures Toggled(m) == Closed <==> IsOpen(m)
  {
  }

  /** Two toggles cancel out. */
  lemma ToggledTwice(m: MenuState)
    ensures Toggled(Toggled(m)) == m
  {
  }

  /** A link click always leaves the menu closed and synced, whatever it was. */
  lemma DismissedCloses(m: MenuState)
    ensures Dismissed(m) == Closed && Synced(Dismissed(m)) && !IsOpen(Dismissed(m))
    ensures Dismissed(Dismissed(m)) == Dismissed(m)
  {
  }

  class Menu {
    /** `mobileMenuBtn.classList.contains("active")`. */
    var button: bool
    /** `navLinks.classList.contains("active")`. */
    var links: bool

    function State(): MenuState
      reads this
    {
      MenuState(button, links)
    }

    ghost predicate Valid()
      reads this
    {
      Synced(State())
    }

    constructor ()
      ensures Valid() && State() == Closed
    {
      button, links := false, false;
    }

    /** A click on the menu button. */
    method ToggleClick()
      requires Valid()
      modifies this
      ensures Valid() && State() == Toggled(old(State()))
    {
      button := !button;
      links := !links;
      ToggledKeepsSync(old(State()));
    }

    /** A click on any navigation link. */
    method LinkClick()
      requires Valid()
      modifies this
      ensures Valid() && State() == Dismissed(old(State()))
      ensures !IsOpen(State())
    {
      button := false;
      links := false;
    }
  }
}
