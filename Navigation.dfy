/** The navigation bar: the mobile menu's open flags and the highlighting of
    the link whose section is in view. */
module Navigation {
  import opened Wrappers

  /** The `active` class on the toggle button and on the menu. */
  datatype MenuFlags = MenuFlags(toggle: bool, menu: bool)

  /** A click on the toggle button: `classList.toggle('active')` on both. */
  function Toggled(f: MenuFlags): (r: MenuFlags)
    ensures r.toggle != f.toggle && r.menu != f.menu
  {
    MenuFlags(!f.toggle, !f.menu)
  }

  /** A click on a navigation link: `classList.remove('active')` on both. */
  function Closed(f: MenuFlags): (r: MenuFlags)
    ensures !r.toggle && !r.menu
  {
    MenuFlags(false, false)
  }

  /** Two toggle clicks give back the flags they started from. */
  lemma ToggleTwiceRestores(f: MenuFlags)
    ensures Toggled(Toggled(f)) == f
  {}

  /** Flags that agree keep agreeing under both handlers. */
  lemma HandlersKeepFlagsInSync(f: MenuFlags)
    requires f.toggle == f.menu
    ensures Toggled(f).toggle == Toggled(f).menu
    ensures Closed(f).toggle == Closed(f).menu
  {}

  class Menu {
    var toggleActive: bool
    var menuActive: bool

    function Flags(): MenuFlags
      reads this
    {
      MenuFlags(toggleActive, menuActive)
    }

    constructor ()
      ensures Flags() == MenuFlags(false, false)
    {
      toggleActive, menuActive := false, false;
    }

    /** The toggle button's click handler. */
    method Toggle()
      modifies this
      ensures Flags() == Toggled(old(Flags()))
    {
      toggleActive := !toggleActive;
      menuActive := !menuActive;
    }

    /** A navigation link's click handler that closes the menu. */
    method CloseOnLinkClick()
      modifies this
      ensures Flags() == Closed(old(Flags()))
    {
      toggleActive := false;
      menuActive := false;
    }
  }

  /** A `section[id]` element: its id, offsetTop and offsetHeight. */
  datatype Section = Section(id: string, top: int, height: int)

  /** The position tested against the sections: `window.scrollY + 100`. */
  function ProbePosition(scrollY: int): int {
    scrollY + 100
  }

  /** `scrollPos >= top && scrollPos <= bottom`: closed at both ends. */
  predicate Covers(s: Section, pos: int) {
    s.top <= pos <= s.top + s.height
  }

  /** The last section in document order that covers `pos`. */
  function LastCovering(sections: seq<Section>, pos: int): (r: Option<nat>)
    ensures r.Some? ==>
      && r.value < |sections| && Covers(sections[r.value], pos)
      && forall k :: r.value < k < |sections| ==> !Covers(sections[k], pos)
    ensures r.None? <==> forall k :: 0 <= k < |sections| ==> !Covers(sections[k], pos)
  {
    if sections == [] then None
    else if Covers(sections[|sections| - 1], pos) then Some(|sections| - 1)
    else LastCovering(sections[..|sections| - 1], pos)
  }

  /** `document.querySelector('a[href="#id"]')`, taken to be the first
      navigation link whose href is "#" + id. */
  function LinkFor(hrefs: seq<string>, id: string): (r: Option<nat>)
    ensures r.Some? ==>
      && r.value < |hrefs| && hrefs[r.value] == "#" + id
      && forall k :: 0 <= k < r.value ==> hrefs[k] != "#" + id
    ensures r.None? <==> forall k :: 0 <= k < |hrefs| ==> hrefs[k] != "#" + id
  {
    if hrefs == [] then None
    else if hrefs[0] == "#" + id then Some(0)
    else match LinkFor(hrefs[1..], id)
      case None => None
      case Some(k) => Some(k + 1)
  }

  /** The active links after a highlighting pass: unchanged when no section
      covers `pos`; otherwise only the link of the last covering section, or
      none when that section has no link. */
  function ActiveAfter(hrefs: seq<string>, sections: seq<Section>, pos: int, before: set<nat>): set<nat> {
    match LastCovering(sections, pos)
    case None => before
    case Some(m) =>
      match LinkFor(hrefs, sections[m].id)
      case None => {}
      case Some(k) => {k}
  }

  /** When no section covers the probe, the active links stay as they were. */
  lemma NoCoveringSectionKeepsActive(hrefs: seq<string>, sections: seq<Section>, pos: int, before: set<nat>)
    requires forall j :: 0 <= j < |sections| ==> !Covers(sections[j], pos)
    ensures ActiveAfter(hrefs, sections, pos, before) == before
  {
    assert LastCovering(sections, pos).None?;
  }

  /** When section m covers the probe and no later one does, section m wins:
      its link, if it has one, is the only active link. */
  lemma {:induction false} LastCoveringSectionWins(
    hrefs: seq<string>, sections: seq<Section>, pos: int, before: set<nat>, m: nat)
    requires m < |sections| && Covers(sections[m], pos)
    requires forall j :: m < j < |sections| ==> !Covers(sections[j], pos)
    ensures LinkFor(hrefs, sections[m].id).None? ==> ActiveAfter(hrefs, sections, pos, before) == {}
    ensures LinkFor(hrefs, sections[m].id).Some? ==>
      ActiveAfter(hrefs, sections, pos, before) == {LinkFor(hrefs, sections[m].id).value}
  {
    var r := LastCovering(sections, pos);
    assert r == Some(m);
  }

  /** When exactly one section covers the probe and it has a link, that link
      is the only active one, whatever was active before. */
  lemma {:induction false} SoleCoveringSectionIsHighlighted(
    hrefs: seq<string>, sections: seq<Section>, pos: int, before: set<nat>, m: nat, k: nat)
    requires m < |sections| && Covers(sections[m], pos)
    requires forall j :: 0 <= j < |sections| && j != m ==> !Covers(sections[j], pos)
    requires k < |hrefs| && hrefs[k] == "#" + sections[m].id
    requires forall j :: 0 <= j < k ==> hrefs[j] != "#" + sections[m].id
    ensures ActiveAfter(hrefs, sections, pos, before) == {k}
  {
    LastCoveringSectionWins(hrefs, sections, pos, before, m);
    var l := LinkFor(hrefs, sections[m].id);
    assert l == Some(k);
  }

  /** The navigation links, by their href attributes, and the indices of
      those that carry the `active` class. */
  class NavLinks {
    const hrefs: seq<string>
    var active: set<nat>

    constructor (hrefs: seq<string>)
      ensures this.hrefs == hrefs && active == {}
    {
      this.hrefs := hrefs;
      active := {};
    }

    /** highlightActiveNav: scan the sections in document order; for every
        one that covers `scrollY + 100`, clear `active` from all links and
        add it to that section's link. */
    method HighlightActiveNav(sections: seq<Section>, scrollY: int)
      modifies this
      ensures active == ActiveAfter(hrefs, sections, ProbePosition(scrollY), old(active))
    {
      var pos := scrollY + 100;
      var i := 0;
      while i < |sections|
        invariant 0 <= i <= |sections|
        invariant active == ActiveAfter(hrefs, sections[..i], pos, old(active))
      {
        var section := sections[i];
        var navLink := LinkFor(hrefs, section.id);
        if pos >= section.top && pos <= section.top + section.height {
          active := {};
          if navLink.Some? {
            active := active + {navLink.value};
          }
        }
        assert sections[..i + 1][..i] == sections[..i];
        i := i + 1;
      }
      assert sections[..i] == sections;
    }
  }
}
