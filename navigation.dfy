/**
 * The navigation controller: the mobile menu, the two scroll-driven flags of
 * the navbar and the back-to-top button, and the highlighting of the nav link
 * of the section currently in view.
 */
module Navigation {
  import opened Wrappers

  /** A `<section>` of the page: its `id` attribute (null when absent) and its box. */
  datatype Section = Section(id: Option<string>, offsetTop: int, clientHeight: int)

  /** A `.nav-link` anchor: its `href` and whether it carries the class `active`. */
  datatype NavLink = NavLink(href: string, active: bool)

  /** How far above a section's top its highlighting starts. */
  const SectionLead: int := 100
  /** Scroll offsets strictly above these switch the navbar style and the back-to-top button on. */
  const NavbarThreshold: int := 100
  const BackToTopThreshold: int := 500

  /** `pageYOffset` lies in the band `[offsetTop - 100, offsetTop - 100 + clientHeight)`. */
  predicate Covers(s: Section, y: int)
  {
    s.offsetTop - SectionLead <= y < s.offsetTop - SectionLead + s.clientHeight
  }

  /**
   * The index of the last section, in document order, whose band holds `y`,
   * or -1 when no band does.
   */
  function LastCovering(sections: seq<Section>, y: int): (k: int)
    ensures -1 <= k < |sections|
    ensures k >= 0 ==> Covers(sections[k], y)
    ensures forall j :: k < j < |sections| ==> !Covers(sections[j], y)
  {
    if |sections| == 0 then -1
    else if Covers(sections[|sections| - 1], y) then |sections| - 1
    else LastCovering(sections[..|sections| - 1], y)
  }

  /** The value `current` ends with: the last covering section's id, or '' when none covers `y`. */
  function ActiveId(sections: seq<Section>, y: int): (id: Option<string>)
  {
    var k := LastCovering(sections, y);
    if k < 0 then Some("") else sections[k].id
  }

  /** `href.substring(1)`: the href without its first character ('' stays ''). */
  function Fragment(href: string): (f: string)
    ensures |href| > 0 ==> [href[0]] + f == href
    ensures |href| == 0 ==> f == ""
  {
    if |href| == 0 then "" else href[1..]
  }

  /** Whether a link names the active section (`===` is false against null). */
  predicate Names(link: NavLink, current: Option<string>)
  {
    current == Some(Fragment(link.href))
  }

  /** The forward scan of `updateActiveLink`: every covering section overwrites `current`. */
  method ScanSections(sections: seq<Section>, y: int) returns (current: Option<string>)
    ensures current == ActiveId(sections, y)
    ensures (forall j :: 0 <= j < |sections| ==> !Covers(sections[j], y)) ==> current == Some("")
  {
    current := Some("");
    for i := 0 to |sections|
      invariant current == ActiveId(sections[..i], y)
    {
      assert sections[..i + 1][..i] == sections[..i];
      if Covers(sections[i], y) {
        current := sections[i].id;
      }
    }
    assert sections[..|sections|] == sections;
  }

  /** Sections whose bands overlap: the one later in the document wins. */
  lemma LaterSectionWins(sections: seq<Section>, y: int, j: nat)
    requires j < |sections| && Covers(sections[j], y)
    ensures LastCovering(sections, y) >= j
    ensures ActiveId(sections, y) == sections[LastCovering(sections, y)].id
  {
  }

  /** The position of a section in the list decides nothing unless its band holds `y`. */
  lemma {:induction false} UncoveredSectionsIrrelevant(sections: seq<Section>, y: int, s: Section)
    requires !Covers(s, y)
    ensures ActiveId(sections + [s], y) == ActiveId(sections, y)
    ensures ActiveId([s] + sections, y) == ActiveId(sections, y)
  {
    assert (sections + [s])[..|sections|] == sections;
    PrependUncovered(sections, y, s);
  }

  lemma {:induction false} PrependUncovered(sections: seq<Section>, y: int, s: Section)
    requires !Covers(s, y)
    ensures LastCovering([s] + sections, y) == if LastCovering(sections, y) < 0 then -1 else LastCovering(sections, y) + 1
  {
    if |sections| > 0 {
      var last := |sections| - 1;
      assert ([s] + sections)[..|sections|] == [s] + sections[..last];
      assert ([s] + sections)[|sections|] == sections[last];
      if !Covers(sections[last], y) {
        PrependUncovered(sections[..last], y, s);
      }
    }
  }

  /**
   * The code resets `current` to '' on every call, so once no band holds the
   * offset, no link whose href has a fragment stays highlighted.
   */
  lemma NothingCoveredNothingNamed(sections: seq<Section>, y: int, link: NavLink)
    requires forall j :: 0 <= j < |sections| ==> !Covers(sections[j], y)
    requires Fragment(link.href) != ""
    ensures !Names(link, ActiveId(sections, y))
  {
  }

  /** Sections A at [0, 300) and B at [300, 700) (offsets already shifted by 100): offset 650 selects B. */
  lemma TwoSectionsExample()
    ensures ActiveId([Section(Some("a"), 100, 300), Section(Some("b"), 400, 400)], 650) == Some("b")
    ensures ActiveId([Section(Some("a"), 100, 300), Section(Some("b"), 400, 400)], 299) == Some("a")
    ensures ActiveId([Section(Some("a"), 100, 300), Section(Some("b"), 400, 400)], 700) == Some("")
  {
  }

  class NavigationManager {
    /** The class `active` on the hamburger icon and on the nav menu. */
    var hamburgerActive: bool
    var menuActive: bool
    /** `document.body.style.overflow == 'hidden'` */
    var scrollLocked: bool
    /** The class `scrolled` on the navbar and `visible` on the back-to-top button. */
    var navbarScrolled: bool
    var backToTopVisible: bool
    /** The `.nav-link` anchors in document order. */
    var links: seq<NavLink>

    /** The icon and the menu open and close together, and the page is locked while the menu is open. */
    ghost predicate MenuInSync()
      reads this
    {
      hamburgerActive == menuActive && scrollLocked == menuActive
    }

    constructor (navLinks: seq<NavLink>)
      ensures MenuInSync() && !menuActive
      ensures links == navLinks && !navbarScrolled && !backToTopVisible
    {
      hamburgerActive, menuActive, scrollLocked := false, false, false;
      navbarScrolled, backToTopVisible := false, false;
      links := navLinks;
    }

    /** The hamburger click: both classes flip, and the page scroll lock follows the menu. */
    method ToggleMobileMenu()
      modifies this`hamburgerActive, this`menuActive, this`scrollLocked
      ensures hamburgerActive == !old(hamburgerActive) && menuActive == !old(menuActive)
      ensures scrollLocked == menuActive
      ensures old(MenuInSync()) ==> MenuInSync()
    {
      hamburgerActive := !hamburgerActive;
      menuActive := !menuActive;
      scrollLocked := menuActive;
    }

    /** A nav-link click or Escape: the menu closes and the page scrolls again. */
    method CloseMobileMenu()
      modifies this`hamburgerActive, this`menuActive, this`scrollLocked
      ensures MenuInSync() && !menuActive
    {
      hamburgerActive := false;
      menuActive := false;
      scrollLocked := false;
    }

    /**
     * The scroll handler for the two flags; the offset is `pageYOffset`,
     * or the document's `scrollTop` when `pageYOffset` is 0.
     */
    method HandleScroll(pageYOffset: int, documentScrollTop: int)
      modifies this`navbarScrolled, this`backToTopVisible
      ensures var top := if pageYOffset != 0 then pageYOffset else documentScrollTop;
              navbarScrolled == (top > NavbarThreshold) && backToTopVisible == (top > BackToTopThreshold)
      ensures backToTopVisible ==> navbarScrolled
    {
      var scrollTop := if pageYOffset != 0 then pageYOffset else documentScrollTop;
      navbarScrolled := scrollTop > NavbarThreshold;
      backToTopVisible := scrollTop > BackToTopThreshold;
    }

    /**
     * The scroll handler for the nav links: afterwards exactly the links
     * naming the active section are active; hrefs and order are unchanged.
     */
    method UpdateActiveLink(sections: seq<Section>, pageYOffset: int)
      modifies this`links
      ensures |links| == |old(links)|
      ensures forall j :: 0 <= j < |links| ==> links[j].href == old(links)[j].href
      ensures forall j :: 0 <= j < |links| ==> links[j].active == Names(links[j], ActiveId(sections, pageYOffset))
    {
      var current := ScanSections(sections, pageYOffset);
      var i := 0;
      while i < |links|
        invariant 0 <= i <= |links| == |old(links)|
        invariant forall j :: 0 <= j < |links| ==> links[j].href == old(links)[j].href
        invariant forall j :: 0 <= j < i ==> links[j].active == Names(links[j], current)
      {
        links := links[i := links[i].(active := false)];
        if Names(links[i], current) {
          links := links[i := links[i].(active := true)];
        }
        i := i + 1;
      }
    }
  }
}
