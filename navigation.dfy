/**
 * The page navigation of src/components/Navigation.tsx: the scroll handler that sets
 * `isScrolled` and the active section, the resize handler and the buttons that open and
 * close the mobile menu, and the effect that locks page scrolling while the menu is open.
 *
 * The DOM is an input: `layout` maps the id of each element present in the page to the
 * `top` of its bounding rectangle, and `scrollY` and `innerWidth` are the window's values.
 */
module Navigation {
  import opened Options

  /** The `href`s of `navItems`, in nav order. */
  const NavHrefs: seq<string> := ["#home", "#about", "#skills", "#experience", "#projects", "#contact"]

  /** `href.slice(1)` */
  function SectionId(href: string): string
  {
    if |href| == 0 then "" else href[1..]
  }

  /** Removing the leading '#' of an anchor gives back the section id. */
  lemma SectionIdOfAnchor(id: string)
    ensures SectionId("#" + id) == id
    ensures |SectionId(id)| == if id == "" then 0 else |id| - 1
  {
  }

  function SectionIds(hrefs: seq<string>): (ids: seq<string>)
    ensures |ids| == |hrefs|
    ensures forall i :: 0 <= i < |hrefs| ==> ids[i] == SectionId(hrefs[i])
  {
    if hrefs == [] then [] else [SectionId(hrefs[0])] + SectionIds(hrefs[1..])
  }

  lemma NavSectionIds()
    ensures SectionIds(NavHrefs) == ["home", "about", "skills", "experience", "projects", "contact"]
  {
  }

  /** The section's element exists and its top is at most 100 pixels down the viewport. */
  predicate Reached(id: string, layout: map<string, real>)
  {
    id in layout && layout[id] <= 100.0
  }

  /** The index of the last reached section in nav order, if any. */
  function LastReached(ids: seq<string>, layout: map<string, real>): (r: Option<nat>)
    ensures r.Some? ==> r.value < |ids| && Reached(ids[r.value], layout)
    ensures r.Some? ==> forall j :: r.value < j < |ids| ==> !Reached(ids[j], layout)
    ensures r.None? ==> forall j :: 0 <= j < |ids| ==> !Reached(ids[j], layout)
  {
    if ids == [] then None
    else if Reached(ids[|ids| - 1], layout) then Some(|ids| - 1)
    else LastReached(ids[..|ids| - 1], layout)
  }

  /** The section the scroll handler makes active: the last reached one, else the previous. */
  function NextActive(previous: string, ids: seq<string>, layout: map<string, real>): (next: string)
    ensures next == previous || next in ids
  {
    match LastReached(ids, layout)
    case Some(i) => ids[i]
    case None => previous
  }

  /** The active section is reached and no later section is, or nothing is reached and the
      active section stays what it was. */
  lemma NextActiveSpec(previous: string, ids: seq<string>, layout: map<string, real>)
    ensures var next := NextActive(previous, ids, layout);
            || (exists i :: 0 <= i < |ids| && next == ids[i] && Reached(ids[i], layout)
                           && forall j :: i < j < |ids| ==> !Reached(ids[j], layout))
            || (next == previous && forall j :: 0 <= j < |ids| ==> !Reached(ids[j], layout))
  {
    var r := LastReached(ids, layout);
    if r.Some? {
      var i := r.value;
      assert NextActive(previous, ids, layout) == ids[i];
    }
  }

  /** `document.body.style.overflow` as the menu effect leaves it. */
  function OverflowFor(menuOpen: bool): string
  {
    if menuOpen then "hidden" else ""
  }

  class NavigationState {
    var activeSection: string
    var isMobileMenuOpen: bool
    var isScrolled: bool
    var bodyOverflow: string
    /** whether the component is mounted, i.e. its listeners are installed */
    var mounted: bool

    /** Page scrolling is locked exactly while the mounted component's menu is open. */
    predicate Valid()
      reads this
    {
      bodyOverflow == OverflowFor(mounted && isMobileMenuOpen)
    }

    constructor ()
      ensures Valid() && mounted
      ensures activeSection == "home" && !isMobileMenuOpen && !isScrolled && bodyOverflow == ""
    {
      activeSection, isMobileMenuOpen, isScrolled := "home", false, false;
      mounted := true;
      bodyOverflow := "";
    }

    /** The menu effect: its previous cleanup restores the overflow, then it sets it anew. */
    method SyncBodyOverflow()
      requires mounted
      modifies this`bodyOverflow
      ensures Valid()
    {
      bodyOverflow := "";
      if isMobileMenuOpen {
        bodyOverflow := "hidden";
      } else {
        bodyOverflow := "";
      }
    }

    /** `handleScroll`, while its listener is installed. */
    method HandleScroll(scrollY: real, layout: map<string, real>)
      requires Valid()
      modifies this
      ensures Valid()
      ensures mounted == old(mounted) && isMobileMenuOpen == old(isMobileMenuOpen)
      ensures bodyOverflow == old(bodyOverflow)
      ensures !mounted ==> isScrolled == old(isScrolled) && activeSection == old(activeSection)
      ensures mounted ==> isScrolled == (scrollY > 50.0)
      ensures mounted ==> activeSection == NextActive(old(activeSection), SectionIds(NavHrefs), layout)
    {
      if !mounted {
        return;
      }
      isScrolled := scrollY > 50.0;
      var sections := SectionIds(NavHrefs);
      var i := |sections|;
      while i > 0
        invariant 0 <= i <= |sections|
        invariant forall j :: i <= j < |sections| ==> !Reached(sections[j], layout)
        invariant activeSection == old(activeSection)
      {
        i := i - 1;
        var section := sections[i];
        if section in layout {
          if layout[section] <= 100.0 {
            activeSection := section;
            break;
          }
        }
      }
    }

    /** `handleResize`: a width of 768 pixels or more closes the menu. */
    method HandleResize(innerWidth: int)
      requires Valid()
      modifies this
      ensures Valid()
      ensures mounted == old(mounted) && activeSection == old(activeSection) && isScrolled == old(isScrolled)
      ensures isMobileMenuOpen == (old(isMobileMenuOpen) && !(mounted && innerWidth >= 768))
    {
      if !mounted {
        return;
      }
      if innerWidth >= 768 {
        isMobileMenuOpen := false;
      }
      SyncBodyOverflow();
    }

    /** The menu button. */
    method ToggleMenu()
      requires Valid() && mounted
      modifies this
      ensures Valid() && mounted
      ensures activeSection == old(activeSection) && isScrolled == old(isScrolled)
      ensures isMobileMenuOpen == !old(isMobileMenuOpen)
    {
      isMobileMenuOpen := !isMobileMenuOpen;
      SyncBodyOverflow();
    }

    /** `handleNavClick`: any nav link closes the menu; the smooth scroll to the target is
        left to the browser. */
    method HandleNavClick(href: string)
      requires Valid() && mounted
      modifies this
      ensures Valid() && mounted
      ensures activeSection == old(activeSection) && isScrolled == old(isScrolled)
      ensures !isMobileMenuOpen && bodyOverflow == ""
    {
      isMobileMenuOpen := false;
      SyncBodyOverflow();
    }

    /** Unmounting runs every cleanup: the listeners are removed and the overflow restored. */
    method Unmount()
      requires Valid()
      modifies this
      ensures Valid() && !mounted && bodyOverflow == ""
      ensures activeSection == old(activeSection) && isMobileMenuOpen == old(isMobileMenuOpen)
      ensures isScrolled == old(isScrolled)
    {
      mounted := false;
      bodyOverflow := "";
    }
  }
}
