/** The navigation bar (frontend/src/components/Navbar.jsx): on every
    scroll it sets the "scrolled" flag and picks the active section by
    scanning the section ids from the last to the first; a link click
    scrolls to its section and closes the mobile menu, and the menu
    button toggles that menu. The page is given as the map from each id
    that has an element to that element's top edge in the viewport. */
module Navbar {
  /** The section ids in page order. */
  const Sections: seq<string> :=
    ["home", "about", "education", "tech-stack", "projects", "internships", "contact"]

  /** A section's top edge must be at most this far below the viewport's. */
  const ActivationTop: int := 100
  /** Scrolled further than this, the bar turns opaque. */
  const ScrolledThreshold: int := 50

  /** For each id the page has an element for, that element's top edge. */
  type Tops = map<string, int>

  /** The element exists and its top edge is at most 100 px down. */
  predicate Qualifies(tops: Tops, id: string)
  {
    id in tops && tops[id] <= ActivationTop
  }

  /** `s` read back to front. */
  function Reversed<T>(s: seq<T>): (r: seq<T>)
    ensures |r| == |s|
    ensures forall i :: 0 <= i < |s| ==> r[i] == s[|s| - 1 - i]
  {
    if s == [] then [] else Reversed(s[1..]) + [s[0]]
  }

  /** `Array.prototype.reverse`: reverses the array in place. */
  method ReverseInPlace<T>(a: array<T>)
    modifies a
    ensures a[..] == Reversed(old(a[..]))
  {
    var i, j := 0, a.Length - 1;
    while i < j
      invariant 0 <= i <= j + 1 <= a.Length && i + j == a.Length - 1
      invariant forall k :: 0 <= k < i ==> a[k] == old(a[a.Length - 1 - k])
      invariant forall k :: j < k < a.Length ==> a[k] == old(a[a.Length - 1 - k])
      invariant forall k :: i <= k <= j ==> a[k] == old(a[k])
    {
      a[i], a[j] := a[j], a[i];
      i, j := i + 1, j - 1;
    }
  }

  /** The index of the last of `ids` that qualifies, or -1 when none does. */
  function LastQualifying(ids: seq<string>, tops: Tops): (r: int)
    ensures -1 <= r < |ids|
    ensures r >= 0 ==> Qualifies(tops, ids[r])
    ensures forall j :: r < j < |ids| ==> !Qualifies(tops, ids[j])
  {
    if ids == [] then -1
    else if Qualifies(tops, ids[|ids| - 1]) then |ids| - 1
    else LastQualifying(ids[..|ids| - 1], tops)
  }

  /** The active section after a scroll event: the last section in page
      order whose element exists with its top at most 100 px down, or the
      previous active section when there is none. A section whose element
      is missing is never chosen, and the result is one of the section ids
      whenever the previous one was. */
  function ActiveAfterScroll(prev: string, tops: Tops): (r: string)
    ensures (forall k :: 0 <= k < |Sections| ==> !Qualifies(tops, Sections[k])) ==> r == prev
    ensures forall k ::
      (0 <= k < |Sections| && Qualifies(tops, Sections[k])
       && forall j :: k < j < |Sections| ==> !Qualifies(tops, Sections[j]))
      ==> r == Sections[k]
    ensures r != prev ==> r in Sections && Qualifies(tops, r)
    ensures prev in Sections ==> r in Sections
  {
    var k := LastQualifying(Sections, tops);
    if k < 0 then prev else Sections[k]
  }

  class NavbarState {
    var isOpen: bool
    var scrolled: bool
    var activeSection: string

    /** The active section is always one of the section ids: the
        constructor establishes it and every handler keeps it. */
    ghost predicate Valid()
      reads this
    {
      activeSection in Sections
    }

    constructor()
      ensures !isOpen && !scrolled && activeSection == "home"
      ensures Valid()
    {
      isOpen, scrolled, activeSection := false, false, "home";
    }

    /** The scroll listener. The list of ids is rebuilt, reversed in place
        and scanned until the first (that is, last in page order) section
        whose element exists and whose top is at most 100 px down. */
    method HandleScroll(scrollY: int, tops: Tops)
      requires Valid()
      modifies this
      ensures scrolled <==> scrollY > ScrolledThreshold
      ensures activeSection == ActiveAfterScroll(old(activeSection), tops)
      ensures isOpen == old(isOpen)
      ensures Valid()
    {
      scrolled := scrollY > ScrolledThreshold;
      var sections := new string[|Sections|](i requires 0 <= i < |Sections| => Sections[i]);
      ReverseInPlace(sections);
      var i := 0;
      while i < sections.Length
        invariant 0 <= i <= sections.Length
        invariant sections[..] == Reversed(Sections)
        invariant activeSection == old(activeSection)
        invariant forall j :: 0 <= j < i ==> !Qualifies(tops, sections[j])
      {
        var section := sections[i];
        if section in tops {
          if tops[section] <= ActivationTop {
            activeSection := section;
            assert LastQualifying(Sections, tops) == |Sections| - 1 - i by {
              assert forall j ::
                (|Sections| - 1 - i < j < |Sections|) ==> Sections[j] == sections[|Sections| - 1 - j];
            }
            break;
          }
        }
        i := i + 1;
      }
      if i == sections.Length {
        assert forall j :: 0 <= j < |Sections| ==> Sections[j] == sections[|Sections| - 1 - j];
      }
    }

    /** A navigation link: when the target element exists the page scrolls
        to it and the mobile menu closes; otherwise nothing happens. */
    method ScrollToSection(id: string, tops: Tops)
      requires Valid()
      modifies this
      ensures isOpen == (if id in tops then false else old(isOpen))
      ensures scrolled == old(scrolled) && activeSection == old(activeSection)
      ensures Valid()
    {
      if id in tops {
        isOpen := false;
      }
    }

    /** The menu button. */
    method ToggleMenu()
      requires Valid()
      modifies this
      ensures isOpen == !old(isOpen)
      ensures scrolled == old(scrolled) && activeSection == old(activeSection)
      ensures Valid()
    {
      isOpen := !isOpen;
    }
  }
}
