/** The site header: which navigation link is highlighted as the reader
    scrolls, whether the bar is in its scrolled style, and whether the mobile
    menu is open. */
module Header {
  import opened Wrappers
  import Seqs

  /** A navigation link; a link with a section id points at a section of the
      one-page layout. */
  datatype NavLink = NavLink(href: string, text: string, sectionId: Option<string>)

  const NavLinks: seq<NavLink> := [
    NavLink("/about", "About", Some("about")),
    NavLink("/expertise", "Expertise", Some("expertise")),
    NavLink("/experience", "Experience", Some("experience")),
    NavLink("/portfolio", "Portfolio", Some("portfolio")),
    NavLink("/education", "Education", Some("education")),
    NavLink("/certifications", "Certifications", Some("certifications")),
    NavLink("/blog", "Blog", None),
    NavLink("/contact", "Contact", Some("contact")),
    NavLink("/interests", "Interests", None)
  ]

  /** The links that have a section id, in order. */
  function SectionLinksOf(links: seq<NavLink>): (r: seq<NavLink>)
    ensures |r| <= |links|
    ensures forall k :: 0 <= k < |r| ==> r[k].sectionId.Some?
  {
    if links == [] then []
    else
      (if links[0].sectionId.Some? then [links[0]] else []) + SectionLinksOf(links[1..])
  }

  /** Every link with a section id is kept, as often as it occurs. */
  lemma {:induction false} SectionLinksCount(links: seq<NavLink>, l: NavLink)
    ensures multiset(SectionLinksOf(links))[l] == if l.sectionId.Some? then multiset(links)[l] else 0
  {
    if links != [] {
      SectionLinksCount(links[1..], l);
      assert links == [links[0]] + links[1..];
    }
  }

  /** The section links keep the navigation order. */
  lemma {:induction false} SectionLinksInOrder(links: seq<NavLink>)
    ensures Seqs.IsSubsequence(SectionLinksOf(links), links)
  {
    if links != [] {
      SectionLinksInOrder(links[1..]);
      var rest := SectionLinksOf(links[1..]);
      var r := SectionLinksOf(links);
      if links[0].sectionId.Some? {
        assert r == [links[0]] + rest;
        assert r[0] == links[0] && r[1..] == rest;
        assert Seqs.IsSubsequence(r[1..], links[1..]);
      } else {
        assert r == rest;
        assert Seqs.IsSubsequence(rest, links[1..]);
      }
    }
  }

  /** `sectionLinks`, written out; `SectionLinksDerived` shows it is the
      navigation links that have a section id. */
  const SectionLinks: seq<NavLink> := [
    NavLink("/about", "About", Some("about")),
    NavLink("/expertise", "Expertise", Some("expertise")),
    NavLink("/experience", "Experience", Some("experience")),
    NavLink("/portfolio", "Portfolio", Some("portfolio")),
    NavLink("/education", "Education", Some("education")),
    NavLink("/certifications", "Certifications", Some("certifications")),
    NavLink("/contact", "Contact", Some("contact"))
  ]

  /** The section links are the navigation links with a section id, in order:
      all of them but Blog and Interests. */
  lemma SectionLinksDerived()
    ensures SectionLinks == SectionLinksOf(NavLinks)
    ensures SectionLinks == [NavLinks[0], NavLinks[1], NavLinks[2], NavLinks[3], NavLinks[4], NavLinks[5], NavLinks[7]]
  {
    var s := NavLinks;
    assert SectionLinksOf(s[8..]) == [];
    assert SectionLinksOf(s[7..]) == [s[7]];
    assert SectionLinksOf(s[6..]) == [s[7]];
    assert SectionLinksOf(s[5..]) == [s[5], s[7]];
    assert SectionLinksOf(s[4..]) == [s[4], s[5], s[7]];
    assert SectionLinksOf(s[3..]) == [s[3], s[4], s[5], s[7]];
    assert SectionLinksOf(s[2..]) == [s[2], s[3], s[4], s[5], s[7]];
    assert SectionLinksOf(s[1..]) == [s[1], s[2], s[3], s[4], s[5], s[7]];
    assert s[0..] == s;
  }

  /** Whether some link points at `href`. */
  function HasHref(links: seq<NavLink>, href: string): (b: bool)
    ensures b <==> exists k :: 0 <= k < |links| && links[k].href == href
  {
    if links == [] then false
    else links[0].href == href || HasHref(links[1..], href)
  }

  /** Whether the page is laid out as sections: the home page or the path of a
      section link. */
  predicate IsSectionPage(pathname: string)
    ensures IsSectionPage(pathname) <==>
      pathname == "/" || exists k :: 0 <= k < |SectionLinks| && SectionLinks[k].href == pathname
  {
    pathname == "/" || HasHref(SectionLinks, pathname)
  }

  /** The section pages, written out. */
  lemma SectionPages(pathname: string)
    ensures IsSectionPage(pathname) <==>
      pathname in ["/", "/about", "/expertise", "/experience", "/portfolio",
                   "/education", "/certifications", "/contact"]
  {
    var hrefs := ["/about", "/expertise", "/experience", "/portfolio",
                  "/education", "/certifications", "/contact"];
    assert |SectionLinks| == |hrefs|;
    assert forall k :: 0 <= k < |hrefs| ==> SectionLinks[k].href == hrefs[k];
    assert HasHref(SectionLinks, pathname) <==> pathname in hrefs;
    assert ["/"] + hrefs == ["/", "/about", "/expertise", "/experience", "/portfolio",
                             "/education", "/certifications", "/contact"];
  }

  /** Where section `link` begins on the page, as the scan compares it:
      its element's offset less the 80-pixel header allowance. */
  predicate Reached(link: NavLink, y: real, offsets: map<string, int>)
    requires link.sectionId.Some?
  {
    link.sectionId.value in offsets && y >= (offsets[link.sectionId.value] - 80) as real
  }

  /** The highest index below `n` of a link whose section exists and has been
      scrolled to, or -1 when there is none. */
  function LastReached(links: seq<NavLink>, y: real, offsets: map<string, int>, n: nat): (k: int)
    requires n <= |links|
    requires forall i :: 0 <= i < |links| ==> links[i].sectionId.Some?
    ensures -1 <= k < n
    ensures k >= 0 ==> Reached(links[k], y, offsets)
    ensures forall i :: k < i < n ==> !Reached(links[i], y, offsets)
  {
    if n == 0 then -1
    else if Reached(links[n - 1], y, offsets) then n - 1
    else LastReached(links, y, offsets, n - 1)
  }

  /** The backward scan in `onScroll`: the href of the last section reached,
      or `""` when none is. */
  method ScanSections(links: seq<NavLink>, y: real, offsets: map<string, int>) returns (found: string)
    requires forall i :: 0 <= i < |links| ==> links[i].sectionId.Some?
    ensures var k := LastReached(links, y, offsets, |links|);
      found == if k >= 0 then links[k].href else ""
  {
    found := "";
    for i := |links| downto 0
      invariant LastReached(links, y, offsets, |links|) == LastReached(links, y, offsets, i)
      invariant found == ""
    {
      var link := links[i];
      if link.sectionId.value !in offsets {
        continue;
      }
      var top := offsets[link.sectionId.value] - 80;
      if y >= top as real {
        found := link.href;
        break;
      }
    }
  }

  /** The link `onScroll` highlights on a section page: the last section
      reached, else the page's own path, or nothing on the home page. */
  function ScrollTarget(pathname: string, y: real, offsets: map<string, int>): (a: string)
    ensures var k := LastReached(SectionLinks, y, offsets, |SectionLinks|);
      (k >= 0 ==> a == SectionLinks[k].href) &&
      (k == -1 ==> a == if pathname != "/" then pathname else "")
  {
    assert forall i :: 0 <= i < |SectionLinks| ==> SectionLinks[i].href != "";
    ActiveAfterScan(SectionLinks, pathname, y, offsets)
  }

  /** What `onScroll` highlights after scanning `links`: the last section
      reached when its href is not empty, otherwise the page's own path, or
      nothing on the home page. */
  function ActiveAfterScan(links: seq<NavLink>, pathname: string, y: real, offsets: map<string, int>): (a: string)
    requires forall i :: 0 <= i < |links| ==> links[i].sectionId.Some?
    ensures var k := LastReached(links, y, offsets, |links|);
      (k >= 0 && links[k].href != "" ==> a == links[k].href) &&
      (k == -1 || links[k].href == "" ==> a == if pathname != "/" then pathname else "")
    ensures a == "" || a == pathname || HasHref(links, a)
  {
    var k := LastReached(links, y, offsets, |links|);
    var found := if k >= 0 then links[k].href else "";
    if found != "" then found else if pathname != "/" then pathname else ""
  }

  /** On a section page the highlighted link is one of the section links or
      nothing, and it is nothing only on the home page with no section
      reached. */
  lemma ScrollTargetIsSectionLink(pathname: string, y: real, offsets: map<string, int>)
    requires IsSectionPage(pathname)
    ensures var a := ScrollTarget(pathname, y, offsets);
      (a == "" || HasHref(SectionLinks, a)) &&
      (a == "" <==> pathname == "/" && LastReached(SectionLinks, y, offsets, |SectionLinks|) == -1)
  {
    assert forall i :: 0 <= i < |SectionLinks| ==> SectionLinks[i].href != "";
    ActiveIsLinkOrNothing(SectionLinks, pathname, y, offsets);
  }

  lemma ActiveIsLinkOrNothing(links: seq<NavLink>, pathname: string, y: real, offsets: map<string, int>)
    requires forall i :: 0 <= i < |links| ==> links[i].sectionId.Some? && links[i].href != ""
    requires pathname == "/" || HasHref(links, pathname)
    ensures var a := ActiveAfterScan(links, pathname, y, offsets);
      (a == "" || HasHref(links, a)) &&
      (a == "" <==> pathname == "/" && LastReached(links, y, offsets, |links|) == -1)
  {
    var k := LastReached(links, y, offsets, |links|);
    if k >= 0 {
      assert HasHref(links, links[k].href);
    }
  }

  /** The header's state and the path it is rendered for. */
  class HeaderState {
    var pathname: string
    var scrolled: bool
    var active: string
    var menuOpen: bool

    /** The first render followed by its effects: the route effect, then the
        scroll handler run once. */
    constructor (path: string, y: real, offsets: map<string, int>)
      ensures pathname == path && !menuOpen && scrolled == (y > 10.0)
      ensures active == if IsSectionPage(path) then ScrollTarget(path, y, offsets) else path
    {
      pathname := path;
      scrolled, active, menuOpen := false, "", false;
      new;
      RouteEffect();
      OnScroll(y, offsets);
    }

    /** `onScroll` with the window scrolled to `y`. */
    method OnScroll(y: real, offsets: map<string, int>)
      modifies this
      ensures scrolled == (y > 10.0)
      ensures active == if IsSectionPage(pathname) then ScrollTarget(pathname, y, offsets) else old(active)
      ensures pathname == old(pathname) && menuOpen == old(menuOpen)
    {
      scrolled := y > 10.0;
      if !IsSectionPage(pathname) {
        return;
      }
      var links := SectionLinks;
      var found := ScanSections(links, y, offsets);
      active := if found != "" then found else if pathname != "/" then pathname else "";
    }

    /** The effect that runs when the path changes: the menu closes, and the
        path is highlighted unless this is the home page. */
    method RouteEffect()
      modifies this
      ensures !menuOpen
      ensures active == if !IsSectionPage(pathname) || pathname != "/" then pathname else old(active)
      ensures pathname == old(pathname) && scrolled == old(scrolled)
    {
      menuOpen := false;
      if !IsSectionPage(pathname) {
        active := pathname;
        return;
      }
      if pathname != "/" {
        active := pathname;
      }
    }

    /** Moving to `path`: when the path changes both effects run again, in
        order; otherwise nothing does. The result does not depend on where
        the header was before. */
    method Navigate(path: string, y: real, offsets: map<string, int>)
      modifies this
      ensures pathname == path
      ensures path == old(pathname) ==>
        active == old(active) && scrolled == old(scrolled) && menuOpen == old(menuOpen)
      ensures path != old(pathname) ==>
        !menuOpen && scrolled == (y > 10.0) &&
        active == if IsSectionPage(path) then ScrollTarget(path, y, offsets) else path
    {
      if path != pathname {
        pathname := path;
        RouteEffect();
        OnScroll(y, offsets);
      }
    }

    /** The menu button. */
    method ToggleMenu()
      modifies this
      ensures menuOpen == !old(menuOpen)
      ensures pathname == old(pathname) && scrolled == old(scrolled) && active == old(active)
    {
      menuOpen := !menuOpen;
    }

    /** Clicking the logo or any navigation link. */
    method CloseMenu()
      modifies this
      ensures !menuOpen
      ensures pathname == old(pathname) && scrolled == old(scrolled) && active == old(active)
    {
      menuOpen := false;
    }
  }
}
