/**
 * The page chrome (src/components/Layout.tsx): which navigation links are
 * highlighted, the `dark` class on the document element, the mobile menu and
 * its links (which all toggle the menu), and the first-visit welcome notice.
 */
module Layout {
  import opened Wrappers
  import opened Text
  import opened Browser
  import opened Store
  import opened FirstVisit

  /** The paths of `navItems`, in order. */
  const NavPaths: seq<string> := ["/", "/about", "/projects", "/contact"]

  /** `isActiveSection(path)`: home only on the exact path "/" with the home
      section in view; other paths by a (not segment-aware) prefix of the
      pathname or by the section id in view. */
  function IsActiveSection(pathname: string, activeSection: string, path: string): (active: bool)
    ensures path == "/" && active ==> pathname == "/" && activeSection == "home"
    ensures path != "/" && StartsWith(pathname, path) ==> active
    ensures path != "/" && |path| > 0 && activeSection == path[1..] ==> active
    ensures path != "/" && active ==> StartsWith(pathname, path) || (|path| > 0 && activeSection == path[1..])
  {
    if path == "/" then pathname == "/" && activeSection == "home"
    else StartsWith(pathname, path) || activeSection == path[1..]
  }

  /** The highlight of each navigation item. */
  function ActiveNav(pathname: string, activeSection: string): (r: seq<bool>)
    ensures |r| == |NavPaths|
    ensures forall i :: 0 <= i < |NavPaths| ==> r[i] == IsActiveSection(pathname, activeSection, NavPaths[i])
  {
    seq(|NavPaths|, i requires 0 <= i < |NavPaths| => IsActiveSection(pathname, activeSection, NavPaths[i]))
  }

  /** Home is never active through a prefix: it needs the exact path "/". */
  lemma HomeNeedsExactPath(pathname: string, activeSection: string)
    ensures IsActiveSection(pathname, activeSection, "/") <==> pathname == "/" && activeSection == "home"
    ensures !IsActiveSection("/about", activeSection, "/")
  {
  }

  /** When the home item is highlighted, no other item is. */
  lemma HomeHighlightedAlone(pathname: string, activeSection: string)
    requires ActiveNav(pathname, activeSection)[0]
    ensures forall i :: 1 <= i < |NavPaths| ==> !ActiveNav(pathname, activeSection)[i]
  {
    assert pathname == "/" && activeSection == "home";
    forall i | 1 <= i < |NavPaths|
      ensures !IsActiveSection(pathname, activeSection, NavPaths[i])
    {
      assert |NavPaths[i]| > 1;
      assert NavPaths[i][1..] != "home";
    }
  }

  /** On a route's own pathname, with the matching section in view for home
      and no section in view otherwise, exactly that route's item is
      highlighted. */
  lemma RouteHighlightsItsItem(i: nat)
    requires i < |NavPaths|
    ensures var section := if i == 0 then "home" else "";
            forall j :: 0 <= j < |NavPaths| ==> (ActiveNav(NavPaths[i], section)[j] <==> j == i)
  {
    var section := if i == 0 then "home" else "";
    forall j | 0 <= j < |NavPaths|
      ensures ActiveNav(NavPaths[i], section)[j] <==> j == i
    {
      assert ActiveNav(NavPaths[i], section)[j] == IsActiveSection(NavPaths[i], section, NavPaths[j]);
      if j == i && i > 0 {
        assert NavPaths[i][..|NavPaths[i]|] == NavPaths[i];
      }
      if j != i && j > 0 {
        if i > 0 {
          assert NavPaths[i][1] != NavPaths[j][1];
          assert |NavPaths[j]| <= |NavPaths[i]| ==> NavPaths[i][..|NavPaths[j]|][1] != NavPaths[j][1];
        }
        assert NavPaths[j][1..] != section;
      }
    }
  }

  /** A non-home item is active on its own route and on every pathname that
      merely begins with it: "/about" is active on "/aboutme". */
  lemma PrefixHighlight(pathname: string, activeSection: string, path: string)
    requires path != "/"
    requires |path| > 0
    requires StartsWith(pathname, path)
    ensures IsActiveSection(pathname, activeSection, path)
    ensures IsActiveSection(path, activeSection, path)
  {
    assert path[..|path|] == path;
  }

  /** `document.documentElement`, reduced to its class list. */
  class DocumentRoot {
    var classList: set<string>

    constructor (classList: set<string>)
      ensures this.classList == classList
    {
      this.classList := classList;
    }

    /** The dark-mode effect: `dark` is present iff the store is dark; other
        classes are untouched. */
    method ApplyDarkClass(isDarkMode: bool)
      modifies this
      ensures ("dark" in classList) == isDarkMode
      ensures classList - {"dark"} == old(classList) - {"dark"}
    {
      if isDarkMode {
        classList := classList + {"dark"};
      } else {
        classList := classList - {"dark"};
      }
    }
  }

  /** The mobile menu is rendered only while the menu is open. */
  predicate MobileMenuRendered(store: AppStore)
    reads store
  {
    store.isMenuOpen
  }

  /** The menu button calls `toggleMenu`. */
  method ClickMenuButton(store: AppStore)
    modifies store
    ensures store.State() == MenuToggled(old(store.State()))
  {
    store.ToggleMenu();
  }

  /** A link of the rendered mobile menu: `toggleMenu` closes the menu and
      the link navigates; the theme and the storage are untouched. */
  method FollowMobileLink(store: AppStore, location: Location, path: string)
    requires MobileMenuRendered(store)
    modifies store, location
    ensures !store.isMenuOpen
    ensures location.pathname == path
    ensures store.isDarkMode == old(store.isDarkMode) && store.storage.items == old(store.storage.items)
  {
    store.ToggleMenu();
    location.pathname := path;
  }

  const WelcomeMessage: string := "Welcome! Press 'K' to view keyboard shortcuts"

  /** The welcome message, iff this is the first visit. The notice is always
      rendered visible and of kind success; those fixed props are not modelled. */
  function WelcomeNotice(isFirstVisit: bool): (r: Option<string>)
    ensures r.Some? <==> isFirstVisit
  {
    if isFirstVisit then Some(WelcomeMessage) else None
  }

  /** The welcome notice appears on the first mount over storage without the
      visited key, and never on the mount after it. */
  lemma WelcomeOnlyOnce(items: map<string, string>)
    ensures WelcomeNotice(MountEffect(items).isFirstVisit).Some? <==>
              (VisitedKey !in items || items[VisitedKey] == [])
    ensures WelcomeNotice(MountEffect(MountEffect(items).items).isFirstVisit) == None
  {
    SecondMountIsNotFirst(items);
  }
}
