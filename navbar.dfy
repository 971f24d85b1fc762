/**
 * The navigation bar's component state: the scrolled flag, the mobile menu
 * flag and the active path, together with the page-wide scroll lock
 * (`document.body.style.overflow`) that the menu writes, and the two
 * listeners the mount effect registers.
 */
module NavbarState {
  import opened NavPaths

  /** `isScrolled` is set once the page is scrolled more than this many pixels. */
  const ScrollThreshold: real := 50.0

  /** The body overflow value that locks page scrolling while the menu is open. */
  const Locked: string := "hidden"

  /** `setIsScrolled(window.scrollY > 50)`. */
  function ScrolledAt(scrollY: real): (b: bool)
    ensures b ==> scrollY > 50.0
    ensures !b ==> scrollY <= 50.0
  {
    scrollY > ScrollThreshold
  }

  class Navbar {
    var isScrolled: bool
    var isMobileMenuOpen: bool
    var activePath: string
    /** `document.body.style.overflow`, owned by the page, written by the menu. */
    var bodyOverflow: string
    /** Whether the `scroll` listener on the window is registered. */
    var scrollListener: bool
    /** Whether the `astro:page-load` listener on the document is registered. */
    var pageLoadListener: bool
    const lang: Lang

    /** The menu is never open without the page scroll being locked. */
    ghost predicate Valid()
      reads this
    {
      isMobileMenuOpen ==> bodyOverflow == Locked
    }

    /** First render: `useState(false)`, `useState(false)`, `useState(currentPath)`. */
    constructor (currentPath: string, lang: Lang, overflow: string)
      ensures Valid()
      ensures !isScrolled && !isMobileMenuOpen && activePath == currentPath
      ensures bodyOverflow == overflow && this.lang == lang
      ensures !scrollListener && !pageLoadListener
    {
      isScrolled := false;
      isMobileMenuOpen := false;
      activePath := currentPath;
      bodyOverflow := overflow;
      scrollListener := false;
      pageLoadListener := false;
      this.lang := lang;
    }

    /**
     * The mount effect: registers both listeners and evaluates the scroll
     * handler once, so `isScrolled` reflects the scroll offset at mount.
     */
    method Attach(scrollY: real)
      requires Valid()
      modifies this
      ensures Valid()
      ensures scrollListener && pageLoadListener
      ensures isScrolled == (scrollY > 50.0)
      ensures isMobileMenuOpen == old(isMobileMenuOpen) && activePath == old(activePath)
      ensures bodyOverflow == old(bodyOverflow)
    {
      scrollListener := true;
      pageLoadListener := true;
      OnScroll(scrollY);
    }

    /** The effect's cleanup: both listeners are removed; no state changes. */
    method Detach()
      modifies this
      ensures !scrollListener && !pageLoadListener
      ensures isScrolled == old(isScrolled) && isMobileMenuOpen == old(isMobileMenuOpen)
      ensures activePath == old(activePath) && bodyOverflow == old(bodyOverflow)
    {
      scrollListener := false;
      pageLoadListener := false;
    }

    /** A `scroll` event: handled only while the listener is registered. */
    method OnScroll(scrollY: real)
      modifies this`isScrolled
      ensures isScrolled == if scrollListener then ScrolledAt(scrollY) else old(isScrolled)
    {
      if scrollListener {
        isScrolled := ScrolledAt(scrollY);
      }
    }

    /**
     * An `astro:page-load` event (soft navigation finished): the active path
     * follows the new location and the menu is force-closed.
     */
    method OnPageLoad(pathname: string)
      requires Valid()
      modifies this
      ensures Valid()
      ensures pageLoadListener ==> activePath == pathname && !isMobileMenuOpen && bodyOverflow == ""
      ensures !pageLoadListener ==>
        (activePath == old(activePath) && isMobileMenuOpen == old(isMobileMenuOpen)
         && bodyOverflow == old(bodyOverflow))
      ensures isScrolled == old(isScrolled)
      ensures scrollListener == old(scrollListener) && pageLoadListener == old(pageLoadListener)
    {
      if pageLoadListener {
        activePath := pathname;
        CloseMobileMenu();
      }
    }

    /** The `currentPath` prop changed: the active path follows it. */
    method OnCurrentPathChange(currentPath: string)
      modifies this`activePath
      ensures activePath == currentPath
    {
      activePath := currentPath;
    }

    /** The menu button: the open flag flips and the scroll lock follows the new state. */
    method ToggleMobileMenu()
      modifies this
      ensures Valid()
      ensures isMobileMenuOpen == !old(isMobileMenuOpen)
      ensures bodyOverflow == if isMobileMenuOpen then Locked else ""
      ensures isScrolled == old(isScrolled) && activePath == old(activePath)
      ensures scrollListener == old(scrollListener) && pageLoadListener == old(pageLoadListener)
    {
      bodyOverflow := if !isMobileMenuOpen then Locked else "";
      isMobileMenuOpen := !isMobileMenuOpen;
    }

    /**
     * A link click or a soft navigation: the menu ends closed and unlocked
     * whatever it was before, so closing twice is closing once.
     */
    method CloseMobileMenu()
      modifies this
      ensures Valid()
      ensures !isMobileMenuOpen && bodyOverflow == ""
      ensures isScrolled == old(isScrolled) && activePath == old(activePath)
      ensures scrollListener == old(scrollListener) && pageLoadListener == old(pageLoadListener)
    {
      isMobileMenuOpen := false;
      bodyOverflow := "";
    }

    /**
     * The bar's links in its own language: the four keys in order, each href
     * a page of the bar's locale followed by one `/`, and visiting a link
     * highlights exactly that link.
     */
    function Links(labels: Labels): (items: seq<NavItem>)
      ensures |items| == 4
      ensures forall i :: 0 <= i < 4 ==> items[i].key == NavKeys[i] && StartsWith(items[i].href, BasePath(lang))
      ensures forall i, key :: 0 <= i < 4 ==> (IsActive(items[i].href, key) <==> key == items[i].key)
      ensures forall i :: 0 <= i < 4 ==> (lang == Ro <==> IsRomanianPath(Normalize(items[i].href)))
      ensures forall i :: 0 <= i < 4 ==>
        items[i].href == (if Normalize(items[i].href) == "/" then "/" else Normalize(items[i].href) + "/")
    {
      NavItemsActivateOwnKeys(lang, labels);
      NavItemsHrefShapes(lang, labels);
      NavItems(lang, labels)
    }

    /** Whether the link with this key is highlighted at the current active path. */
    function LinkIsActive(key: string): (b: bool)
      reads this
      ensures b <==> Normalize(activePath) in KeyPaths(key)
    {
      IsActiveMatchesKeyPaths(activePath, key);
      IsActive(activePath, key)
    }

    /**
     * The href of a language button at the current active path, with `/ro`
     * tested as a whole path segment. The Romanian href is the `/ro` form of
     * the page followed by one `/` (a Romanian page for an absolute path);
     * the English href of a Romanian page drops its `/ro` segment, and an
     * English page links to itself.
     */
    function LangSwitchHref(target: Lang): (r: string)
      reads this
      ensures var p := Normalize(activePath);
        target == Ro ==>
          StartsWith(r, RoPrefix) && r == Normalize(r) + "/" &&
          Normalize(r) == (if IsRomanianPath(p) then p else if p == "/" then "/ro" else RoPrefix + p)
      ensures target == Ro && StartsWith(Normalize(activePath), "/") ==> IsRomanianPath(Normalize(r))
      ensures var p := Normalize(activePath);
        target == En && IsRomanianPath(p) ==> RoPrefix + r == p || (p == RoPrefix && r == "/")
      ensures target == En && !IsRomanianPath(Normalize(activePath)) ==> r == Normalize(activePath)
      ensures r != ""
    {
      SegmentSwitchToRo(activePath);
      SegmentSwitchToEn(activePath);
      SwitchHrefBySegment(activePath, target)
    }
  }
}
