/**
 * The path logic of the navigation bar: normalising the current path,
 * deciding which navigation link is active, the navigation hrefs of each
 * locale, and the href of the language switch.
 *
 * English pages are unprefixed and Romanian pages live under `/ro`
 * (the site's i18n routing: default locale `en`, no prefix for it).
 */
module NavPaths {

  datatype Lang = En | Ro

  /** One entry of the navigation list. */
  datatype NavItem = NavItem(href: string, title: string, key: string)

  /** The four translated link labels. */
  datatype Labels = Labels(home: string, services: string, about: string, contact: string)

  const RoPrefix: string := "/ro"

  predicate StartsWith(s: string, prefix: string) {
    |prefix| <= |s| && s[..|prefix|] == prefix
  }

  predicate EndsWithSlash(s: string) {
    |s| > 0 && s[|s| - 1] == '/'
  }

  predicate AllSlashes(s: string) {
    forall i :: 0 <= i < |s| ==> s[i] == '/'
  }

  /**
   * `s.replace(/\/+$/, '')`: removes the whole run of `/` at the end of `s`.
   * The result is the longest prefix of `s` that does not end in `/`, and
   * everything cut off was `/`.
   */
  function StripTrailingSlashes(s: string): (r: string)
    ensures |r| <= |s| && r == s[..|r|]
    ensures !EndsWithSlash(r)
    ensures forall i :: |r| <= i < |s| ==> s[i] == '/'
  {
    if EndsWithSlash(s) then StripTrailingSlashes(s[..|s| - 1]) else s
  }

  /**
   * `path.replace(/\/+$/, '') || '/'`: trailing slashes removed, and an
   * empty remainder becomes the root `/`.
   */
  function Normalize(s: string): (r: string)
    ensures r != ""
    ensures EndsWithSlash(r) <==> r == "/"
    ensures r == "/" <==> AllSlashes(s)
    ensures r != "/" ==> |r| <= |s| && r == s[..|r|] && forall i :: |r| <= i < |s| ==> s[i] == '/'
  {
    var stripped := StripTrailingSlashes(s);
    if stripped == "" then "/" else stripped
  }

  /** A path as `Normalize` returns it. */
  predicate IsNormal(p: string) {
    p != "" && (EndsWithSlash(p) ==> p == "/")
  }

  lemma NormalizeIsNormal(s: string)
    ensures IsNormal(Normalize(s))
  {
  }

  /** A normal path is its own normal form. */
  lemma {:induction false} NormalizeFixesNormal(p: string)
    requires IsNormal(p)
    ensures Normalize(p) == p
  {
    if p == "/" {
      assert StripTrailingSlashes("/"[..0]) == "";
    }
  }

  /** Normalising twice equals normalising once. */
  lemma NormalizeIdempotent(s: string)
    ensures Normalize(Normalize(s)) == Normalize(s)
  {
    NormalizeIsNormal(s);
    NormalizeFixesNormal(Normalize(s));
  }

  /**
   * `isActive(key)` on the current path: the source compares the normalised
   * path with the key's path forms in both locales; an unknown key is never
   * active. (The comparison with `''` for `home` can never succeed, since the
   * normalised path is never empty; see `IsActiveMatchesKeyPaths`.)
   */
  function IsActive(path: string, key: string): (b: bool)
    ensures b ==> key in NavKeys
  {
    var p := Normalize(path);
    if key == "home" then p == "/" || p == "/ro" || p == ""
    else if key == "services" then p == "/services" || p == "/ro/services"
    else if key == "about" then p == "/about" || p == "/ro/about"
    else if key == "contact" then p == "/contact" || p == "/ro/contact"
    else false
  }

  /** Reference definition: the normalised paths at which each key is active. */
  function KeyPaths(key: string): set<string> {
    match key
    case "home" => {"/", "/ro"}
    case "services" => {"/services", "/ro/services"}
    case "about" => {"/about", "/ro/about"}
    case "contact" => {"/contact", "/ro/contact"}
    case _ => {}
  }

  const NavKeys: seq<string> := ["home", "services", "about", "contact"]

  /** All eight path forms that activate some link. */
  function KnownPaths(): set<string> {
    KeyPaths("home") + KeyPaths("services") + KeyPaths("about") + KeyPaths("contact")
  }

  /** `isActive` agrees with the path sets, in both directions. */
  lemma IsActiveMatchesKeyPaths(path: string, key: string)
    ensures IsActive(path, key) <==> Normalize(path) in KeyPaths(key)
  {
  }

  /** Two different keys are never active at the same time. */
  lemma AtMostOneActive(path: string, k1: string, k2: string)
    requires IsActive(path, k1) && IsActive(path, k2)
    ensures k1 == k2
  {
    IsActiveMatchesKeyPaths(path, k1);
    IsActiveMatchesKeyPaths(path, k2);
  }

  /** A path outside the eight known forms highlights no link. */
  lemma NoneActiveOutsideKnown(path: string, key: string)
    requires Normalize(path) !in KnownPaths()
    ensures !IsActive(path, key)
  {
    IsActiveMatchesKeyPaths(path, key);
  }

  /** The active key, if any: exactly the key whose path set holds the normalised path. */
  function ActiveKey(path: string): (r: string)
    ensures r == "" <==> Normalize(path) !in KnownPaths()
    ensures r != "" ==> r in NavKeys && IsActive(path, r)
    ensures forall key :: IsActive(path, key) ==> key == r
  {
    if IsActive(path, "home") then "home"
    else if IsActive(path, "services") then "services"
    else if IsActive(path, "about") then "about"
    else if IsActive(path, "contact") then "contact"
    else ""
  }

  /** `basePath`: the locale prefix of every href. */
  function BasePath(lang: Lang): (b: string)
    ensures b == "" <==> lang == En
    ensures HomePath(lang) == b + "/"
  {
    if lang == En then "" else RoPrefix
  }

  /** `homePath`: the home href of a locale. */
  function HomePath(lang: Lang): (h: string)
    ensures EndsWithSlash(h)
    ensures StartsWith(h, RoPrefix) <==> lang == Ro
  {
    match lang
    case En => "/"
    case Ro => assert "/ro/"[..|RoPrefix|] == RoPrefix; "/ro/"
  }

  /** Each locale's home is a home page, and it is the language switch of the other locale's home. */
  lemma HomesSwitch()
    ensures Normalize(HomePath(En)) in KeyPaths("home") && Normalize(HomePath(Ro)) in KeyPaths("home")
    ensures HomePath(Ro) == SwitchHref(HomePath(En), Ro)
    ensures HomePath(En) == SwitchHref(HomePath(Ro), En)
  {
    NormalizeFixesNormal("/");
    NormalizeDropsOneSlash(RoPrefix);
    assert RoPrefix + "/" == "/ro/";
  }

  /** `navItems`: the four links of the bar for a locale, in order. */
  function NavItems(lang: Lang, labels: Labels): (items: seq<NavItem>)
    ensures |items| == 4
    ensures forall i :: 0 <= i < 4 ==> items[i].key == NavKeys[i]
    ensures forall i :: 0 <= i < 4 ==> StartsWith(items[i].href, BasePath(lang)) && EndsWithSlash(items[i].href)
  {
    var base := BasePath(lang);
    PrefixedHref(base, "/");
    PrefixedHref(base, "/services/");
    PrefixedHref(base, "/about/");
    PrefixedHref(base, "/contact/");
    [ NavItem(HomePath(lang), labels.home, "home"),
      NavItem(BasePath(lang) + "/services/", labels.services, "services"),
      NavItem(BasePath(lang) + "/about/", labels.about, "about"),
      NavItem(BasePath(lang) + "/contact/", labels.contact, "contact") ]
  }

  /** A prefix followed by a non-empty tail ending in `/` starts with the prefix and ends in `/`. */
  lemma PrefixedHref(prefix: string, tail: string)
    requires EndsWithSlash(tail)
    ensures StartsWith(prefix + tail, prefix) && EndsWithSlash(prefix + tail)
  {
    assert (prefix + tail)[..|prefix|] == prefix;
  }

  /** A non-empty path not ending in `/`, with one `/` appended, normalises back to itself. */
  lemma NormalizeDropsOneSlash(q: string)
    requires q != "" && !EndsWithSlash(q)
    ensures Normalize(q + "/") == q
  {
    assert (q + "/")[..|q|] == q;
    assert StripTrailingSlashes(q) == q;
  }

  /** Each English href normalises to a path form of its own key. */
  lemma EnglishHrefForms(labels: Labels, i: nat)
    requires i < 4
    ensures Normalize(NavItems(En, labels)[i].href) in KeyPaths(NavKeys[i])
  {
    var href := NavItems(En, labels)[i].href;
    if i == 0 {
      assert href == "/";
      NormalizeFixesNormal("/");
      assert "/" in KeyPaths("home");
    } else if i == 1 {
      assert href == "/services" + "/";
      HrefForm(href, "/services", "services");
    } else if i == 2 {
      assert href == "/about" + "/";
      HrefForm(href, "/about", "about");
    } else {
      assert href == "/contact" + "/";
      HrefForm(href, "/contact", "contact");
    }
  }

  /** Each Romanian href normalises to a path form of its own key. */
  lemma RomanianHrefForms(labels: Labels, i: nat)
    requires i < 4
    ensures Normalize(NavItems(Ro, labels)[i].href) in KeyPaths(NavKeys[i])
  {
    var items := NavItems(Ro, labels);
    if i == 0 {
      assert items[0].href == "/ro" + "/";
      HrefForm(items[0].href, "/ro", "home");
    } else if i == 1 {
      assert items[1].href == "/ro/services" + "/";
      HrefForm(items[1].href, "/ro/services", "services");
    } else if i == 2 {
      assert items[2].href == "/ro/about" + "/";
      HrefForm(items[2].href, "/ro/about", "about");
    } else {
      assert items[3].href == "/ro/contact" + "/";
      HrefForm(items[3].href, "/ro/contact", "contact");
    }
  }

  /**
   * Each href belongs to its own locale: it normalises to a Romanian page
   * exactly in the Romanian bar, and it is that normal form followed by one
   * `/` (the English root is just `/`).
   */
  lemma NavItemHrefShape(lang: Lang, labels: Labels, i: nat)
    requires i < 4
    ensures var href := NavItems(lang, labels)[i].href;
      (lang == Ro <==> IsRomanianPath(Normalize(href))) &&
      href == (if Normalize(href) == "/" then "/" else Normalize(href) + "/")
  {
    var href := NavItems(lang, labels)[i].href;
    if lang == En && i == 0 {
      assert href == "/";
      NormalizeFixesNormal("/");
    } else {
      var page := if i == 0 then "" else if i == 1 then "/services" else if i == 2 then "/about" else "/contact";
      var q := BasePath(lang) + page;
      assert href == q + "/";
      PageHref(q, lang == Ro, page);
    }
  }

  /** A page `q` with one `/` appended normalises back to `q`; `q` is Romanian exactly when it carries the prefix. */
  lemma PageHref(q: string, ro: bool, page: string)
    requires page in {"", "/services", "/about", "/contact"}
    requires q == (if ro then RoPrefix else "") + page && q != ""
    ensures Normalize(q + "/") == q
    ensures IsRomanianPath(q) <==> ro
  {
    assert q[|q| - 1] != '/';
    NormalizeDropsOneSlash(q);
    if ro {
      assert q[..|RoPrefix|] == RoPrefix;
      if page != "" {
        assert q[..|RoPrefix| + 1] == RoPrefix + "/";
      }
    } else {
      assert q[1] != (RoPrefix + "/")[1];
    }
  }

  /** `NavItemHrefShape` for all four links of a locale. */
  lemma NavItemsHrefShapes(lang: Lang, labels: Labels)
    ensures var items := NavItems(lang, labels);
      forall i :: 0 <= i < 4 ==>
        (lang == Ro <==> IsRomanianPath(Normalize(items[i].href))) &&
        items[i].href == (if Normalize(items[i].href) == "/" then "/" else Normalize(items[i].href) + "/")
  {
    forall i | 0 <= i < 4
      ensures var items := NavItems(lang, labels);
        (lang == Ro <==> IsRomanianPath(Normalize(items[i].href))) &&
        items[i].href == (if Normalize(items[i].href) == "/" then "/" else Normalize(items[i].href) + "/")
    {
      NavItemHrefShape(lang, labels, i);
    }
  }

  /** An href that is a key's path form followed by one `/` normalises to that form. */
  lemma HrefForm(href: string, q: string, key: string)
    requires href == q + "/" && q != "" && !EndsWithSlash(q) && q in KeyPaths(key)
    ensures Normalize(href) in KeyPaths(key)
  {
    NormalizeDropsOneSlash(q);
  }

  /** At a path form of one of the four keys, that key and no other is active. */
  lemma ActiveExactlyAt(path: string, k: string, key: string)
    requires k in NavKeys && Normalize(path) in KeyPaths(k)
    ensures IsActive(path, key) <==> key == k
  {
    IsActiveMatchesKeyPaths(path, key);
  }

  /** Visiting any link of the bar highlights exactly that link. */
  lemma NavItemActivatesOwnKey(lang: Lang, labels: Labels, i: nat, key: string)
    requires i < 4
    ensures var item := NavItems(lang, labels)[i];
      IsActive(item.href, key) <==> key == item.key
  {
    if lang == En {
      EnglishHrefForms(labels, i);
    } else {
      RomanianHrefForms(labels, i);
    }
    ActiveExactlyAt(NavItems(lang, labels)[i].href, NavKeys[i], key);
  }

  /** Every link of a locale's bar highlights exactly its own key when visited. */
  lemma NavItemsActivateOwnKeys(lang: Lang, labels: Labels)
    ensures var items := NavItems(lang, labels);
      forall i, key :: 0 <= i < 4 ==> (IsActive(items[i].href, key) <==> key == items[i].key)
  {
    forall i, key | 0 <= i < 4
      ensures IsActive(NavItems(lang, labels)[i].href, key) <==> key == NavItems(lang, labels)[i].key
    {
      NavItemActivatesOwnKey(lang, labels, i, key);
    }
  }

  /**
   * `getLangSwitchHref(targetLang)` as written. For `en`, a leading `/ro`
   * is removed when the normalised path starts with the string `/ro`; for
   * `ro`, the path gains the `/ro` prefix unless it already starts with it,
   * and a trailing `/`.
   */
  function SwitchHref(path: string, target: Lang): (r: string)
    ensures r != ""
    ensures target == Ro ==> StartsWith(r, RoPrefix) && EndsWithSlash(r)
    ensures target == En && !StartsWith(Normalize(path), RoPrefix) ==> r == Normalize(path)
  {
    var p := Normalize(path);
    if target == En then
      if StartsWith(p, RoPrefix) then
        var rest := p[|RoPrefix|..];
        if rest == "" then "/" else rest
      else p
    else
      if StartsWith(p, RoPrefix) then p + "/"
      else if p == "/" then "/ro/"
      else RoPrefix + p + "/"
  }

  /** The English href is the normalised path with one leading `/ro` taken off, never empty. */
  lemma SwitchToEn(path: string)
    ensures var p, r := Normalize(path), SwitchHref(path, En);
      r != "" &&
      (!StartsWith(p, RoPrefix) ==> r == p) &&
      (StartsWith(p, RoPrefix) ==> RoPrefix + r == p || (p == RoPrefix && r == "/"))
  {
    var p := Normalize(path);
    if StartsWith(p, RoPrefix) {
      assert p == RoPrefix + p[3..];
    }
  }

  /**
   * The Romanian href is the `/ro` form of the path followed by exactly one
   * `/`: it starts with `/ro` and normalises back to that form.
   */
  lemma SwitchToRo(path: string)
    ensures var p, r := Normalize(path), SwitchHref(path, Ro);
      StartsWith(r, RoPrefix) && EndsWithSlash(r) && r == Normalize(r) + "/" &&
      Normalize(r) == (if StartsWith(p, RoPrefix) then p else if p == "/" then "/ro" else RoPrefix + p)
  {
    var p := Normalize(path);
    var q := if StartsWith(p, RoPrefix) then p else if p == "/" then "/ro" else RoPrefix + p;
    assert SwitchHref(path, Ro) == q + "/";
    RoFormIsBare(p, q);
    NormalizeDropsOneSlash(q);
  }

  /** The `/ro` form of a normalised path is non-empty and does not end in `/`. */
  lemma RoFormIsBare(p: string, q: string)
    requires IsNormal(p)
    requires q == (if StartsWith(p, RoPrefix) then p else if p == "/" then "/ro" else RoPrefix + p)
    ensures q != "" && !EndsWithSlash(q)
  {
    if !StartsWith(p, RoPrefix) && p != "/" {
      assert q[|q| - 1] == p[|p| - 1];
    }
  }

  /** Switching to English keeps an English page where it is. */
  lemma SwitchToEnIdentityOnEnglish(path: string)
    requires !StartsWith(Normalize(path), RoPrefix)
    ensures SwitchHref(path, En) == Normalize(path)
  {
  }

  /**
   * Round trip as written: from a page whose normalised path does not start
   * with the string `/ro`, switching to Romanian and back returns that path.
   */
  lemma {:induction false} RoundTripFromEnglish(path: string)
    requires !StartsWith(Normalize(path), RoPrefix)
    ensures SwitchHref(SwitchHref(path, Ro), En) == Normalize(path)
  {
    var p := Normalize(path);
    SwitchToRo(path);
    var q := Normalize(SwitchHref(path, Ro));
    if p == "/" {
      assert q == "/ro";
    } else {
      assert q == RoPrefix + p;
      assert q[3..] == p;
    }
  }

  /**
   * The prefix test looks at the raw string, not at a path segment: the
   * English page `/robots` is taken for a Romanian one. Its English href is
   * the relative `bots`, its Romanian href is `/robots/`, and the round trip
   * does not come back.
   */
  lemma RobotsPrefixMisread()
    ensures SwitchHref("/robots", En) == "bots"
    ensures SwitchHref("/robots", Ro) == "/robots/"
    ensures SwitchHref(SwitchHref("/robots", Ro), En) != Normalize("/robots")
  {
    assert Normalize("/robots") == "/robots" by {
      NormalizeFixesNormal("/robots");
    }
    assert Normalize("/robots/") == "/robots" by {
      assert "/robots/"[..7] == "/robots";
      NormalizeFixesNormal("/robots");
    }
    assert StartsWith("/robots", RoPrefix);
  }

  /** The evidently intended test: `/ro` as a whole first path segment. */
  predicate IsRomanianPath(p: string) {
    p == RoPrefix || StartsWith(p, RoPrefix + "/")
  }

  /** `getLangSwitchHref` with the segment test in place of the string-prefix test. */
  function SwitchHrefBySegment(path: string, target: Lang): (r: string)
    ensures r != ""
    ensures target == Ro ==> StartsWith(r, RoPrefix) && EndsWithSlash(r)
    ensures target == En && !IsRomanianPath(Normalize(path)) ==> r == Normalize(path)
  {
    var p := Normalize(path);
    if target == En then
      if IsRomanianPath(p) then
        var rest := p[|RoPrefix|..];
        if rest == "" then "/" else rest
      else p
    else
      if IsRomanianPath(p) then p + "/"
      else if p == "/" then "/ro/"
      else RoPrefix + p + "/"
  }

  /**
   * With the segment test, the English href of a Romanian page is the page
   * with its `/ro` segment taken off, or `/` for `/ro` itself.
   */
  lemma SegmentSwitchToEn(path: string)
    ensures var p, r := Normalize(path), SwitchHrefBySegment(path, En);
      r != "" &&
      (!IsRomanianPath(p) ==> r == p) &&
      (IsRomanianPath(p) ==> RoPrefix + r == p || (p == RoPrefix && r == "/"))
  {
    var p := Normalize(path);
    if IsRomanianPath(p) {
      assert p == RoPrefix + p[3..];
    }
  }

  /** With the segment test, an English page keeps its path when switching to English. */
  lemma SegmentSwitchToEnIdentity(path: string)
    requires !IsRomanianPath(Normalize(path))
    ensures SwitchHrefBySegment(path, En) == Normalize(path)
  {
  }

  /**
   * With the segment test, every absolute English page (including
   * `/robots`) survives the round trip through Romanian, and its Romanian
   * href is a Romanian page.
   */
  lemma {:induction false} SegmentRoundTripFromEnglish(path: string)
    requires StartsWith(Normalize(path), "/") && !IsRomanianPath(Normalize(path))
    ensures IsRomanianPath(Normalize(SwitchHrefBySegment(path, Ro)))
    ensures SwitchHrefBySegment(SwitchHrefBySegment(path, Ro), En) == Normalize(path)
  {
    var p := Normalize(path);
    SegmentSwitchToRo(path);
    var q := Normalize(SwitchHrefBySegment(path, Ro));
    if p != "/" {
      assert q[3..] == p;
    }
  }

  /**
   * With the segment test, the Romanian href is the `/ro` form of the path
   * followed by exactly one `/`, and for an absolute path that form is a
   * Romanian page.
   */
  lemma SegmentSwitchToRo(path: string)
    ensures var r := SwitchHrefBySegment(path, Ro);
      StartsWith(r, RoPrefix) && EndsWithSlash(r) && r == Normalize(r) + "/" &&
      Normalize(r) == (if IsRomanianPath(Normalize(path)) then Normalize(path)
                       else if Normalize(path) == "/" then "/ro" else RoPrefix + Normalize(path)) &&
      (StartsWith(Normalize(path), "/") ==> IsRomanianPath(Normalize(r)))
  {
    var p := Normalize(path);
    var q := if IsRomanianPath(p) then p else if p == "/" then "/ro" else RoPrefix + p;
    assert SwitchHrefBySegment(path, Ro) == q + "/";
    SegmentRoFormIsBare(p, q);
    NormalizeDropsOneSlash(q);
    if !IsRomanianPath(p) && p != "/" && StartsWith(p, "/") {
      assert q[..4] == "/ro/";
    }
  }

  /** With the segment test, the `/ro` form of a normalised path is non-empty and does not end in `/`. */
  lemma SegmentRoFormIsBare(p: string, q: string)
    requires IsNormal(p)
    requires q == (if IsRomanianPath(p) then p else if p == "/" then "/ro" else RoPrefix + p)
    ensures q != "" && !EndsWithSlash(q)
  {
    if !IsRomanianPath(p) && p != "/" {
      assert q[|q| - 1] == p[|p| - 1];
    }
  }

  /** The two tests agree except on paths that merely begin with the letters `/ro`. */
  lemma SegmentAgreesOffPrefixCollisions(path: string, target: Lang)
    requires var p := Normalize(path); IsRomanianPath(p) == StartsWith(p, RoPrefix)
    ensures SwitchHrefBySegment(path, target) == SwitchHref(path, target)
  {
  }
}
