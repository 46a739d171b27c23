/**
 * Locales on the client: the supported list and the locale a request
 * resolves to, the language switcher's detection and path rewriting, and the
 * route table with its localized form.
 */
module Locale {
  import opened Wrappers
  import opened Text

  /** `locales`, and `defaultLocale`. */
  const Locales: seq<string> := ["zh", "en"]
  const DefaultLocale := "zh"

  /** `locale && locales.includes(locale) ? locale : defaultLocale`. */
  function ValidLocale(requested: Option<string>): string {
    if requested.Some? && requested.value != [] && requested.value in Locales then requested.value
    else DefaultLocale
  }

  /** What the request config yields: the locale to load messages for, or the
      not-found page. */
  datatype Config = Config(locale: string) | NotFound

  function RequestConfig(requested: Option<string>): Config {
    var v := ValidLocale(requested);
    if v !in Locales then NotFound else Config(v)
  }

  /** A supported locale is kept, anything else becomes the default, and the
      result is always supported. */
  lemma ValidLocaleSupported(requested: Option<string>)
    ensures ValidLocale(requested) in Locales
    ensures requested.Some? && requested.value in Locales ==> ValidLocale(requested) == requested.value
    ensures requested.None? || requested.value !in Locales ==> ValidLocale(requested) == DefaultLocale
  {
  }

  /** The default locale is supported, so the not-found branch is never taken. */
  lemma RequestConfigNeverNotFound(requested: Option<string>)
    ensures DefaultLocale in Locales
    ensures RequestConfig(requested) == Config(ValidLocale(requested))
  {
    ValidLocaleSupported(requested);
  }

  // ---- the language switcher ----------------------------------------------------

  /** The switcher's language codes, in the order its loop visits them. */
  const SwitcherCodes: seq<string> := ["zh", "en"]

  /** The displayed locale: a non-empty `currentLocale` wins; otherwise a `/zh`
      prefix gives zh, a `/en` prefix gives en, and anything else zh. */
  function DetectLocale(currentLocale: Option<string>, pathname: string): string {
    if currentLocale.Some? && currentLocale.value != [] then currentLocale.value
    else if StartsWith(pathname, "/zh") then "zh"
    else if StartsWith(pathname, "/en") then "en"
    else "zh"
  }

  /** `pathname === `/${code}` || pathname.startsWith(`/${code}/`)`. */
  predicate HasPrefix(pathname: string, code: string) {
    pathname == "/" + code || StartsWith(pathname, "/" + code + "/")
  }

  /** The loop: the first code whose prefix the path carries is cut off, and
      an empty remainder becomes `/`. */
  function StripFrom(pathname: string, codes: seq<string>): string {
    if codes == [] then pathname
    else if HasPrefix(pathname, codes[0]) then
      var rest := pathname[|codes[0]| + 1..];
      if rest == [] then "/" else rest
    else StripFrom(pathname, codes[1..])
  }

  function StripLocale(pathname: string): string {
    StripFrom(pathname, SwitcherCodes)
  }

  function EnsureLeadingSlash(p: string): (r: string)
    ensures StartsWith(r, "/")
  {
    if StartsWith(p, "/") then p else "/" + p
  }

  /** `handleLanguageChange(newLocale)`: the path pushed to the router. */
  function SwitchPath(pathname: string, newLocale: string): string {
    "/" + newLocale + EnsureLeadingSlash(StripLocale(pathname))
  }

  /** The remainder after a three-character prefix, with `/` for nothing. */
  function AfterPrefix(pathname: string): string
    requires |pathname| >= 3
  {
    if pathname[3..] == [] then "/" else pathname[3..]
  }

  /** The loop unrolled over its two codes. */
  lemma StripLocaleUnrolled(pathname: string)
    ensures StripLocale(pathname)
            == if HasPrefix(pathname, "zh") then AfterPrefix(pathname)
               else if HasPrefix(pathname, "en") then AfterPrefix(pathname)
               else pathname
  {
    assert SwitcherCodes[0] == "zh" && SwitcherCodes[1..] == ["en"];
    if !HasPrefix(pathname, "zh") {
      assert StripLocale(pathname) == StripFrom(pathname, ["en"]);
      assert ["en"][0] == "en" && ["en"][1..] == [];
      if HasPrefix(pathname, "en") {
        assert |pathname| >= 3 && |"en"| + 1 == 3;
      } else {
        assert StripFrom(pathname, ["en"]) == StripFrom(pathname, []);
      }
    }
  }

  /** A path that carries `/en` does not carry `/zh`. */
  lemma EnIsNotZh(pathname: string)
    requires StartsWith(pathname, "/en")
    ensures !HasPrefix(pathname, "zh")
  {
    assert pathname[1] == 'e';
  }

  /** The three ways the switcher treats a path. */
  lemma StripLocaleCases(pathname: string)
    ensures pathname == "/zh" || pathname == "/en" ==> StripLocale(pathname) == "/"
    ensures StartsWith(pathname, "/zh/") || StartsWith(pathname, "/en/") ==> StripLocale(pathname) == pathname[3..]
    ensures !HasPrefix(pathname, "zh") && !HasPrefix(pathname, "en") ==> StripLocale(pathname) == pathname
  {
    StripLocaleUnrolled(pathname);
    if pathname == "/en" || StartsWith(pathname, "/en/") {
      assert pathname[..3] == "/en";
      EnIsNotZh(pathname);
    }
    if StartsWith(pathname, "/zh/") || StartsWith(pathname, "/en/") {
      assert pathname[3] == '/' && pathname[3..] != [];
    }
  }

  /** A path prefixed with a switcher code and a `/`-led rest loses exactly that prefix. */
  lemma StripOfPrefixed(code: string, rest: string)
    requires code in SwitcherCodes && StartsWith(rest, "/")
    ensures StripLocale("/" + code + rest) == rest
  {
    var p := "/" + code + rest;
    assert p[..4] == "/" + code + "/" && p[3..] == rest;
    StripLocaleCases(p);
  }

  /** The pushed path starts with the new locale and a `/`. */
  lemma SwitchPathShape(pathname: string, newLocale: string)
    ensures StartsWith(SwitchPath(pathname, newLocale), "/" + newLocale + "/")
  {
    var tail := EnsureLeadingSlash(StripLocale(pathname));
    assert SwitchPath(pathname, newLocale)[..|newLocale| + 2] == "/" + newLocale + tail[..1];
  }

  /** Switching to one language and then to another lands where switching
      straight to the second does. */
  lemma SwitchTwice(pathname: string, first: string, second: string)
    requires first in SwitcherCodes
    ensures SwitchPath(SwitchPath(pathname, first), second) == SwitchPath(pathname, second)
  {
    var tail := EnsureLeadingSlash(StripLocale(pathname));
    assert SwitchPath(pathname, first) == "/" + first + tail;
    StripOfPrefixed(first, tail);
  }

  /** Detection has no `/` boundary while stripping has one: `/zhx` shows zh but
      keeps its path. */
  lemma DetectionWithoutBoundary()
    ensures DetectLocale(None, "/zhx") == "zh"
    ensures StripLocale("/zhx") == "/zhx"
  {
    var p := "/zhx";
    assert p[..3] == "/zh";
    assert |p| == 4 && p[3] == 'x' && p[1] == 'z';
    assert !HasPrefix(p, "zh") by {
      assert p != "/zh";
      assert ("/" + "zh" + "/")[3] == '/';
    }
    assert !HasPrefix(p, "en") by {
      assert ("/" + "en")[1] == 'e';
    }
    StripLocaleCases(p);
  }

  // ---- routes -------------------------------------------------------------------

  const Home := "/"
  const Login := "/login"
  const Register := "/register"
  const Profile := "/profile"
  const History := "/history"
  const ToolsImage := "/tools/image"
  const ToolsVideo := "/tools/video"
  const AuthCallback := "/auth/callback"
  const Demo := "/components-demo"

  /** Every entry of `ROUTES`. */
  const Routes: seq<string> :=
    [Home, Login, Register, Profile, History, ToolsImage, ToolsVideo, AuthCallback, Demo]

  /** Routes reachable without signing in. */
  const PublicRoutes: seq<string> := [Home, Login, Register, AuthCallback]

  /** Routes that need a signed-in user. */
  const ProtectedRoutes: seq<string> := [Profile, History, ToolsImage, ToolsVideo]

  /** `getLocalizedRoute(route, locale)`. */
  function LocalizedRoute(route: string, locale: string): string {
    "/" + locale + route
  }

  /** Every route begins with `/`; the public and protected lists are disjoint
      and both drawn from the route table. */
  lemma RouteTableWellFormed()
    ensures forall k :: 0 <= k < |Routes| ==> StartsWith(Routes[k], "/")
    ensures forall r :: r in PublicRoutes ==> r !in ProtectedRoutes
    ensures forall r :: r in PublicRoutes || r in ProtectedRoutes ==> r in Routes
  {
    forall k | 0 <= k < |Routes| ensures StartsWith(Routes[k], "/") {
      assert Routes[k][0] == '/';
    }
  }

  /** Localizing a route under a supported locale and stripping it with the
      switcher gives the route back, and detection reads the locale off it. */
  lemma LocalizeThenStrip(route: string, locale: string)
    requires StartsWith(route, "/") && locale in Locales
    ensures StripLocale(LocalizedRoute(route, locale)) == route
    ensures DetectLocale(None, LocalizedRoute(route, locale)) == locale
  {
    StripOfPrefixed(locale, route);
    var p := LocalizedRoute(route, locale);
    assert p[..3] == "/" + locale;
    if locale == "en" {
      assert p[1] == 'e';
    }
  }

  /** Every declared route survives localization and stripping. */
  lemma EveryRouteLocalizes(k: nat, locale: string)
    requires k < |Routes| && locale in Locales
    ensures StripLocale(LocalizedRoute(Routes[k], locale)) == Routes[k]
  {
    RouteTableWellFormed();
    LocalizeThenStrip(Routes[k], locale);
  }
}
