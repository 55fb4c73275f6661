/**
 Page redirects: canonical paths, retired names, locale roots, and the language cookie. A
 browser that follows them stops after at most three hops, on its own origin, with its query.
 */
module LocaleRoutes {
  import opened Wrappers
  import opened Addresses

  /** What the language cookie says; English is the canonical, unprefixed locale. */
  datatype Locale = En | Uk | Ru

  datatype Route = File(name: string) | Redirect(target: string, status: nat) | NoRoute

  const SPA_SECTIONS: set<string> :=
    {"inspector", "live", "behavior", "library", "dialects", "blog", "docs", "insights"}

  const LANDINGS: set<string> :=
    {"/openrtb/2-6", "/openrtb/2-5", "/openrtb/3-0", "/vast", "/native", "/iab-categories"}

  // ---- paths ------------------------------------------------------------------

  predicate Starts(s: string, prefix: string) {
    prefix <= s
  }

  ghost predicate HasScheme(path: string) {
    exists i | 0 <= i <= |path| :: Starts(Lower(path[i..]), "http://") || Starts(Lower(path[i..]), "https://")
  }

  /** One leading slash, no scheme, no backslash. */
  ghost predicate SameOrigin(path: string) {
    path != "" && path[0] == '/' && !(|path| > 1 && path[1] == '/') && !HasScheme(path) && '\\' !in path
  }

  ghost predicate ValidRaw(path: string) {
    path == "" || path == "/" || SameOrigin(path)
  }

  /** `decodeURIComponent`, None when it throws. It changes nothing but escapes, and an escape shrinks. */
  type Decoder = string -> Option<string>

  ghost predicate Decodes(dec: Decoder) {
    && (forall s | '%' !in s :: dec(s) == Some(s))
    && (forall s | '%' in s && dec(s).Some? :: |dec(s).value| < |s|)
  }

  function DecodeRounds(dec: Decoder, s: string, rounds: nat): Option<string>
    decreases rounds
  {
    if rounds == 0 then Some(s)
    else
      match dec(s)
      case None => None
      case Some(next) => if next == s then Some(s) else DecodeRounds(dec, next, rounds - 1)
  }

  method FullyDecodePath(dec: Decoder, path: string) returns (decoded: Option<string>)
    ensures decoded == if path == "" || path == "/" then Some(path) else DecodeRounds(dec, path, 3)
  {
    if path == "" || path == "/" { return Some(path); }
    var current := path;
    var i := 0;
    while i < 3
      invariant i <= 3 && DecodeRounds(dec, path, 3) == DecodeRounds(dec, current, 3 - i)
    {
      var next := dec(current);
      if next.None? { return None; }
      if next.value == current { return Some(current); }
      current := next.value;
      i := i + 1;
    }
    return Some(current);
  }

  function Stripped(s: string): string {
    if s != "" && s[|s| - 1] == '/' then Stripped(s[..|s| - 1]) else s
  }

  method StripTrailingSlashes(s: string) returns (r: string)
    ensures r == Stripped(s)
  {
    var end := |s|;
    assert s[..end] == s;
    while end > 0 && s[end - 1] == '/'
      invariant end <= |s| && Stripped(s) == Stripped(s[..end])
    {
      assert s[..end][..end - 1] == s[..end - 1];
      end := end - 1;
    }
    r := s[..end];
  }

  function Canonical(path: string): string {
    if path == "" || path == "/" then "/" else Lower(Stripped(path))
  }

  function IncompleteBlog(path: string): Option<string> {
    if path in {"/blog/en", "/blog/uk", "/blog/ru"} then Some("/blog")
    else if path in {"/uk/blog/en", "/uk/blog/uk", "/uk/blog/ru"} then Some("/uk/blog")
    else if path in {"/ru/blog/en", "/ru/blog/uk", "/ru/blog/ru"} then Some("/ru/blog")
    else None
  }

  // ---- the route table --------------------------------------------------------

  predicate Section(u: string, prefix: string) {
    Starts(u, prefix + "/") && u[|prefix| + 1..] in SPA_SECTIONS
  }

  predicate IsSegment(s: string) {
    s != "" && 'a' <= s[0] <= 'z' && forall i | 0 <= i < |s| :: 'a' <= s[i] <= 'z' || '0' <= s[i] <= '9' || s[i] == '-'
  }

  predicate IsBlogSlug(s: string) {
    s != "" && |s| <= 121 && s[0] != '-' && forall i | 0 <= i < |s| :: 'a' <= s[i] <= 'z' || '0' <= s[i] <= '9' || s[i] == '-'
  }

  predicate BlogPost(u: string, prefix: string) {
    Starts(u, prefix + "/blog/") &&
    var rest := u[|prefix| + 6..];
    (Starts(rest, "en/") || Starts(rest, "uk/") || Starts(rest, "ru/")) && IsBlogSlug(rest[3..])
  }

  predicate SectionChild(u: string, prefix: string) {
    exists s | s in SPA_SECTIONS :: Starts(u, prefix + "/" + s + "/") && IsSegment(u[|prefix| + |s| + 2..])
  }

  predicate Specimen(u: string, prefix: string) {
    Starts(u, prefix + "/r/") && 8 <= |u| - |prefix| - 3 <= 12 && forall i | |prefix| + 3 <= i < |u| :: IsHex(u[i])
  }

  predicate Landing(u: string, prefix: string) {
    Starts(u, prefix) && u[|prefix|..] in LANDINGS
  }

  function ChildRoute(u: string, prefix: string, shell: string): Route {
    if u == prefix + "/docs/findings" then File(shell) else NoRoute
  }

  /** The resolution of a canonical path, in the order of the source. */
  function RouteOf(u: string): Route {
    if u == "/" || u == "/index.html" then Redirect("/inspector", 302)
    else if u == "/en" then Redirect("/inspector", 301)
    else if u == "/uk" then Redirect("/uk/inspector", 301)
    else if u == "/ru" then Redirect("/ru/inspector", 301)
    else if Section(u, "") then File("/index.en.html")
    else if Section(u, "/uk") then File("/index.uk.html")
    else if Section(u, "/ru") then File("/index.ru.html")
    else if BlogPost(u, "") then File("/index.en.html")
    else if BlogPost(u, "/uk") then File("/index.uk.html")
    else if BlogPost(u, "/ru") then File("/index.ru.html")
    else if SectionChild(u, "") then ChildRoute(u, "", "/index.en.html")
    else if SectionChild(u, "/uk") then ChildRoute(u, "/uk", "/index.uk.html")
    else if SectionChild(u, "/ru") then ChildRoute(u, "/ru", "/index.ru.html")
    else if u == "/admin/blog" then File("/index.en.html")
    else if Section(u, "/en") then Redirect(u[3..], 301)
    else if Specimen(u, "") then File("/index.en.html")
    else if Specimen(u, "/uk") then File("/index.uk.html")
    else if Specimen(u, "/ru") then File("/index.ru.html")
    else Retired(u)
  }

  function Retired(u: string): Route {
    if u == "/stream" || u == "/stream.html" then Redirect("/live", 301)
    else if u == "/playground" || u == "/playground.html" then Redirect("/inspector", 301)
    else if u == "/app/dialects" then Redirect("/dialects", 301)
    else if u == "/about" then File("/about.en.html")
    else if u == "/about.html" then Redirect("/about", 301)
    else if u == "/account" then File("/account.en.html")
    else if u == "/account.html" then Redirect("/account", 301)
    else if u == "/en/about" then Redirect("/about", 301)
    else if u == "/en/account" then Redirect("/account", 301)
    else if u == "/uk/about" then File("/about.uk.html")
    else if u == "/uk/account" then File("/account.uk.html")
    else if u == "/ru/about" then File("/about.ru.html")
    else if u == "/ru/account" then File("/account.ru.html")
    else if Landing(u, "") then File("/index.en.html")
    else if Landing(u, "/uk") then File("/index.uk.html")
    else if Landing(u, "/ru") then File("/index.ru.html")
    else NoRoute
  }

  /** `safeRedirect`: nothing leaves the origin, and nothing encoded or beyond ASCII is sent back. */
  ghost function SafeRedirect(r: Route): Route {
    if r.Redirect? && !(SameOrigin(r.target) && '%' !in r.target && Printable(r.target)) then NoRoute else r
  }

  predicate Printable(s: string) {
    forall i | 0 <= i < |s| :: ' ' <= s[i] <= '~'
  }

  function CanonicalTarget(raw: string): Option<string> {
    var u := Canonical(raw);
    var blog := IncompleteBlog(u);
    if blog.Some? then blog
    else if u != raw && raw != "" then Some(u)
    else None
  }

  /** `resolveLocaleRoute` of a path without its query. */
  ghost function ResolveRoute(dec: Decoder, raw: string): Route {
    if !ValidRaw(raw) then NoRoute
    else if raw != "" && raw != "/" &&
      (DecodeRounds(dec, raw, 3).None? || !SameOrigin(DecodeRounds(dec, raw, 3).value) || DecodeRounds(dec, raw, 3).value != raw)
    then NoRoute
    else
      match CanonicalTarget(raw)
      case Some(target) => SafeRedirect(Redirect(target, 301))
      case None => SafeRedirect(RouteOf(Canonical(raw)))
  }

  // ---- the cookie table and the handler ---------------------------------------

  const FRONT_DOORS: set<string> :=
    {"/", "/about", "/account", "/inspector", "/live", "/behavior", "/library", "/dialects", "/blog", "/docs",
     "/docs/findings"} + LANDINGS

  function Prefix(l: Locale): string {
    match l
    case En => ""
    case Uk => "/uk"
    case Ru => "/ru"
  }

  /** `LOCALE_REDIRECT_TABLE[path][locale]`: every row has this form. */
  function Localised(path: string, l: Locale): string {
    if path == "/" then Prefix(l) else Prefix(l) + path
  }

  /** `reqPath.replace(/\/$/, '') || '/'` */
  function WithoutSlash(path: string): string {
    if path == "" || path == "/" then "/"
    else if path[|path| - 1] == '/' then path[..|path| - 1]
    else path
  }

  function CookieTarget(path: string, cookie: Option<Locale>): Option<string> {
    var norm := WithoutSlash(path);
    if cookie.Some? && !cookie.value.En? && norm in FRONT_DOORS then Some(Localised(norm, cookie.value)) else None
  }

  /** Where a request for this path is sent, if anywhere. */
  ghost function NextPath(dec: Decoder, cookie: Option<Locale>, path: string): Option<string> {
    if CookieTarget(path, cookie).Some? then CookieTarget(path, cookie)
    else if ResolveRoute(dec, path).Redirect? then Some(ResolveRoute(dec, path).target)
    else None
  }

  function PathOf(url: string): string {
    if url == "" || url[0] == '?' then "" else [url[0]] + PathOf(url[1..])
  }

  function QueryOf(url: string): string {
    if url == "" || url[0] == '?' then url else QueryOf(url[1..])
  }

  /** `withIncomingQuery` */
  function WithIncomingQuery(target: string, url: string): string {
    if QueryOf(url) == "" || '?' in target then target else target + QueryOf(url)
  }

  /** The redirects of `serveStaticFile`. */
  ghost function NextUrl(dec: Decoder, cookie: Option<Locale>, url: string): Option<string> {
    match NextPath(dec, cookie, PathOf(url))
    case None => None
    case Some(target) => Some(WithIncomingQuery(target, url))
  }

  /** `hops[0]` is what the browser asked for, and each further entry where the one before sent it. */
  ghost predicate Follows(dec: Decoder, cookie: Option<Locale>, hops: seq<string>) {
    hops != [] && forall i | 0 <= i < |hops| - 1 :: NextUrl(dec, cookie, hops[i]) == Some(hops[i + 1])
  }

  // ---- plain paths ------------------------------------------------------------

  predicate PlainChar(c: char) {
    'a' <= c <= 'z' || '0' <= c <= '9' || c == '-' || c == '.' || c == '/'
  }

  /** A path that canonicalisation leaves alone and that can always be sent back. */
  predicate Plain(s: string) {
    |s| >= 2 && s[0] == '/' && s[1] != '/' && s[|s| - 1] != '/' && forall i | 0 <= i < |s| :: PlainChar(s[i])
  }

  lemma NoSchemeWithoutColon(s: string)
    requires ':' !in s
    ensures !HasScheme(s)
  {
    forall i | 0 <= i <= |s| ensures !Starts(Lower(s[i..]), "http://") && !Starts(Lower(s[i..]), "https://") {
      assert "http://"[4] == ':' && "https://"[5] == ':';
    }
  }

  lemma PlainIsSafe(s: string)
    requires Plain(s)
    ensures SameOrigin(s) && '%' !in s && '?' !in s && Printable(s)
  {
    NoSchemeWithoutColon(s);
  }

  lemma PlainIsCanonical(s: string)
    requires Plain(s)
    ensures Canonical(s) == s && WithoutSlash(s) == s
  {
    assert Stripped(s) == s;
    assert Lower(s) == s;
  }

  lemma DecodedIsSame(dec: Decoder, s: string)
    requires Decodes(dec) && DecodeRounds(dec, s, 3) == Some(s)
    ensures '%' !in s
  {
    if '%' in s {
      var t := dec(s).value;
      DecodeShrinks(dec, t, 2);
    }
  }

  /** The decoding guards turn away exactly the paths that hold an escape, valid or not. */
  lemma EscapesAreRefused(dec: Decoder, raw: string)
    requires Decodes(dec) && SameOrigin(raw) && raw != "/"
    ensures (DecodeRounds(dec, raw, 3) == Some(raw)) <==> '%' !in raw
    ensures '%' in raw ==> ResolveRoute(dec, raw) == NoRoute
  {
    if DecodeRounds(dec, raw, 3) == Some(raw) { DecodedIsSame(dec, raw); }
  }

  lemma {:induction false} DecodeShrinks(dec: Decoder, s: string, rounds: nat)
    requires Decodes(dec)
    ensures DecodeRounds(dec, s, rounds).Some? ==> |DecodeRounds(dec, s, rounds).value| <= |s|
    decreases rounds
  {
    if rounds > 0 && dec(s).Some? && dec(s).value != s { DecodeShrinks(dec, dec(s).value, rounds - 1); }
  }

  // ---- canonical paths are settled --------------------------------------------

  lemma {:induction false} StrippedExact(s: string)
    ensures Stripped(s) <= s
    ensures Stripped(s) != "" ==> Stripped(s)[|Stripped(s)| - 1] != '/'
    ensures |s| > 1 && s[1] != '/' ==> |Stripped(s)| >= 2
    ensures s != "" && s[|s| - 1] != '/' ==> Stripped(s) == s
  {
    if s != "" && s[|s| - 1] == '/' { StrippedExact(s[..|s| - 1]); }
  }

  lemma LowerTwice(s: string)
    ensures Lower(Lower(s)) == Lower(s)
    ensures forall i | 0 <= i < |s| :: s[i] != '/' ==> Lower(s)[i] != '/'
  {
  }

  /** What canonicalising gives is canonical, and the root comes only of the root. */
  lemma CanonicalIsSettled(raw: string)
    requires ValidRaw(raw)
    ensures Canonical(Canonical(raw)) == Canonical(raw)
    ensures Canonical(raw) == "/" <==> raw == "" || raw == "/"
    ensures raw != "" && raw != "/" ==> |Canonical(raw)| >= 2 && WithoutSlash(Canonical(raw)) == Canonical(raw)
    ensures forall c | c in Canonical(raw) :: !('A' <= c <= 'Z')
  {
    if raw != "" && raw != "/" {
      var t := Stripped(raw);
      StrippedExact(raw);
      LowerTwice(t);
      StrippedExact(Lower(t));
    }
  }

  // ---- where redirects lead ---------------------------------------------------

  const DOORS: set<string> := FRONT_DOORS - {"/"} + {"/insights"}

  /** Every redirect of the route table leads to a front door, or to one below a locale. */
  predicate Fixed(t: string) {
    t in DOORS || t in {"/uk/inspector", "/ru/inspector", "/uk/blog", "/ru/blog"}
  }

  /** The canonical paths the route table sends elsewhere. */
  predicate Moves(u: string) {
    || u in {"/", "/index.html", "/en", "/uk", "/ru", "/stream", "/stream.html", "/playground", "/playground.html",
             "/app/dialects", "/about.html", "/account.html", "/en/about", "/en/account"}
    || Section(u, "/en")
  }

  lemma TargetsAreFixed()
    ensures Fixed("/inspector") && Fixed("/live") && Fixed("/dialects") && Fixed("/about") && Fixed("/account")
    ensures Fixed("/blog") && Fixed("/uk/inspector") && Fixed("/ru/inspector") && Fixed("/uk/blog") && Fixed("/ru/blog")
  {
  }

  lemma RetiredMoves(u: string)
    ensures Retired(u).Redirect? ==> Moves(u) && Fixed(Retired(u).target)
  {
    TargetsAreFixed();
    hide Fixed, Landing, Section;
  }

  lemma EnglishMoves(u: string)
    requires Section(u, "/en")
    ensures |u| >= 3 && Moves(u) && Fixed(u[3..])
  {
    assert u[3..] == "/" + u[4..];
    SectionsAreDoors(u[4..]);
    hide Section;
  }

  lemma RootsMove()
    ensures Moves("/") && Moves("/index.html") && Moves("/en") && Moves("/uk") && Moves("/ru")
  {
  }

  lemma RedirectsMove(u: string)
    ensures RouteOf(u).Redirect? ==> Moves(u) && Fixed(RouteOf(u).target)
  {
    hide Moves, Retired, Fixed, Landing, Section, BlogPost, SectionChild, Specimen, ChildRoute, Starts;
    TargetsAreFixed();
    RootsMove();
    RetiredMoves(u);
    if Section(u, "/en") { EnglishMoves(u); }
    ChildIsNoRedirect(u);
  }

  lemma ChildIsNoRedirect(u: string)
    ensures forall prefix, shell :: !ChildRoute(u, prefix, shell).Redirect?
  {
  }

  lemma SectionsAreDoors(s: string)
    requires s in SPA_SECTIONS
    ensures "/" + s in DOORS
  {
    assert "/" + "inspector" == "/inspector" && "/" + "live" == "/live" && "/" + "behavior" == "/behavior";
    assert "/" + "library" == "/library" && "/" + "dialects" == "/dialects" && "/" + "blog" == "/blog";
    assert "/" + "docs" == "/docs" && "/" + "insights" == "/insights";
  }

  lemma PlainSections()
    ensures Plain("/inspector") && Plain("/live") && Plain("/behavior") && Plain("/library")
    ensures Plain("/dialects") && Plain("/blog") && Plain("/docs") && Plain("/insights")
  {
  }

  lemma PlainPages()
    ensures Plain("/about") && Plain("/account") && Plain("/docs/findings")
    ensures Plain("/vast") && Plain("/native") && Plain("/iab-categories")
  {
  }

  lemma PlainVersions()
    ensures Plain("/openrtb/2-6") && Plain("/openrtb/2-5") && Plain("/openrtb/3-0")
  {
  }

  lemma DoorsArePlain(k: string)
    requires k in DOORS
    ensures Plain(k)
  {
    hide Plain;
    PlainSections();
    PlainPages();
    PlainVersions();
  }

  /** No front door begins like a locale. */
  lemma DoorsHaveNoLocale(k: string)
    requires k in DOORS
    ensures |k| > 1 && k[1] != 'u' && k[1] != 'r' && k[1] != 'e'
  {
  }

  lemma DoorsStay(k: string)
    requires k in DOORS
    ensures !Moves(k) && IncompleteBlog(k).None?
  {
    DoorsHaveNoLocale(k);
  }

  lemma BelowLocale(k: string, l: Locale)
    requires k in DOORS && !l.En?
    ensures var p := Prefix(l) + k;
      Plain(p) && !Moves(p) && IncompleteBlog(p).None? && p !in FRONT_DOORS
  {
    var p := Prefix(l) + k;
    DoorsArePlain(k);
    DoorsStay(k);
    assert PlainLocales();
    assert p[3..] == k && |p| > 3 && p[0] == '/';
    assert p[1] == (if l.Uk? then 'u' else 'r');
    LocalePaths(p, k);
  }

  predicate PlainLocales() {
    Prefix(Uk) == ['/', 'u', 'k'] && Prefix(Ru) == ['/', 'r', 'u']
  }

  lemma LocalePaths(p: string, k: string)
    requires |p| > 3 && p[3..] == k && k in DOORS && (p[1] == 'u' || p[1] == 'r')
    requires !Moves(k) && IncompleteBlog(k).None?
    ensures !Moves(p) && IncompleteBlog(p).None? && p !in FRONT_DOORS
  {
    if p in FRONT_DOORS { DoorsHaveNoLocale(p); }
    MovesByLetter(p);
    BlogBelow(p);
    hide Moves;
  }

  lemma MovesByLetter(p: string)
    requires |p| > 3 && (p[1] == 'u' || p[1] == 'r')
    ensures !Moves(p)
  {
  }

  lemma BlogBelow(p: string)
    requires |p| > 3 && (p[1] == 'u' || p[1] == 'r')
    ensures IncompleteBlog(p).Some? ==> IncompleteBlog(p[3..]).Some?
  {
    assert "/uk/blog/en"[3..] == "/blog/en" && "/uk/blog/uk"[3..] == "/blog/uk" && "/uk/blog/ru"[3..] == "/blog/ru";
    assert "/ru/blog/en"[3..] == "/blog/en" && "/ru/blog/uk"[3..] == "/blog/uk" && "/ru/blog/ru"[3..] == "/blog/ru";
  }

  // ---- hops -------------------------------------------------------------------

  /** At most n redirects follow a request for this path. */
  ghost predicate Within(dec: Decoder, cookie: Option<Locale>, p: string, n: nat)
    decreases n
  {
    NextPath(dec, cookie, p).None? || (n > 0 && Within(dec, cookie, NextPath(dec, cookie, p).value, n - 1))
  }

  lemma {:induction false} WithinMore(dec: Decoder, cookie: Option<Locale>, p: string, n: nat, m: nat)
    requires Within(dec, cookie, p, n) && n <= m
    ensures Within(dec, cookie, p, m)
    decreases n
  {
    hide NextPath;
    if NextPath(dec, cookie, p).Some? { WithinMore(dec, cookie, NextPath(dec, cookie, p).value, n - 1, m - 1); }
  }

  lemma StaysPut(dec: Decoder, cookie: Option<Locale>, p: string)
    requires Plain(p) && !Moves(p) && IncompleteBlog(p).None? && p !in FRONT_DOORS
    ensures NextPath(dec, cookie, p).None?
  {
    PlainIsCanonical(p);
    RedirectsMove(p);
    hide Plain, Moves, RouteOf, IncompleteBlog, Canonical, Fixed, Decodes;
  }

  lemma LocaleDoorIsFinal(dec: Decoder, cookie: Option<Locale>, k: string, l: Locale)
    requires k in DOORS && !l.En?
    ensures NextPath(dec, cookie, Prefix(l) + k).None?
  {
    BelowLocale(k, l);
    StaysPut(dec, cookie, Prefix(l) + k);
  }

  /** A front door is final, or the cookie sends it below its locale, and that is final. */
  lemma DoorIsNear(dec: Decoder, cookie: Option<Locale>, k: string)
    requires k in DOORS
    ensures Within(dec, cookie, k, 1)
  {
    DoorsArePlain(k);
    DoorsStay(k);
    PlainIsCanonical(k);
    if CookieTarget(k, cookie).Some? {
      assert CookieTarget(k, cookie) == Some(Prefix(cookie.value) + k);
      LocaleDoorIsFinal(dec, cookie, k, cookie.value);
    } else {
      RedirectsMove(k);
      hide Plain, Moves, RouteOf, IncompleteBlog, Canonical, Fixed;
    }
  }

  lemma FixedIsNear(dec: Decoder, cookie: Option<Locale>, t: string)
    requires Fixed(t)
    ensures Within(dec, cookie, t, 1)
  {
    if t in DOORS {
      DoorIsNear(dec, cookie, t);
    } else {
      hide NextPath, Prefix;
      TwoDoors();
      LocaleDoorIsFinal(dec, cookie, "/inspector", Uk);
      LocaleDoorIsFinal(dec, cookie, "/inspector", Ru);
      LocaleDoorIsFinal(dec, cookie, "/blog", Uk);
      LocaleDoorIsFinal(dec, cookie, "/blog", Ru);
    }
  }

  lemma BlogTargetsAreFixed(p: string)
    ensures IncompleteBlog(p).Some? ==> Fixed(IncompleteBlog(p).value)
  {
    TargetsAreFixed();
    hide Fixed;
  }

  lemma Hop(dec: Decoder, cookie: Option<Locale>, p: string, n: nat)
    requires NextPath(dec, cookie, p).Some? ==> Within(dec, cookie, NextPath(dec, cookie, p).value, n)
    ensures Within(dec, cookie, p, n + 1)
  {
  }

  lemma FixedWithin(dec: Decoder, cookie: Option<Locale>, t: string, n: nat)
    requires Fixed(t) && n >= 1
    ensures Within(dec, cookie, t, n)
  {
    FixedIsNear(dec, cookie, t);
    WithinMore(dec, cookie, t, 1, n);
  }

  /** What a route redirects to: itself made canonical, or a fixed target. */
  lemma ResolvedTarget(dec: Decoder, raw: string)
    requires ResolveRoute(dec, raw).Redirect?
    ensures var t := ResolveRoute(dec, raw).target;
      && ValidRaw(raw) && SameOrigin(t) && Printable(t) && '%' !in t
      && (Fixed(t) || (t == Canonical(raw) && raw != t && raw != "" && raw != "/"))
  {
    BlogTargetsAreFixed(Canonical(raw));
    RedirectsMove(Canonical(raw));
    if raw == "/" { assert Canonical(raw) == raw; }
    hide RouteOf, IncompleteBlog, Fixed, Moves, Canonical, SameOrigin, Printable, DecodeRounds;
  }

  /** From a canonical path, two hops. */
  lemma CanonicalIsNear(dec: Decoder, cookie: Option<Locale>, p: string)
    requires Canonical(p) == p && WithoutSlash(p) == p && p != "/"
    ensures Within(dec, cookie, p, 2)
  {
    hide Within, Fixed, Canonical, ResolveRoute;
    var next := NextPath(dec, cookie, p);
    if CookieTarget(p, cookie).Some? {
      LocaleDoorIsFinal(dec, cookie, p, cookie.value);
      Hop(dec, cookie, next.value, 0);
    } else if next.Some? {
      ResolvedTarget(dec, p);
      FixedWithin(dec, cookie, next.value, 1);
    }
    Hop(dec, cookie, p, 1);
  }

  /** From any path at all, three. */
  lemma AnyPathIsNear(dec: Decoder, cookie: Option<Locale>, p: string)
    ensures Within(dec, cookie, p, 3)
  {
    hide Within, Fixed, Canonical, ResolveRoute;
    var next := NextPath(dec, cookie, p);
    if CookieTarget(p, cookie).Some? {
      CookieTargetIsNear(dec, cookie, p);
    } else if next.Some? {
      ResolvedTarget(dec, p);
      if Fixed(next.value) {
        FixedWithin(dec, cookie, next.value, 2);
      } else {
        CanonicalIsSettled(p);
        CanonicalIsNear(dec, cookie, next.value);
      }
    }
    Hop(dec, cookie, p, 2);
  }

  lemma CookieTargetIsNear(dec: Decoder, cookie: Option<Locale>, p: string)
    requires CookieTarget(p, cookie).Some?
    ensures Within(dec, cookie, CookieTarget(p, cookie).value, 2)
  {
    hide Within, Fixed, Canonical, ResolveRoute, NextPath;
    var t := CookieTarget(p, cookie).value;
    if WithoutSlash(p) == "/" {
      LocaleRootsArePlain();
      PlainIsCanonical(t);
      CanonicalIsNear(dec, cookie, t);
    } else {
      LocaleDoorIsFinal(dec, cookie, WithoutSlash(p), cookie.value);
      Hop(dec, cookie, t, 0);
      WithinMore(dec, cookie, t, 1, 2);
    }
  }

  lemma LocaleRootsArePlain()
    ensures Plain("/uk") && Plain("/ru")
  {
  }

  // ---- whole urls -------------------------------------------------------------

  lemma {:induction false} UrlParts(url: string)
    ensures url == PathOf(url) + QueryOf(url) && '?' !in PathOf(url)
    ensures QueryOf(url) == "" || QueryOf(url)[0] == '?'
  {
    hide SPA_SECTIONS, LANDINGS, DOORS;
    if url != "" && url[0] != '?' {
      var c, rest := url[0], url[1..];
      UrlParts(rest);
      assert PathOf(url) == [c] + PathOf(rest) && QueryOf(url) == QueryOf(rest);
      assert url == [c] + rest;
    } else {
      assert url == "" + url;
    }
  }

  lemma {:induction false} PartsOf(path: string, query: string)
    requires '?' !in path && (query == "" || query[0] == '?')
    ensures PathOf(path + query) == path && QueryOf(path + query) == query
  {
    if path == "" {
      assert path + query == query;
    } else {
      assert (path + query)[1..] == path[1..] + query;
      PartsOf(path[1..], query);
    }
  }

  lemma {:induction false} StrippedKeepsOut(s: string, c: char)
    requires c !in s
    ensures c !in Stripped(s)
  {
    if s != "" && s[|s| - 1] == '/' { StrippedKeepsOut(s[..|s| - 1], c); }
  }

  /** Every redirect is a path of its own, on this origin, without a query. */
  lemma TargetIsPath(dec: Decoder, cookie: Option<Locale>, p: string)
    requires '?' !in p && NextPath(dec, cookie, p).Some?
    ensures SameOrigin(NextPath(dec, cookie, p).value) && '?' !in NextPath(dec, cookie, p).value
  {
    var t := NextPath(dec, cookie, p).value;
    if CookieTarget(p, cookie).Some? {
      if WithoutSlash(p) == "/" {
        LocaleRootsArePlain();
      } else {
        BelowLocale(WithoutSlash(p), cookie.value);
      }
      PlainIsSafe(t);
    } else {
      ResolvedTarget(dec, p);
      if Fixed(t) {
        FixedIsPlain(t);
        PlainIsSafe(t);
      } else {
        StrippedKeepsOut(p, '?');
      }
    }
  }

  lemma FixedIsPlain(t: string)
    requires Fixed(t)
    ensures Plain(t)
  {
    hide Plain, Moves, IncompleteBlog;
    if t in DOORS {
      DoorsArePlain(t);
    } else {
      LocalePages();
    }
  }

  lemma TwoDoors()
    ensures "/inspector" in DOORS && "/blog" in DOORS
    ensures Prefix(Uk) + "/inspector" == "/uk/inspector" && Prefix(Ru) + "/inspector" == "/ru/inspector"
    ensures Prefix(Uk) + "/blog" == "/uk/blog" && Prefix(Ru) + "/blog" == "/ru/blog"
  {
  }

  lemma LocalePages()
    ensures Plain("/uk/inspector") && Plain("/ru/inspector") && Plain("/uk/blog") && Plain("/ru/blog")
  {
    hide Plain, Moves, IncompleteBlog, Prefix;
    TwoDoors();
    BelowLocale("/inspector", Uk);
    BelowLocale("/inspector", Ru);
    BelowLocale("/blog", Uk);
    BelowLocale("/blog", Ru);
  }

  lemma UrlHop(dec: Decoder, cookie: Option<Locale>, url: string)
    requires NextUrl(dec, cookie, url).Some?
    ensures var next := NextUrl(dec, cookie, url).value;
      && Some(PathOf(next)) == NextPath(dec, cookie, PathOf(url)) && SameOrigin(PathOf(next))
      && QueryOf(next) == QueryOf(url)
  {
    hide NextPath, SameOrigin, PathOf, QueryOf;
    UrlParts(url);
    TargetIsPath(dec, cookie, PathOf(url));
    var target := NextPath(dec, cookie, PathOf(url)).value;
    PartsOf(target, QueryOf(url));
    assert target + "" == target;
  }

  lemma {:induction false} FollowedWithin(dec: Decoder, cookie: Option<Locale>, hops: seq<string>, n: nat)
    requires Follows(dec, cookie, hops) && Within(dec, cookie, PathOf(hops[0]), n)
    ensures |hops| <= n + 1
    ensures forall i | 0 < i < |hops| :: SameOrigin(PathOf(hops[i])) && QueryOf(hops[i]) == QueryOf(hops[0])
    decreases n
  {
    hide NextPath, SameOrigin, PathOf, QueryOf;
    if |hops| > 1 {
      assert NextUrl(dec, cookie, hops[0]) == Some(hops[1]);
      UrlHop(dec, cookie, hops[0]);
      FollowedWithin(dec, cookie, hops[1..], n - 1);
      forall i | 1 < i < |hops| ensures SameOrigin(PathOf(hops[i])) && QueryOf(hops[i]) == QueryOf(hops[0]) {
        assert hops[i] == hops[1..][i - 1];
      }
    }
  }

  /**
   From any url and under any cookie, following redirects ends after at most three hops; every
   hop stays on this origin and carries the original query unchanged.
   */
  lemma RedirectsTerminate(dec: Decoder, cookie: Option<Locale>, hops: seq<string>)
    requires Follows(dec, cookie, hops)
    ensures |hops| <= 4
    ensures forall i | 0 < i < |hops| :: SameOrigin(PathOf(hops[i])) && QueryOf(hops[i]) == QueryOf(hops[0])
  {
    AnyPathIsNear(dec, cookie, PathOf(hops[0]));
    FollowedWithin(dec, cookie, hops, 3);
  }

  // ---- pages are reached ------------------------------------------------------

  function Shell(l: Locale): string {
    match l
    case En => "/index.en.html"
    case Uk => "/index.uk.html"
    case Ru => "/index.ru.html"
  }

  lemma SectionLetter(s: string)
    requires s in SPA_SECTIONS
    ensures s != "" && s[0] != 'u' && s[0] != 'r' && s[0] != 'e'
  {
    hide DOORS;
    SectionsAreDoors(s);
    DoorsHaveNoLocale("/" + s);
    assert ("/" + s)[1] == s[0];
  }

  lemma SectionByLetter(u: string)
    requires |u| > 1 && (u[1] == 'u' || u[1] == 'r' || u[1] == 'e')
    ensures !Section(u, "")
    ensures u[1] != 'u' ==> !Section(u, "/uk") && !SectionChild(u, "/uk") && !BlogPost(u, "/uk")
    ensures u[1] != 'r' ==> !Section(u, "/ru") && !SectionChild(u, "/ru") && !BlogPost(u, "/ru")
    ensures !SectionChild(u, "") && !BlogPost(u, "")
  {
    forall s | s in SPA_SECTIONS
      ensures u[1..] != s
      ensures !Starts(u, "" + "/" + s + "/")
      ensures u[1] != 'u' ==> !Starts(u, "/uk" + "/" + s + "/")
      ensures u[1] != 'r' ==> !Starts(u, "/ru" + "/" + s + "/")
    {
      SectionLetter(s);
      assert ("" + "/" + s + "/")[1] == s[0];
      assert ("/uk" + "/" + s + "/")[1] == 'u' && ("/ru" + "/" + s + "/")[1] == 'r';
    }
    assert ("" + "/blog/")[1] == 'b';
  }

  lemma SectionPage(s: string, l: Locale)
    requires s in SPA_SECTIONS
    ensures var u := Prefix(l) + "/" + s;
      Plain(u) && IncompleteBlog(u).None? && RouteOf(u) == File(Shell(l))
  {
    var u := Prefix(l) + "/" + s;
    SectionsAreDoors(s);
    assert Section(u, Prefix(l)) by { assert u[|Prefix(l)| + 1..] == s; }
    RootsMove();
    if l.En? {
      assert u == "/" + s;
      DoorsArePlain(u);
      DoorsStay(u);
    } else {
      assert u == Prefix(l) + ("/" + s);
      BelowLocale("/" + s, l);
      SectionByLetter(u);
    }
    hide Section, SectionChild, BlogPost, Specimen, Moves, Plain, IncompleteBlog, Retired, ChildRoute;
  }

  lemma OldEnglishPath(s: string)
    requires s in SPA_SECTIONS
    ensures var u := "/en/" + s;
      && |u| > 5 && u[0] == '/' && u[1] == 'e' && u[3..] == "/" + s && Section(u, "/en")
      && Plain(u) && IncompleteBlog(u).None?
  {
    hide Plain, IncompleteBlog;
    var u, door := "/en/" + s, "/" + s;
    SectionsAreDoors(s);
    DoorsArePlain(door);
    assert "/en/" == ['/', 'e', 'n', '/'];
    assert u == "/en" + door && u[3..] == door && u[4..] == s;
    assert |s| > 1;
    PlainBelowEnglish(door);
    NoBlogBelowEnglish(u);
  }

  lemma PlainBelowEnglish(door: string)
    requires Plain(door)
    ensures Plain("/en" + door)
  {
    assert "/en" == ['/', 'e', 'n'];
  }

  lemma NoBlogBelowEnglish(u: string)
    requires |u| > 1 && u[1] == 'e'
    ensures IncompleteBlog(u).None?
  {
  }

  lemma OldEnglishPage(s: string)
    requires s in SPA_SECTIONS
    ensures RouteOf("/en/" + s) == Redirect("/" + s, 301)
  {
    hide Section, SectionChild, BlogPost, Specimen, Retired, ChildRoute, Plain, IncompleteBlog;
    var u := "/en/" + s;
    OldEnglishPath(s);
    SectionByLetter(u);
    assert u != "/" && u != "/index.html" && u != "/en" && u != "/uk" && u != "/ru" && u != "/admin/blog";
  }

  /** Every section is served by its locale's shell, and the old English prefix leads to it. */
  lemma SectionsAreServed(dec: Decoder, s: string, l: Locale)
    requires Decodes(dec) && s in SPA_SECTIONS
    ensures ResolveRoute(dec, Prefix(l) + "/" + s) == File(Shell(l))
    ensures ResolveRoute(dec, "/en/" + s) == Redirect("/" + s, 301)
  {
    hide Plain, RouteOf, IncompleteBlog, ResolveRoute, Decodes;
    SectionPage(s, l);
    PlainRoute(dec, Prefix(l) + "/" + s);
    OldEnglishPath(s);
    OldEnglishPage(s);
    SectionsAreDoors(s);
    DoorsArePlain("/" + s);
    PlainRoute(dec, "/en/" + s);
  }

  // ---- three hops are needed --------------------------------------------------

  lemma PlainRoute(dec: Decoder, u: string)
    requires Decodes(dec) && Plain(u) && IncompleteBlog(u).None?
    requires RouteOf(u).Redirect? ==> Plain(RouteOf(u).target)
    ensures ResolveRoute(dec, u) == RouteOf(u)
  {
    PlainIsSafe(u);
    PlainIsCanonical(u);
    if RouteOf(u).Redirect? { PlainIsSafe(RouteOf(u).target); }
    hide RouteOf, IncompleteBlog, Plain;
  }

  lemma NotBelowLocale(u: string)
    requires |u| > 1 && u[1] == 's'
    ensures !Section(u, "/uk") && !Section(u, "/ru") && !Section(u, "/en")
    ensures !BlogPost(u, "") && !BlogPost(u, "/uk") && !BlogPost(u, "/ru")
    ensures !Specimen(u, "") && !Specimen(u, "/uk") && !Specimen(u, "/ru")
    ensures !SectionChild(u, "/uk") && !SectionChild(u, "/ru")
  {
    assert ("" + "/blog/")[1] == 'b' && ("" + "/r/")[1] == 'r';
    forall s | s in SPA_SECTIONS ensures !Starts(u, "/uk" + "/" + s + "/") && !Starts(u, "/ru" + "/" + s + "/") {
      assert ("/uk" + "/" + s + "/")[1] == 'u' && ("/ru" + "/" + s + "/")[1] == 'r';
    }
  }

  lemma NotASection(u: string)
    requires |u| > 1 && u[1] == 's'
    ensures !Section(u, "") && !SectionChild(u, "")
  {
    forall s | s in SPA_SECTIONS ensures s != "" && s[0] != 's' {
    }
    forall s | s in SPA_SECTIONS ensures !Starts(u, "" + "/" + s + "/") {
      assert ("" + "/" + s + "/")[1] == s[0];
    }
    assert u[1..] != "" && u[1..][0] == 's';
  }

  lemma StreamIsPlain()
    ensures Plain("/stream") && IncompleteBlog("/stream").None? && "/stream" !in FRONT_DOORS
  {
    if "/stream" in FRONT_DOORS { DoorsStay("/stream"); }
    assert |"/stream"| == 7 && |"/blog/en"| == 8;
  }

  lemma StreamRoute()
    ensures RouteOf("/stream") == Redirect("/live", 301)
  {
    var u := "/stream";
    NotBelowLocale(u);
    NotASection(u);
    hide Section, BlogPost, Specimen, SectionChild, Landing, ChildRoute, Starts;
    assert |u| == 7 && u[1] == 's';
    assert u != "/" && u != "/index.html" && u != "/en" && u != "/uk" && u != "/ru" && u != "/admin/blog";
    assert Retired(u) == Redirect("/live", 301);
  }

  lemma SlashedStream(dec: Decoder)
    requires Decodes(dec)
    ensures ResolveRoute(dec, "/stream/") == Redirect("/stream", 301)
  {
    var raw := "/stream/";
    StreamIsPlain();
    NoSchemeWithoutColon(raw);
    PlainIsCanonical("/stream");
    PlainIsSafe("/stream");
    assert raw[..7] == "/stream";
    assert Stripped(raw) == "/stream";
    assert Canonical(raw) == "/stream";
    hide RouteOf, IncompleteBlog, Plain, Canonical;
  }

  /** An old link with a trailing slash, followed by a reader who chose Ukrainian. */
  lemma ThreeHopsHappen(dec: Decoder)
    requires Decodes(dec)
    ensures Follows(dec, Some(Uk), ["/stream/", "/stream", "/live", "/uk/live"])
  {
    hide NextPath, NextUrl;
    StreamHops(dec);
    assert '?' !in "/stream/" && '?' !in "/stream" && '?' !in "/live";
    NoQuery(dec, "/stream/");
    NoQuery(dec, "/stream");
    NoQuery(dec, "/live");
  }

  lemma StreamHops(dec: Decoder)
    requires Decodes(dec)
    ensures NextPath(dec, Some(Uk), "/stream/") == Some("/stream")
    ensures NextPath(dec, Some(Uk), "/stream") == Some("/live")
    ensures NextPath(dec, Some(Uk), "/live") == Some("/uk/live")
  {
    hide RouteOf, IncompleteBlog, Plain, Canonical, ResolveRoute, CookieTarget, Decodes;
    StreamCookies();
    StreamIsPlain();
    StreamRoute();
    SlashedStream(dec);
    PlainLive();
    PlainRoute(dec, "/stream");
  }

  lemma PlainLive()
    ensures Plain("/live")
  {
  }

  lemma StreamCookies()
    ensures CookieTarget("/stream/", Some(Uk)).None? && CookieTarget("/stream", Some(Uk)).None?
    ensures CookieTarget("/live", Some(Uk)) == Some("/uk/live")
  {
    StreamIsPlain();
    hide Plain;
    assert "/stream/"[..7] == "/stream" && WithoutSlash("/stream/") == "/stream" == WithoutSlash("/stream");
    assert WithoutSlash("/live") == "/live" && Prefix(Uk) + "/live" == "/uk/live";
  }

  lemma NoQuery(dec: Decoder, url: string)
    requires '?' !in url && NextPath(dec, Some(Uk), url).Some?
    ensures NextUrl(dec, Some(Uk), url) == NextPath(dec, Some(Uk), url)
  {
    hide NextPath;
    PartsOf(url, "");
    assert url + "" == url;
  }
}
