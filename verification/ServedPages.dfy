/** Which page each path is served, in each language, and where the retired names lead. */
module ServedPages {
  import opened Wrappers
  import opened Addresses
  import opened LocaleRoutes
  import opened LocaleLanguage

  // ---- one page, three languages ----------------------------------------------

  /** This path stands below the prefix of a language, and says nothing else about languages. */
  predicate Spelled(u: string, l: Locale, path: string) {
    u == Prefix(l) + path && |path| > 1 && path[0] == '/' && Language(u) == l
  }

  lemma SpelledOut(l: Locale, path: string)
    requires |path| > 1 && path[0] == '/' && path[1] != 'u' && path[1] != 'r'
    ensures Spelled(Prefix(l) + path, l, path)
  {
    var u := Prefix(l) + path;
    LanguageByLetters(u);
    if l.En? {
      assert u == path;
    } else {
      assert u == Prefix(l) + "/" + path[1..];
      PrefixedLanguage(u, l);
    }
  }

  lemma NoRoot(u: string, l: Locale, path: string)
    requires Spelled(u, l, path) && path != "/index.html" && path != "/en"
    ensures !IsRoot(u)
  {
    if l.En? {
      LanguageByLetters(u);
      assert u == path;
    } else {
      assert |u| > 4 && u[1] == (if l.Uk? then 'u' else 'r');
    }
  }

  /** A blog post, whatever language it is written in, is served in the language of its path. */
  lemma PostRoute(u: string, l: Locale)
    requires BlogPost(u, Prefix(l)) && !IsRoot(u)
    ensures RouteOf(u) == File(Shell(l))
  {
    PostLanguage(u, l);
    AnyPageRoutes(u);
    hide Language, Section, BlogPost, SectionChild, Specimen, Retired, ChildRoute;
  }

  lemma ChildRouteOf(u: string, l: Locale)
    requires SectionChild(u, Prefix(l)) && !IsRoot(u) && u == Prefix(l) + "/docs/findings"
    ensures RouteOf(u) == File(Shell(l))
  {
    ChildLanguage(u, l);
    AnyPageRoutes(u);
    hide Language, Section, BlogPost, SectionChild, Specimen, Retired;
  }

  predicate NoSectionPage(u: string) {
    && !SectionChild(u, "") && !SectionChild(u, "/uk") && !SectionChild(u, "/ru")
    && !Section(u, "/en") && u != "/admin/blog" && !IsRoot(u)
  }

  lemma SpecimenRoute(u: string, l: Locale)
    requires Specimen(u, Prefix(l)) && NoSectionPage(u)
    ensures RouteOf(u) == File(Shell(l))
  {
    SpecimenLanguage(u, l);
    AnyPageRoutes(u);
    hide Language, Section, BlogPost, SectionChild, Specimen, Retired, ChildRoute;
  }

  lemma RetiredRoute(u: string, l: Locale)
    requires NoSectionPage(u) && Language(u) == l && Retired(u) == File(Shell(l))
    ensures RouteOf(u) == File(Shell(l))
  {
    AnyPageRoutes(u);
    hide Language, Section, BlogPost, SectionChild, Specimen, Retired, ChildRoute;
  }

  predicate NoSectionFirst(path: string) {
    forall s | s in SPA_SECTIONS :: !Starts(path, "/" + s + "/")
  }

  lemma PrefixCancels(p: string, a: string, b: string)
    ensures Starts(p + a, p + b) <==> Starts(a, b)
  {
    if Starts(a, b) { assert p + a == p + b + a[|b|..]; }
    if Starts(p + a, p + b) {
      assert a[..|b|] == (p + a)[..|p + b|][|p|..];
      assert (p + b)[|p|..] == b;
    }
  }

  lemma NoChildHere(u: string, l: Locale, path: string)
    requires u == Prefix(l) + path && NoSectionFirst(path)
    ensures !SectionChild(u, Prefix(l))
  {
    forall s | s in SPA_SECTIONS ensures !Starts(u, Prefix(l) + "/" + s + "/") {
      assert Prefix(l) + "/" + s + "/" == Prefix(l) + ("/" + s + "/");
      PrefixCancels(Prefix(l), path, "/" + s + "/");
    }
  }

  lemma NoOldEnglish(u: string, l: Locale, path: string)
    requires Spelled(u, l, path) && path[1] != 'e'
    ensures !Section(u, "/en")
  {
    if Section(u, "/en") { EnglishSection(u); }
    hide Section;
    assert l == En ==> u[1] == path[1];
  }

  lemma NoSectionHere(u: string, l: Locale, path: string)
    requires Spelled(u, l, path) && NoSectionFirst(path)
    requires path != "/index.html" && path != "/en" && u != "/admin/blog" && path[1] != 'e'
    ensures NoSectionPage(u)
  {
    hide Section, SectionChild, Language, NoSectionFirst, IsRoot;
    NoRoot(u, l, path);
    AnyPageRoutes(u);
    NoOldEnglish(u, l, path);
    NoChildHere(u, l, path);
  }

  // ---- through the guards -----------------------------------------------------

  lemma PlainBelow(l: Locale, path: string)
    requires Plain(path)
    ensures Plain(Prefix(l) + path)
  {
    var u := Prefix(l) + path;
    forall i | 0 <= i < |u| ensures PlainChar(u[i]) {
      if i >= |Prefix(l)| { assert u[i] == path[i - |Prefix(l)|]; }
    }
  }

  lemma NoIncompleteBlog(l: Locale, path: string)
    requires |path| > 2 && !(path[1] == 'b' && |path| == 8) && path[1] != 'u' && !(path[1] == 'r' && path[2] == 'u')
    ensures IncompleteBlog(Prefix(l) + path).None?
  {
    ShortBlog(path);
    var u := Prefix(l) + path;
    if l.En? {
      assert u == path;
    } else {
      assert u[3..] == path && u[1] == (if l.Uk? then 'u' else 'r');
      BlogBelow(u);
    }
    hide IncompleteBlog;
  }

  lemma ShortBlog(path: string)
    ensures IncompleteBlog(path).Some? ==>
      |path| > 2 && ((path[1] == 'b' && |path| == 8) || path[1] == 'u' || (path[1] == 'r' && path[2] == 'u'))
  {
  }

  /** A plain path that the route table gives a page is answered with that page. */
  lemma Answered(dec: Decoder, l: Locale, path: string, name: string)
    requires Decodes(dec) && Plain(path) && RouteOf(Prefix(l) + path) == File(name)
    requires |path| > 2 && !(path[1] == 'b' && |path| == 8) && path[1] != 'u' && !(path[1] == 'r' && path[2] == 'u')
    ensures ResolveRoute(dec, Prefix(l) + path) == File(name)
  {
    hide RouteOf, Plain, IncompleteBlog, ResolveRoute, Decodes;
    PlainBelow(l, path);
    NoIncompleteBlog(l, path);
    PlainRoute(dec, Prefix(l) + path);
  }

  // ---- every page is served ---------------------------------------------------

  function Post(lang: string, slug: string): string {
    "/blog/" + (lang + "/" + slug)
  }

  lemma PostText(lang: string, slug: string)
    requires lang in {"en", "uk", "ru"}
    ensures Post(lang, slug) == ['/', 'b', 'l', 'o', 'g', '/', lang[0], lang[1], '/'] + slug
    ensures 'a' <= lang[0] <= 'z' && 'a' <= lang[1] <= 'z'
  {
  }

  lemma PlainPost(lang: string, slug: string)
    requires lang in {"en", "uk", "ru"} && IsBlogSlug(slug)
    ensures var path := Post(lang, slug); Plain(path) && |path| >= 10 && path[1] == 'b'
  {
    PostText(lang, slug);
    hide Post;
    var head := ['/', 'b', 'l', 'o', 'g', '/', lang[0], lang[1], '/'];
    forall i | 0 <= i < |head + slug| ensures PlainChar((head + slug)[i]) {
      if i >= 9 { assert (head + slug)[i] == slug[i - 9]; }
    }
  }

  lemma PostBelow(l: Locale, lang: string, slug: string)
    requires lang in {"en", "uk", "ru"} && IsBlogSlug(slug)
    ensures BlogPost(Prefix(l) + Post(lang, slug), Prefix(l))
  {
    hide Prefix, IsBlogSlug;
    var p := Prefix(l);
    var u, rest := p + Post(lang, slug), lang + "/" + slug;
    assert u == (p + "/blog/") + rest;
    assert u[|p| + 6..] == rest && rest[..3] == lang + "/" && rest[3..] == slug;
  }

  /** Posts of every language in every language of the site. */
  lemma PostIsServed(dec: Decoder, l: Locale, lang: string, slug: string)
    requires Decodes(dec) && lang in {"en", "uk", "ru"} && IsBlogSlug(slug)
    ensures ResolveRoute(dec, Prefix(l) + Post(lang, slug)) == File(Shell(l))
  {
    hide ResolveRoute, RouteOf, Decodes, IsRoot, Prefix, BlogPost, IsBlogSlug, Spelled, Shell, Post;
    var path := Post(lang, slug);
    PlainPost(lang, slug);
    PostBelow(l, lang, slug);
    SpelledOut(l, path);
    assert path[1] != "/index.html"[1] && path[1] != "/en"[1];
    NoRoot(Prefix(l) + path, l, path);
    PostRoute(Prefix(l) + path, l);
    Answered(dec, l, path, Shell(l));
  }

  predicate IsHash(hash: string) {
    8 <= |hash| <= 12 && forall i | 0 <= i < |hash| :: IsHex(hash[i])
  }

  lemma SpecimenPath(l: Locale, hash: string)
    requires IsHash(hash)
    ensures var path := "/r/" + hash;
      Plain(path) && |path| > 8 && path[1] == 'r' && path[2] == '/' && Specimen(Prefix(l) + path, Prefix(l))
  {
    var path, p := "/r/" + hash, Prefix(l);
    hide Prefix;
    var u := p + path;
    assert path == ['/', 'r', '/'] + hash;
    assert u == (p + "/r/") + hash;
    forall i | 0 <= i < |path| ensures PlainChar(path[i]) {
      if i >= 3 { assert path[i] == hash[i - 3] && IsHex(hash[i - 3]); }
    }
    forall i | |p| + 3 <= i < |u| ensures IsHex(u[i]) { assert u[i] == hash[i - |p| - 3]; }
  }

  /** Specimens, by their hash. */
  lemma SpecimenIsServed(dec: Decoder, l: Locale, hash: string)
    requires Decodes(dec) && IsHash(hash)
    ensures ResolveRoute(dec, Prefix(l) + ("/r/" + hash)) == File(Shell(l))
  {
    hide ResolveRoute, RouteOf, Decodes, IsRoot, Section, SectionChild, Plain, Specimen, Shell, IsHash;
    var path := "/r/" + hash;
    var u := Prefix(l) + path;
    SpecimenPath(l, hash);
    SpecimenLanguage(u, l);
    NoSectionR(path);
    assert path[1] != "/index.html"[1] && path[1] != "/en"[1] && u[1] != "/admin/blog"[1];
    hide Language, NoSectionFirst, Prefix;
    NoSectionHere(u, l, path);
    SpecimenRoute(u, l);
    Answered(dec, l, path, Shell(l));
  }

  lemma NoSectionR(path: string)
    requires |path| > 2 && path[1] == 'r'
    ensures NoSectionFirst(path)
  {
    forall s | s in SPA_SECTIONS ensures !Starts(path, "/" + s + "/") {
      SectionLetter(s);
      assert ("/" + s + "/")[1] == s[0];
    }
  }

  lemma LandingSpelling(k: string)
    requires k in LANDINGS
    ensures k in DOORS && |k| > 2 && k[0] == '/' && (k[1] == 'o' || k[1] == 'v' || k[1] == 'n' || k[1] == 'i')
    ensures k != "/index.html" && k != "/en" && NoSectionFirst(k)
  {
    assert k[1] == 'i' ==> k == "/iab-categories" && k[2] == 'a';
    forall s | s in SPA_SECTIONS ensures !Starts(k, "/" + s + "/") {
      var start := "/" + s + "/";
      assert start[1] == s[0] && start[|s| + 1] == '/';
      SectionLetters(s);
      if k == "/iab-categories" { assert "/iab-categories"[2] == 'a'; assert start[2] == s[1]; }
    }
  }

  lemma SectionLetters(s: string)
    requires s in SPA_SECTIONS
    ensures |s| > 1 && s[0] != 'o' && s[0] != 'v' && s[0] != 'n' && s[0] != 'a' && (s[0] == 'i' ==> s[1] == 'n')
    ensures '/' !in s
  {
  }

  lemma NoOldName(u: string)
    requires |u| > 1
    requires u[1] == 'o' || u[1] == 'v' || u[1] == 'n' || u[1] == 'i' || (|u| > 4 && (u[1] == 'u' || u[1] == 'r') && u[4] != 'a')
    ensures u != "/stream" && u != "/stream.html" && u != "/playground" && u != "/playground.html" && u != "/app/dialects"
    ensures u != "/about" && u != "/about.html" && u != "/account" && u != "/account.html"
    ensures u != "/en/about" && u != "/en/account" && u != "/admin/blog"
    ensures u != "/uk/about" && u != "/uk/account" && u != "/ru/about" && u != "/ru/account"
  {
    NoEnglishName(u);
    NoPrefixedName(u);
  }

  lemma NoEnglishName(u: string)
    requires |u| > 1 && u[1] != 's' && u[1] != 'p' && u[1] != 'a' && u[1] != 'e'
    ensures u != "/stream" && u != "/stream.html" && u != "/playground" && u != "/playground.html" && u != "/app/dialects"
    ensures u != "/about" && u != "/about.html" && u != "/account" && u != "/account.html"
    ensures u != "/en/about" && u != "/en/account" && u != "/admin/blog"
  {
  }

  lemma NoPrefixedName(u: string)
    requires |u| > 4 && (u[1] == 'u' || u[1] == 'r') ==> u[4] != 'a'
    ensures u != "/uk/about" && u != "/uk/account" && u != "/ru/about" && u != "/ru/account"
  {
  }

  lemma LandingLetter(l: Locale, k: string)
    requires |k| > 2 && (k[1] == 'o' || k[1] == 'v' || k[1] == 'n' || k[1] == 'i')
    ensures var u := Prefix(l) + k;
      |u| > 2 && if l.En? then u[1] == k[1] else |u| > 4 && (u[1] == 'u' || u[1] == 'r') && u[4] == k[1]
  {
  }

  lemma LandingRetired(l: Locale, k: string)
    requires k in LANDINGS
    ensures Retired(Prefix(l) + k) == File(Shell(l))
  {
    hide Landing, LANDINGS, DOORS, NoSectionFirst, Language;
    LandingSpelling(k);
    LandingBelow(l, k);
    var u := Prefix(l) + k;
    LandingRoutes(u);
    LandingLetter(l, k);
    NoOldName(u);
    assert Prefix(En) == "" && Prefix(Uk) == "/uk" && Prefix(Ru) == "/ru";
    hide Prefix;
  }

  lemma LandingBelow(l: Locale, k: string)
    requires k in LANDINGS
    ensures Landing(Prefix(l) + k, Prefix(l)) && Language(Prefix(l) + k) == l
  {
    var u := Prefix(l) + k;
    assert u[|Prefix(l)|..] == k;
    LandingLanguage(u, l);
  }

  /** Landing pages. */
  lemma LandingIsServed(dec: Decoder, l: Locale, k: string)
    requires Decodes(dec) && k in LANDINGS
    ensures ResolveRoute(dec, Prefix(l) + k) == File(Shell(l))
  {
    hide ResolveRoute, RouteOf, Decodes, IsRoot, Section, SectionChild, Plain, Landing, Shell, Language, Retired, Prefix,
         NoSectionFirst, LANDINGS, DOORS;
    LandingSpelling(k);
    LandingBelow(l, k);
    LandingRetired(l, k);
    DoorsArePlain(k);
    var u := Prefix(l) + k;
    LandingLetter(l, k);
    NoOldName(u);
    NoSectionHere(u, l, k);
    RetiredRoute(u, l);
    Answered(dec, l, k, Shell(l));
  }

  lemma NoPageHere(l: Locale, path: string)
    requires |path| > 1 && path[0] == '/' && path[1] == 'a'
    ensures var u, p := Prefix(l) + path, Prefix(l);
      !Section(u, p) && !BlogPost(u, p) && !Specimen(u, p) && NoSectionFirst(path)
  {
    var p := Prefix(l);
    hide Prefix;
    var u := p + path;
    assert u[|p| + 1] == path[1] && u[|p| + 1..] == path[1..];
    forall s | s in SPA_SECTIONS ensures path[1..] != s && !Starts(path, "/" + s + "/") {
      SectionLetters(s);
      assert ("/" + s + "/")[1] == s[0] && path[1..][0] == 'a';
    }
    assert (p + "/blog/")[|p| + 1] == 'b' && (p + "/r/")[|p| + 1] == 'r';
  }

  /** A page of its own, not a section's, comes from the last part of the table. */
  lemma OwnPageRoute(l: Locale, path: string)
    requires |path| > 1 && path[0] == '/' && path[1] == 'a' && Prefix(l) + path != "/admin/blog"
    ensures RouteOf(Prefix(l) + path) == Retired(Prefix(l) + path)
  {
    hide Section, BlogPost, SectionChild, Specimen, Retired, Language, IsRoot, ChildRoute, RouteOf, NoSectionFirst;
    var u := Prefix(l) + path;
    SpelledOut(l, path);
    NoPageHere(l, path);
    assert path[1] != "/index.html"[1] && path[1] != "/en"[1];
    NoSectionHere(u, l, path);
    AnyPageRoutes(u);
    assert Prefix(En) == "" && Prefix(Uk) == "/uk" && Prefix(Ru) == "/ru";
    NothingElse(u);
  }

  lemma NothingElse(u: string)
    requires NoSectionPage(u)
    requires !Section(u, "") && !BlogPost(u, "") && !Specimen(u, "")
    requires !Section(u, "/uk") && !BlogPost(u, "/uk") && !Specimen(u, "/uk")
    requires !Section(u, "/ru") && !BlogPost(u, "/ru") && !Specimen(u, "/ru")
    ensures RouteOf(u) == Retired(u)
  {
    hide Section, BlogPost, SectionChild, Specimen, Retired, Language, ChildRoute;
  }

  lemma OwnPages(l: Locale)
    ensures Retired(Prefix(l) + "/about") == File(About(l)) && Retired(Prefix(l) + "/account") == File(Account(l))
    ensures Prefix(l) + "/about" != "/admin/blog" && Prefix(l) + "/account" != "/admin/blog"
  {
    hide Retired;
    assert "/uk" + "/about" == "/uk/about" && "/ru" + "/about" == "/ru/about" && "" + "/about" == "/about";
    assert "/uk" + "/account" == "/uk/account" && "/ru" + "/account" == "/ru/account" && "" + "/account" == "/account";
    RetiredAbout();
    RetiredAccount();
    assert "/about"[2] != "/admin/blog"[2] && "/account"[2] != "/admin/blog"[2];
  }

  lemma RetiredAbout()
    ensures Retired("/about") == File(About(En)) && Retired("/uk/about") == File(About(Uk)) && Retired("/ru/about") == File(About(Ru))
  {
    hide Landing;
  }

  lemma RetiredAccount()
    ensures Retired("/account") == File(Account(En))
    ensures Retired("/uk/account") == File(Account(Uk)) && Retired("/ru/account") == File(Account(Ru))
  {
    hide Landing;
  }

  /** The two pages with a file of their own. */
  lemma OwnPageIsServed(dec: Decoder, l: Locale)
    requires Decodes(dec)
    ensures ResolveRoute(dec, Prefix(l) + "/about") == File(About(l))
    ensures ResolveRoute(dec, Prefix(l) + "/account") == File(Account(l))
  {
    hide ResolveRoute, RouteOf, Decodes, Retired, Plain, About, Account, Prefix;
    OwnPages(l);
    PlainPages();
    OwnPageRoute(l, "/about");
    OwnPageRoute(l, "/account");
    Answered(dec, l, "/about", About(l));
    Answered(dec, l, "/account", Account(l));
  }

  lemma FindingsBelow(l: Locale)
    ensures SectionChild(Prefix(l) + "/docs/findings", Prefix(l)) && !IsRoot(Prefix(l) + "/docs/findings")
  {
    hide IsRoot, SectionChild, IsSegment, Prefix, Language;
    var u, p, s := Prefix(l) + "/docs/findings", Prefix(l), "docs";
    SpelledOut(l, "/docs/findings");
    assert "/docs/findings"[1] != "/index.html"[1] && "/docs/findings"[1] != "/en"[1];
    NoRoot(u, l, "/docs/findings");
    assert "/" + s + "/" + "findings" == "/docs/findings" && |s| == 4;
    assert u == (p + "/" + s + "/") + "findings";
    ChildByParts(u, p, s, "findings");
  }

  lemma ChildByParts(u: string, p: string, s: string, child: string)
    requires s in SPA_SECTIONS && u == (p + "/" + s + "/") + child && child == "findings"
    ensures SectionChild(u, p)
  {
    var start := p + "/" + s + "/";
    assert u[|p| + |s| + 2..] == child;
    assert IsSegment("findings");
    hide IsSegment, SPA_SECTIONS;
    assert Starts(u, start);
  }

  /** The one page below a section. */
  lemma FindingsIsServed(dec: Decoder, l: Locale)
    requires Decodes(dec)
    ensures ResolveRoute(dec, Prefix(l) + "/docs/findings") == File(Shell(l))
  {
    hide ResolveRoute, RouteOf, Decodes, Plain, Prefix, SectionChild, Shell;
    FindingsBelow(l);
    PlainPages();
    ChildRouteOf(Prefix(l) + "/docs/findings", l);
    Answered(dec, l, "/docs/findings", Shell(l));
  }

  // ---- and nothing else -------------------------------------------------------

  /** The pages of the site; each but the last exists in three languages. */
  datatype SitePage =
    | Tool(section: string)
    | BlogText(lang: string, slug: string)
    | Findings
    | Hash(hash: string)
    | Promotion(path: string)
    | AboutPage
    | AccountPage
    | Admin

  predicate Exists(page: SitePage, l: Locale) {
    match page
    case Tool(s) => s in SPA_SECTIONS
    case BlogText(lang, slug) => lang in {"en", "uk", "ru"} && IsBlogSlug(slug)
    case Hash(hash) => IsHash(hash)
    case Promotion(k) => k in LANDINGS
    case Admin => l == En
    case _ => true
  }

  function PathTo(page: SitePage): string {
    match page
    case Tool(s) => "/" + s
    case BlogText(lang, slug) => Post(lang, slug)
    case Findings => "/docs/findings"
    case Hash(hash) => "/r/" + hash
    case Promotion(k) => k
    case AboutPage => "/about"
    case AccountPage => "/account"
    case Admin => "/admin/blog"
  }

  function FileFor(page: SitePage, l: Locale): string {
    match page
    case AboutPage => About(l)
    case AccountPage => Account(l)
    case _ => Shell(l)
  }

  /** This path leads to a page of the site, and that is its file. */
  ghost predicate LeadsTo(u: string, name: string) {
    exists page, l | Exists(page, l) :: u == Prefix(l) + PathTo(page) && name == FileFor(page, l)
  }

  lemma Leads(u: string, page: SitePage, l: Locale)
    requires Exists(page, l) && u == Prefix(l) + PathTo(page)
    ensures LeadsTo(u, FileFor(page, l))
  {
  }

  lemma SectionLeads(u: string, l: Locale)
    requires Section(u, Prefix(l))
    ensures LeadsTo(u, Shell(l))
  {
    hide LeadsTo, Prefix;
    var s := u[|Prefix(l)| + 1..];
    assert u == Prefix(l) + "/" + s == Prefix(l) + ("/" + s);
    Leads(u, Tool(s), l);
  }

  lemma TaggedParts(rest: string) returns (lang: string)
    requires Starts(rest, "en/") || Starts(rest, "uk/") || Starts(rest, "ru/")
    ensures lang in {"en", "uk", "ru"} && rest == lang + "/" + rest[3..]
  {
    lang := if Starts(rest, "en/") then "en" else if Starts(rest, "uk/") then "uk" else "ru";
    assert rest == rest[..3] + rest[3..] && rest[..3] == lang + "/";
  }

  lemma PostLeads(u: string, l: Locale)
    requires BlogPost(u, Prefix(l))
    ensures LeadsTo(u, Shell(l))
  {
    hide LeadsTo, Prefix, IsBlogSlug;
    var p := Prefix(l);
    var rest := u[|p| + 6..];
    assert u == (p + "/blog/") + rest == p + ("/blog/" + rest);
    var lang := TaggedParts(rest);
    Leads(u, BlogText(lang, rest[3..]), l);
  }

  lemma SpecimenLeads(u: string, l: Locale)
    requires Specimen(u, Prefix(l))
    ensures LeadsTo(u, Shell(l))
  {
    hide LeadsTo, Prefix;
    var p := Prefix(l);
    var hash := u[|p| + 3..];
    assert u == (p + "/r/") + hash == p + ("/r/" + hash);
    Leads(u, Hash(hash), l);
  }

  lemma ChildLeads(u: string, l: Locale)
    requires ChildRoute(u, Prefix(l), Shell(l)).File?
    ensures ChildRoute(u, Prefix(l), Shell(l)) == File(Shell(l)) && LeadsTo(u, Shell(l))
  {
    hide LeadsTo, Prefix;
    Leads(u, Findings, l);
  }

  lemma LandingLeads(u: string, l: Locale)
    requires Landing(u, Prefix(l))
    ensures LeadsTo(u, Shell(l))
  {
    hide LeadsTo, Prefix, LANDINGS;
    var k := u[|Prefix(l)|..];
    assert u == Prefix(l) + k;
    Leads(u, Promotion(k), l);
  }

  lemma OwnLeads(l: Locale)
    ensures LeadsTo(Prefix(l) + "/about", About(l)) && LeadsTo(Prefix(l) + "/account", Account(l))
    ensures LeadsTo("/admin/blog", Shell(En))
  {
    hide LeadsTo;
    Leads(Prefix(l) + "/about", AboutPage, l);
    Leads(Prefix(l) + "/account", AccountPage, l);
    assert "" + "/admin/blog" == "/admin/blog";
    Leads("/admin/blog", Admin, En);
  }

  lemma RetiredLeads(u: string)
    ensures Retired(u).File? ==> LeadsTo(u, Retired(u).name)
  {
    hide LeadsTo, Landing;
    OwnLeads(En);
    OwnLeads(Uk);
    OwnLeads(Ru);
    assert "" + "/about" == "/about" && "/uk" + "/about" == "/uk/about" && "/ru" + "/about" == "/ru/about";
    assert "" + "/account" == "/account" && "/uk" + "/account" == "/uk/account" && "/ru" + "/account" == "/ru/account";
    if Landing(u, "") { LandingLeads(u, En); }
    if Landing(u, "/uk") { LandingLeads(u, Uk); }
    if Landing(u, "/ru") { LandingLeads(u, Ru); }
  }

  lemma PageLeads(u: string, l: Locale)
    ensures Section(u, Prefix(l)) || BlogPost(u, Prefix(l)) || Specimen(u, Prefix(l)) ==> LeadsTo(u, Shell(l))
    ensures var r := ChildRoute(u, Prefix(l), Shell(l)); r.NoRoute? || (r == File(Shell(l)) && LeadsTo(u, Shell(l)))
  {
    hide LeadsTo;
    if Section(u, Prefix(l)) { SectionLeads(u, l); }
    if BlogPost(u, Prefix(l)) { PostLeads(u, l); }
    if Specimen(u, Prefix(l)) { SpecimenLeads(u, l); }
    if ChildRoute(u, Prefix(l), Shell(l)).File? { ChildLeads(u, l); }
    hide Section, BlogPost, Specimen, Prefix;
  }

  lemma RouteLeads(u: string)
    ensures RouteOf(u).File? ==> LeadsTo(u, RouteOf(u).name)
  {
    hide LeadsTo, Section, BlogPost, SectionChild, Specimen, Retired, ChildRoute;
    PageLeads(u, En);
    PageLeads(u, Uk);
    PageLeads(u, Ru);
    OwnLeads(En);
    RetiredLeads(u);
  }

  lemma AdminIsServed(dec: Decoder)
    requires Decodes(dec)
    ensures ResolveRoute(dec, "/admin/blog") == File(Shell(En))
  {
    hide ResolveRoute, RouteOf, Decodes, Plain;
    AdminRoute();
    PlainAdmin();
    assert Prefix(En) + "/admin/blog" == "/admin/blog";
    Answered(dec, En, "/admin/blog", Shell(En));
  }

  lemma PlainAdmin()
    ensures Plain("/admin/blog") && |"/admin/blog"| > 8 && "/admin/blog"[1] == 'a'
  {
  }

  lemma AdminRoute()
    ensures RouteOf("/admin/blog") == File(Shell(En))
  {
    hide Section, BlogPost, SectionChild, Specimen, Retired, ChildRoute, Language;
    var u := "/admin/blog";
    NoPageHere(En, u);
    NoChildHere(u, En, u) by { assert Prefix(En) + u == u; }
    assert Prefix(En) + u == u;
    EnglishPaths();
    AnyPageRoutes(u);
  }

  /**
   The whole site: a path is answered with a file exactly if it is, as it stands, the path of a
   page in some language, and then with the file of that page in that language.
   */
  lemma ServedExactly(dec: Decoder, raw: string, name: string)
    requires Decodes(dec)
    ensures ResolveRoute(dec, raw) == File(name) <==> LeadsTo(raw, name)
  {
    if ResolveRoute(dec, raw) == File(name) {
      assert Canonical(raw) == raw && RouteOf(raw) == File(name) by { ServedIsCanonical(dec, raw); }
      RouteLeads(raw);
    }
    if LeadsTo(raw, name) {
      var page, l :| Exists(page, l) && raw == Prefix(l) + PathTo(page) && name == FileFor(page, l);
      PageIsServed(dec, page, l);
    }
  }

  lemma ServedIsCanonical(dec: Decoder, raw: string)
    requires ResolveRoute(dec, raw).File?
    ensures Canonical(raw) == raw && RouteOf(raw) == ResolveRoute(dec, raw)
  {
    assert RouteOf("/") == Redirect("/inspector", 302);
    hide RouteOf, IncompleteBlog, DecodeRounds;
  }

  lemma PageIsServed(dec: Decoder, page: SitePage, l: Locale)
    requires Decodes(dec) && Exists(page, l)
    ensures ResolveRoute(dec, Prefix(l) + PathTo(page)) == File(FileFor(page, l))
  {
    hide ResolveRoute, Decodes, IsHash, IsBlogSlug, LANDINGS, SPA_SECTIONS, Prefix, Post;
    match page
    case Tool(s) =>
      SectionsAreServed(dec, s, l);
      assert Prefix(l) + "/" + s == Prefix(l) + ("/" + s);
    case BlogText(lang, slug) => PostIsServed(dec, l, lang, slug);
    case Findings => FindingsIsServed(dec, l);
    case Hash(hash) => SpecimenIsServed(dec, l, hash);
    case Promotion(k) => LandingIsServed(dec, l, k);
    case AboutPage => OwnPageIsServed(dec, l);
    case AccountPage => OwnPageIsServed(dec, l);
    case Admin =>
      AdminIsServed(dec);
      NoPrefix();
      assert "" + "/admin/blog" == "/admin/blog";
  }

  lemma NoPrefix()
    ensures Prefix(En) == ""
  {
  }
}
