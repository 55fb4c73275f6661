/** Redirects and pages keep the reader's language: the one of the path, or the one of the cookie. */
module LocaleLanguage {
  import opened Wrappers
  import opened Addresses
  import opened LocaleRoutes

  predicate Below(p: string, l: Locale)
    requires !l.En?
  {
    p == Prefix(l) || Starts(p, Prefix(l) + "/")
  }

  /** The language of a canonical path: that of its locale prefix, and English without one. */
  function Language(p: string): Locale {
    if Below(p, Uk) then Uk else if Below(p, Ru) then Ru else En
  }

  lemma LanguageByLetters(p: string)
    ensures Below(p, Uk) <==>
      |p| >= 3 && p[0] == '/' && p[1] == 'u' && p[2] == 'k' && (|p| > 3 ==> p[3] == '/')
    ensures Below(p, Ru) <==>
      |p| >= 3 && p[0] == '/' && p[1] == 'r' && p[2] == 'u' && (|p| > 3 ==> p[3] == '/')
  {
    LettersOf(p, "/uk");
    LettersOf(p, "/ru");
  }

  lemma LettersOf(p: string, prefix: string)
    requires |prefix| == 3
    ensures (p == prefix || Starts(p, prefix + "/")) <==>
      |p| >= 3 && p[0] == prefix[0] && p[1] == prefix[1] && p[2] == prefix[2] && (|p| > 3 ==> p[3] == '/')
  {
    if |p| == 3 && p[0] == prefix[0] && p[1] == prefix[1] && p[2] == prefix[2] { assert p == prefix; }
    if |p| > 3 {
      assert p[..4] == [p[0], p[1], p[2], p[3]] && prefix + "/" == [prefix[0], prefix[1], prefix[2], '/'];
      assert Starts(p, prefix + "/") <==> p[..4] == prefix + "/";
    }
  }

  // ---- every kind of page belongs to its prefix -------------------------------

  /** What stands below a prefix is of that prefix's language. */
  lemma PrefixedLanguage(u: string, l: Locale)
    requires !l.En? && Starts(u, Prefix(l) + "/")
    ensures Language(u) == l
  {
    assert Prefix(Uk) + "/" == "/uk/" && Prefix(Ru) + "/" == "/ru/";
    LanguageByLetters(u);
    assert u[1] == (Prefix(l) + "/")[1];
  }

  lemma StartsLonger(u: string, a: string, b: string)
    requires Starts(u, a + b)
    ensures Starts(u, a)
  {
    assert (a + b)[..|a|] == a;
  }

  lemma SectionLanguage(u: string, l: Locale)
    requires Section(u, Prefix(l))
    ensures Language(u) == l
  {
    if l.En? {
      SectionLetter(u[1..]);
      assert u[1] == u[1..][0];
      LanguageByLetters(u);
    } else {
      PrefixedLanguage(u, l);
    }
  }

  lemma ChildLanguage(u: string, l: Locale)
    requires SectionChild(u, Prefix(l))
    ensures Language(u) == l
  {
    var s :| s in SPA_SECTIONS && Starts(u, Prefix(l) + "/" + s + "/");
    StartsLonger(u, Prefix(l) + "/" + s, "/");
    if l.En? {
      SectionLetter(s);
      assert ("" + "/" + s)[1] == s[0] == u[1];
      LanguageByLetters(u);
    } else {
      StartsLonger(u, Prefix(l) + "/", s);
      PrefixedLanguage(u, l);
    }
  }

  lemma PostLanguage(u: string, l: Locale)
    requires BlogPost(u, Prefix(l))
    ensures Language(u) == l
  {
    if l.En? {
      assert ("" + "/blog/")[1] == 'b' == u[1];
      LanguageByLetters(u);
    } else {
      assert Prefix(l) + "/blog/" == Prefix(l) + "/" + "blog/";
      StartsLonger(u, Prefix(l) + "/", "blog/");
      PrefixedLanguage(u, l);
    }
  }

  lemma SpecimenLanguage(u: string, l: Locale)
    requires Specimen(u, Prefix(l))
    ensures Language(u) == l
  {
    if l.En? {
      assert ("" + "/r/")[2] == '/' == u[2];
      LanguageByLetters(u);
    } else {
      assert Prefix(l) + "/r/" == Prefix(l) + "/" + "r/";
      StartsLonger(u, Prefix(l) + "/", "r/");
      PrefixedLanguage(u, l);
    }
  }

  lemma LandingLetters(k: string)
    requires k in LANDINGS
    ensures |k| > 1 && k[0] == '/' && k[1] != 'u' && k[1] != 'r'
  {
  }

  lemma EnglishByLetter(u: string)
    requires |u| > 1 && u[1] != 'u' && u[1] != 'r'
    ensures Language(u) == En
  {
    LanguageByLetters(u);
  }

  lemma PrefixByParts(u: string, p: string, k: string)
    requires Starts(u, p) && k == u[|p|..] && k != "" && k[0] == '/'
    ensures Starts(u, p + "/") && u == p + k
  {
    assert u == p + k && k == "/" + k[1..];
    assert u == p + "/" + k[1..];
  }

  lemma LandingLanguage(u: string, l: Locale)
    requires Landing(u, Prefix(l))
    ensures Language(u) == l
  {
    var k := u[|Prefix(l)|..];
    LandingLetters(k);
    hide LANDINGS, Language;
    LanguageByLetters(u);
    if l.En? {
      EnglishByLetter(u);
    } else {
      PrefixByParts(u, Prefix(l), k);
      PrefixedLanguage(u, l);
    }
  }

  // ---- what a path is answered with -------------------------------------------

  function About(l: Locale): string {
    match l
    case En => "/about.en.html"
    case Uk => "/about.uk.html"
    case Ru => "/about.ru.html"
  }

  function Account(l: Locale): string {
    match l
    case En => "/account.en.html"
    case Uk => "/account.uk.html"
    case Ru => "/account.ru.html"
  }

  /** The answer of the route table speaks this language. */
  predicate Speaks(r: Route, l: Locale) {
    match r
    case NoRoute => true
    case File(name) => name == Shell(l) || name == About(l) || name == Account(l)
    case Redirect(target, _) => Language(target) == l
  }

  lemma EnglishPaths()
    ensures Language("/inspector") == En && Language("/live") == En && Language("/dialects") == En
    ensures Language("/about") == En && Language("/account") == En && Language("/blog") == En
    ensures Language("/") == En && Language("/index.html") == En && Language("/en") == En && Language("/admin/blog") == En
  {
    LanguageByLetters("/inspector");
    LanguageByLetters("/live");
    LanguageByLetters("/dialects");
    LanguageByLetters("/about");
    LanguageByLetters("/account");
    LanguageByLetters("/blog");
    LanguageByLetters("/");
    LanguageByLetters("/index.html");
    LanguageByLetters("/en");
    LanguageByLetters("/admin/blog");
  }

  lemma OldEnglishPaths()
    ensures Language("/stream") == En && Language("/stream.html") == En && Language("/playground") == En
    ensures Language("/playground.html") == En && Language("/app/dialects") == En && Language("/about.html") == En
    ensures Language("/account.html") == En && Language("/en/about") == En && Language("/en/account") == En
  {
    LanguageByLetters("/stream");
    LanguageByLetters("/stream.html");
    LanguageByLetters("/playground");
    LanguageByLetters("/playground.html");
    LanguageByLetters("/app/dialects");
    LanguageByLetters("/about.html");
    LanguageByLetters("/account.html");
    LanguageByLetters("/en/about");
    LanguageByLetters("/en/account");
  }

  lemma PrefixedPaths()
    ensures Language("/uk") == Uk && Language("/uk/inspector") == Uk && Language("/uk/blog") == Uk
    ensures Language("/uk/about") == Uk && Language("/uk/account") == Uk
    ensures Language("/ru") == Ru && Language("/ru/inspector") == Ru && Language("/ru/blog") == Ru
    ensures Language("/ru/about") == Ru && Language("/ru/account") == Ru
  {
    LanguageByLetters("/uk");
    LanguageByLetters("/uk/inspector");
    LanguageByLetters("/uk/blog");
    LanguageByLetters("/uk/about");
    LanguageByLetters("/uk/account");
    LanguageByLetters("/ru");
    LanguageByLetters("/ru/inspector");
    LanguageByLetters("/ru/blog");
    LanguageByLetters("/ru/about");
    LanguageByLetters("/ru/account");
  }

  lemma LandingRoutes(u: string)
    ensures Landing(u, "") ==> Language(u) == En
    ensures Landing(u, "/uk") ==> Language(u) == Uk
    ensures Landing(u, "/ru") ==> Language(u) == Ru
  {
    if Landing(u, "") { LandingLanguage(u, En); }
    if Landing(u, "/uk") { LandingLanguage(u, Uk); }
    if Landing(u, "/ru") { LandingLanguage(u, Ru); }
  }

  lemma RetiredSpeaks(u: string)
    ensures Speaks(Retired(u), Language(u))
  {
    EnglishPaths();
    OldEnglishPaths();
    PrefixedPaths();
    LandingRoutes(u);
    hide Language, Landing;
  }

  lemma PageRoutes(u: string, l: Locale)
    ensures Section(u, Prefix(l)) || BlogPost(u, Prefix(l)) || SectionChild(u, Prefix(l)) || Specimen(u, Prefix(l)) ==>
      Language(u) == l
  {
    if Section(u, Prefix(l)) { SectionLanguage(u, l); }
    if BlogPost(u, Prefix(l)) { PostLanguage(u, l); }
    if SectionChild(u, Prefix(l)) { ChildLanguage(u, l); }
    if Specimen(u, Prefix(l)) { SpecimenLanguage(u, l); }
  }

  lemma EnglishSection(u: string)
    requires Section(u, "/en")
    ensures Language(u) == En && |u| > 3 && u[1] == 'e' && Language(u[3..]) == En
  {
    SectionLetter(u[4..]);
    assert ("/en" + "/")[1] == 'e' == u[1] && ("/en" + "/")[3] == '/' == u[3];
    assert u[3..][1] == u[4..][0];
    LanguageByLetters(u);
    LanguageByLetters(u[3..]);
  }

  lemma AnyPageRoutes(u: string)
    ensures Section(u, "") || BlogPost(u, "") || SectionChild(u, "") || Specimen(u, "") ==> Language(u) == En
    ensures Section(u, "/uk") || BlogPost(u, "/uk") || SectionChild(u, "/uk") || Specimen(u, "/uk") ==> Language(u) == Uk
    ensures Section(u, "/ru") || BlogPost(u, "/ru") || SectionChild(u, "/ru") || Specimen(u, "/ru") ==> Language(u) == Ru
  {
    PageRoutes(u, En);
    PageRoutes(u, Uk);
    PageRoutes(u, Ru);
    hide Language, Section, BlogPost, SectionChild, Specimen;
  }

  lemma SpeakingPages()
    ensures Speaks(File("/index.en.html"), En) && Speaks(File("/index.uk.html"), Uk) && Speaks(File("/index.ru.html"), Ru)
    ensures forall u, prefix :: Speaks(ChildRoute(u, prefix, "/index.en.html"), En)
    ensures forall u, prefix :: Speaks(ChildRoute(u, prefix, "/index.uk.html"), Uk)
    ensures forall u, prefix :: Speaks(ChildRoute(u, prefix, "/index.ru.html"), Ru)
    ensures forall t, status :: Speaks(Redirect(t, status), Language(t))
  {
  }

  predicate IsRoot(u: string) {
    u == "/" || u == "/index.html" || u == "/en" || u == "/uk" || u == "/ru"
  }

  lemma RootSpeaks(u: string)
    requires IsRoot(u)
    ensures Speaks(RouteOf(u), Language(u))
  {
    hide Language, Retired, Section;
    EnglishPaths();
    PrefixedPaths();
  }

  lemma PageSpeaks(u: string)
    requires !IsRoot(u) && u != "/admin/blog" && !Section(u, "/en")
    ensures Speaks(RouteOf(u), Language(u))
  {
    hide Language, Section, BlogPost, SectionChild, Specimen, Retired, ChildRoute, Speaks;
    AnyPageRoutes(u);
    RetiredSpeaks(u);
    SpeakingPages();
  }

  /** Whatever a canonical path is answered with, a page or a redirect, is of the language of the path. */
  lemma RouteSpeaks(u: string)
    ensures Speaks(RouteOf(u), Language(u))
  {
    if IsRoot(u) {
      RootSpeaks(u);
    } else if u == "/admin/blog" || Section(u, "/en") {
      hide Language, Section, BlogPost, SectionChild, Specimen, Retired, ChildRoute, Speaks;
      AnyPageRoutes(u);
      EnglishPaths();
      SpeakingPages();
      if Section(u, "/en") { EnglishSection(u); }
    } else {
      PageSpeaks(u);
    }
  }

  lemma BlogSpeaks(u: string)
    ensures IncompleteBlog(u).Some? ==> Language(IncompleteBlog(u).value) == Language(u)
  {
    EnglishPaths();
    PrefixedPaths();
    BlogPrefixes();
    hide Language;
  }

  lemma BlogPrefixes()
    ensures Language("/blog/en") == En && Language("/blog/uk") == En && Language("/blog/ru") == En
    ensures Language("/uk/blog/en") == Uk && Language("/uk/blog/uk") == Uk && Language("/uk/blog/ru") == Uk
    ensures Language("/ru/blog/en") == Ru && Language("/ru/blog/uk") == Ru && Language("/ru/blog/ru") == Ru
  {
    LanguageByLetters("/blog/en");
    LanguageByLetters("/blog/uk");
    LanguageByLetters("/blog/ru");
    LanguageByLetters("/uk/blog/en");
    LanguageByLetters("/uk/blog/uk");
    LanguageByLetters("/uk/blog/ru");
    LanguageByLetters("/ru/blog/en");
    LanguageByLetters("/ru/blog/uk");
    LanguageByLetters("/ru/blog/ru");
  }

  /** The same of any path at all, taken in its canonical form. */
  lemma AnswerSpeaks(dec: Decoder, raw: string)
    ensures Speaks(ResolveRoute(dec, raw), Language(Canonical(raw)))
  {
    RouteSpeaks(Canonical(raw));
    BlogSpeaks(Canonical(raw));
    hide Language, RouteOf, IncompleteBlog, Canonical, SameOrigin, Printable, DecodeRounds;
  }

  // ---- chains keep the language -----------------------------------------------

  lemma DoorLanguage(k: string)
    requires k in FRONT_DOORS
    ensures Language(k) == En
  {
    LanguageByLetters(k);
    if k != "/" { DoorsHaveNoLocale(k); }
  }

  lemma RootSpellings()
    ensures Language(Canonical("")) == En && Language(Canonical("/")) == En && Language(Canonical("//")) == En
  {
    LanguageByLetters("/");
    LanguageByLetters("");
    var p := "//";
    assert p[..1] == "/" && "/"[..0] == "";
    assert Stripped(p) == Stripped("/") == Stripped("") == "";
  }

  lemma SlashStripped(k: string)
    requires Plain(k)
    ensures Canonical(k + "/") == k
  {
    PlainIsCanonical(k);
    hide Plain, Lower;
    var p := k + "/";
    assert p[..|p| - 1] == k && p != "/";
    assert Stripped(p) == Stripped(k);
  }

  /** A front door as the cookie table knows it, with one slash behind it or without, is an English path. */
  lemma SlashedDoor(p: string)
    requires WithoutSlash(p) in FRONT_DOORS
    ensures Language(Canonical(p)) == En
  {
    hide Language, Canonical, Plain, FRONT_DOORS;
    var k := WithoutSlash(p);
    DoorLanguage(k);
    if k == "/" {
      RootSpellings();
      assert p == "" || p == "/" || p == "//";
    } else {
      DoorsArePlain(k);
      PlainIsCanonical(k);
      SlashStripped(k);
      assert p == k || p == k + "/";
    }
  }

  lemma DoorsOrRoot(u: string)
    ensures u in FRONT_DOORS ==> u in DOORS || u == "/"
  {
  }

  lemma DoorStarts(k: string)
    requires k in DOORS
    ensures k != "" && k[0] == '/'
  {
    DoorsArePlain(k);
  }

  lemma LocalisedLanguage(k: string, l: Locale)
    requires k in FRONT_DOORS && !l.En?
    ensures Language(Localised(k, l)) == l && Plain(Localised(k, l))
  {
    hide Language, Plain, DOORS;
    if k == "/" {
      PrefixedPaths();
      LocaleRootsArePlain();
    } else {
      DoorsOrRoot(k);
      hide FRONT_DOORS;
      BelowLocale(k, l);
      DoorStarts(k);
      assert (Prefix(l) + k)[|Prefix(l)|..] == k;
      PrefixByParts(Prefix(l) + k, Prefix(l), k);
      PrefixedLanguage(Prefix(l) + k, l);
    }
  }

  /** A cookie speaks to English doors only, and otherwise a redirect is of the language of the path it answers. */
  lemma NextSpeaks(dec: Decoder, cookie: Option<Locale>, p: string)
    requires NextPath(dec, cookie, p).Some?
    ensures var t := NextPath(dec, cookie, p).value;
      && Canonical(t) == t
      && if CookieTarget(p, cookie).Some? then Language(Canonical(p)) == En && Some(Language(t)) == cookie
         else Language(t) == Language(Canonical(p))
  {
    hide Language, RouteOf, IncompleteBlog, SameOrigin, Printable, DecodeRounds, Fixed, Plain;
    var t := NextPath(dec, cookie, p).value;
    if CookieTarget(p, cookie).Some? {
      SlashedDoor(p);
      LocalisedLanguage(WithoutSlash(p), cookie.value);
      PlainIsCanonical(t);
    } else {
      AnswerSpeaks(dec, p);
      ResolvedTarget(dec, p);
      if Fixed(t) {
        FixedIsPlain(t);
        PlainIsCanonical(t);
      } else {
        CanonicalIsSettled(p);
      }
    }
  }

  /**
   Along every chain of redirects the language stays what it was; only an English path may
   change it, once, to the language of the cookie.
   */
  lemma {:induction false} LanguageNeverDrifts(dec: Decoder, cookie: Option<Locale>, hops: seq<string>, i: nat)
    requires Follows(dec, cookie, hops) && i < |hops|
    ensures var first, here := Language(Canonical(PathOf(hops[0]))), Language(Canonical(PathOf(hops[i])));
      here == first || (first == En && Some(here) == cookie)
  {
    hide NextPath, NextUrl, PathOf, Language, Canonical;
    if i > 0 {
      LanguageNeverDrifts(dec, cookie, hops, i - 1);
      assert NextUrl(dec, cookie, hops[i - 1]) == Some(hops[i - 1 + 1]);
      UrlHop(dec, cookie, hops[i - 1]);
      NextSpeaks(dec, cookie, PathOf(hops[i - 1]));
    }
  }

  // ---- where chains end -------------------------------------------------------

  /** Where following redirects from here stops, if n hops suffice. */
  ghost function End(dec: Decoder, cookie: Option<Locale>, p: string, n: nat): string
    decreases n
  {
    if n == 0 || NextPath(dec, cookie, p).None? then p else End(dec, cookie, NextPath(dec, cookie, p).value, n - 1)
  }

  /** A chain that is followed to its last redirect ends there. */
  lemma {:induction false} ChainEnds(dec: Decoder, cookie: Option<Locale>, hops: seq<string>, n: nat)
    requires Follows(dec, cookie, hops) && NextUrl(dec, cookie, hops[|hops| - 1]).None? && |hops| <= n + 1
    ensures PathOf(hops[|hops| - 1]) == End(dec, cookie, PathOf(hops[0]), n)
    decreases n
  {
    hide NextPath, PathOf;
    if |hops| > 1 {
      assert NextUrl(dec, cookie, hops[0]) == Some(hops[1]);
      UrlHop(dec, cookie, hops[0]);
      ChainEnds(dec, cookie, hops[1..], n - 1);
    }
  }

  function CookieLocale(cookie: Option<Locale>): Locale {
    if cookie.Some? then cookie.value else En
  }

  /** The page behind a front door: the door itself, and the inspector behind the root. */
  function Page(door: string): string {
    if door == "/" then "/inspector" else door
  }

  lemma RootsAreNoDoors()
    ensures "/uk" !in FRONT_DOORS && "/ru" !in FRONT_DOORS
    ensures IncompleteBlog("/uk").None? && IncompleteBlog("/ru").None?
  {
    hide FRONT_DOORS;
    PrefixedPaths();
    hide Language;
    if "/uk" in FRONT_DOORS { DoorLanguage("/uk"); }
    if "/ru" in FRONT_DOORS { DoorLanguage("/ru"); }
  }

  lemma RootRoutes()
    ensures RouteOf("/uk") == Redirect("/uk/inspector", 301) && RouteOf("/ru") == Redirect("/ru/inspector", 301)
    ensures Prefix(Uk) == "/uk" && "/uk" + "/inspector" == "/uk/inspector"
    ensures Prefix(Ru) == "/ru" && "/ru" + "/inspector" == "/ru/inspector"
  {
    hide Section, BlogPost, SectionChild, Specimen, Retired;
  }

  lemma RootEnds(dec: Decoder, cookie: Option<Locale>, l: Locale)
    requires Decodes(dec) && !l.En?
    ensures NextPath(dec, cookie, Prefix(l)) == Some(Prefix(l) + "/inspector")
  {
    hide ResolveRoute, Plain, FRONT_DOORS, RouteOf, Prefix, Canonical, IncompleteBlog, WithoutSlash, Decodes;
    LocaleRootsArePlain();
    RootsAreNoDoors();
    RootRoutes();
    LocalePages();
    PlainIsCanonical("/uk");
    PlainIsCanonical("/ru");
    PlainRoute(dec, "/uk");
    PlainRoute(dec, "/ru");
    assert l == Uk || l == Ru;
  }

  /** A reader who chose a language and opens a front door ends at that page in that language. */
  lemma FrontDoorEnds(dec: Decoder, cookie: Option<Locale>, p: string)
    requires Decodes(dec) && WithoutSlash(p) in FRONT_DOORS && !CookieLocale(cookie).En?
    ensures End(dec, cookie, p, 3) == Prefix(CookieLocale(cookie)) + Page(WithoutSlash(p))
  {
    hide NextPath, Plain, Prefix, FRONT_DOORS, WithoutSlash;
    var l, k := cookie.value, WithoutSlash(p);
    CookieTakes(dec, cookie, p);
    if k == "/" {
      RootEnds(dec, cookie, l);
      InspectorIsDoor();
      LocaleDoorIsFinal(dec, cookie, "/inspector", l);
      TwoHops(dec, cookie, p, Prefix(l), Prefix(l) + "/inspector");
    } else {
      LocaleDoorIsFinal(dec, cookie, k, l);
    }
  }

  lemma TwoHops(dec: Decoder, cookie: Option<Locale>, p: string, q: string, r: string)
    requires NextPath(dec, cookie, p) == Some(q) && NextPath(dec, cookie, q) == Some(r) && NextPath(dec, cookie, r).None?
    ensures End(dec, cookie, p, 3) == r
  {
    hide NextPath;
    assert End(dec, cookie, r, 1) == r;
    assert End(dec, cookie, q, 2) == r;
  }

  lemma InspectorIsDoor()
    ensures "/inspector" in DOORS
  {
  }

  lemma CookieTakes(dec: Decoder, cookie: Option<Locale>, p: string)
    requires WithoutSlash(p) in FRONT_DOORS && !CookieLocale(cookie).En?
    ensures NextPath(dec, cookie, p) == Some(if WithoutSlash(p) == "/" then Prefix(cookie.value) else Prefix(cookie.value) + WithoutSlash(p))
  {
    hide WithoutSlash, FRONT_DOORS, Prefix;
  }
}
