/** Where old links end: at the page they were renamed to, in the language the reader chose. */
module RetiredNames {
  import opened Wrappers
  import opened Addresses
  import opened LocaleRoutes
  import opened LocaleLanguage
  import opened ServedPages

  const OLD_NAMES: map<string, string> := map[
    "/index.html" := "/inspector", "/en" := "/inspector", "/playground" := "/inspector", "/playground.html" := "/inspector",
    "/stream" := "/live", "/stream.html" := "/live", "/app/dialects" := "/dialects",
    "/about.html" := "/about", "/en/about" := "/about", "/account.html" := "/account", "/en/account" := "/account"]

  lemma NewNamesAreDoors(name: string)
    requires name in OLD_NAMES
    ensures OLD_NAMES[name] in FRONT_DOORS && OLD_NAMES[name] in DOORS && OLD_NAMES[name] != "/"
  {
  }

  // ---- the redirect of an old name --------------------------------------------

  lemma OtherSections(s: string)
    requires s in SPA_SECTIONS
    ensures s != "" && s[0] != 's' && s[0] != 'p' && s[0] != 'a' && s[0] != 'e'
    ensures s != "about" && s != "account"
  {
  }

  predicate OldLetter(u: string) {
    |u| > 2 && u[0] == '/' && (u[1] == 's' || u[1] == 'p' || u[1] == 'a' || u[1] == 'e')
  }

  lemma NoEnglishPage(u: string)
    requires OldLetter(u)
    ensures Language(u) == En && !Section(u, "") && !BlogPost(u, "") && !SectionChild(u, "") && !Specimen(u, "")
  {
    LanguageByLetters(u);
    forall s | s in SPA_SECTIONS ensures u[1..] != s && !Starts(u, "" + "/" + s + "/") {
      OtherSections(s);
      assert ("" + "/" + s + "/")[1] == s[0] && u[1..][0] == u[1];
    }
    assert ("" + "/blog/")[1] == 'b' && ("" + "/r/")[1] == 'r';
  }

  lemma OldNameRoute(u: string)
    requires OldLetter(u) && !IsRoot(u) && u != "/admin/blog" && !Section(u, "/en")
    ensures RouteOf(u) == Retired(u)
  {
    hide Section, BlogPost, SectionChild, Specimen, Retired, Language, ChildRoute, OldLetter;
    NoEnglishPage(u);
    AnyPageRoutes(u);
    NothingElse(u);
  }

  lemma NoEnglishSection(u: string)
    requires OldLetter(u) && (u[1] == 'e' ==> u == "/en/about" || u == "/en/account")
    ensures !Section(u, "/en")
  {
    assert ("/en" + "/")[1] == 'e';
    forall s | s in SPA_SECTIONS ensures s != "about" && s != "account" {
      OtherSections(s);
    }
    assert "/en/about"[4..] == "about" && "/en/account"[4..] == "account";
  }

  lemma OldLetters()
    ensures OldLetter("/playground") && OldLetter("/playground.html") && OldLetter("/stream") && OldLetter("/stream.html")
    ensures OldLetter("/app/dialects") && OldLetter("/about.html") && OldLetter("/account.html")
    ensures OldLetter("/en/about") && OldLetter("/en/account")
  {
  }

  lemma OldNamesRetired()
    ensures Retired("/playground") == Redirect("/inspector", 301) == Retired("/playground.html")
    ensures Retired("/stream") == Redirect("/live", 301) == Retired("/stream.html")
    ensures Retired("/app/dialects") == Redirect("/dialects", 301)
  {
    hide Landing;
  }

  lemma OldPagesRetired()
    ensures Retired("/about.html") == Redirect("/about", 301) == Retired("/en/about")
    ensures Retired("/account.html") == Redirect("/account", 301) == Retired("/en/account")
  {
    hide Landing;
  }

  /** Each old name is redirected to its new one. */
  lemma OldNameIsRedirected(name: string)
    requires name in OLD_NAMES
    ensures RouteOf(name).Redirect? && RouteOf(name).target == OLD_NAMES[name]
  {
    if name == "/index.html" || name == "/en" {
      hide Section, BlogPost, SectionChild, Specimen, Retired;
    } else {
      hide RouteOf, Retired, OldLetter, Section;
      OldLetters();
      OldNamesRetired();
      OldPagesRetired();
      assert name !in {"/", "/uk", "/ru", "/admin/blog"};
      assert OldLetter(name);
      NoEnglishSection(name);
      OldNameRoute(name);
    }
  }

  // ---- where chains from here end ---------------------------------------------

  lemma DoorStaysInEnglish(dec: Decoder, cookie: Option<Locale>, k: string)
    requires k in DOORS && (CookieLocale(cookie).En? || k !in FRONT_DOORS)
    ensures NextPath(dec, cookie, k).None?
  {
    DoorsArePlain(k);
    DoorsStay(k);
    PlainIsCanonical(k);
    RedirectsMove(k);
    hide Plain, Moves, RouteOf, IncompleteBlog, Canonical, Fixed, FRONT_DOORS, DOORS;
  }

  lemma EndsHere(dec: Decoder, cookie: Option<Locale>, p: string, n: nat)
    requires NextPath(dec, cookie, p).None?
    ensures End(dec, cookie, p, n) == p
  {
    hide NextPath;
  }

  lemma EndsAfter(dec: Decoder, cookie: Option<Locale>, p: string, q: string, n: nat)
    requires NextPath(dec, cookie, p) == Some(q) && n >= 1
    ensures End(dec, cookie, p, n) == End(dec, cookie, q, n - 1)
  {
    hide NextPath;
  }

  lemma CookieTakesDoor(dec: Decoder, cookie: Option<Locale>, k: string)
    requires k in DOORS && k in FRONT_DOORS && !CookieLocale(cookie).En?
    ensures NextPath(dec, cookie, k) == Some(Prefix(CookieLocale(cookie)) + k)
    ensures NextPath(dec, cookie, Prefix(CookieLocale(cookie)) + k).None?
  {
    hide NextPath, Plain, FRONT_DOORS, DOORS, Prefix, Canonical, WithoutSlash;
    DoorsArePlain(k);
    PlainIsCanonical(k);
    RootIsNoDoor();
    CookieTakes(dec, cookie, k);
    LocaleDoorIsFinal(dec, cookie, k, cookie.value);
  }

  /** A front door ends at its page, below the prefix of the language chosen. */
  lemma DoorEnds(dec: Decoder, cookie: Option<Locale>, k: string, n: nat)
    requires k in DOORS && n >= 1
    ensures End(dec, cookie, k, n) == if k in FRONT_DOORS then Prefix(CookieLocale(cookie)) + k else k
  {
    hide *;
    var l := CookieLocale(cookie);
    if l.En? || k !in FRONT_DOORS {
      DoorStaysInEnglish(dec, cookie, k);
      EndsHere(dec, cookie, k, n);
      PrefixOfEnglish();
      assert "" + k == k;
    } else {
      CookieTakesDoor(dec, cookie, k);
      EndsAfter(dec, cookie, k, Prefix(l) + k, n);
      EndsHere(dec, cookie, Prefix(l) + k, n - 1);
    }
  }

  lemma PrefixOfEnglish()
    ensures Prefix(En) == ""
  {
  }

  lemma RootIsNoDoor()
    ensures "/" !in DOORS && "/" in FRONT_DOORS
  {
    if "/" in DOORS { DoorsHaveNoLocale("/"); }
  }

  lemma OldNameIsPlain(name: string)
    requires name in OLD_NAMES
    ensures Plain(name) && IncompleteBlog(name).None? && name !in FRONT_DOORS
  {
    PlainOldNames();
    PlainOldPages();
    if name in FRONT_DOORS { OldNameStaysOut(name); }
    hide Plain, FRONT_DOORS;
  }

  lemma PlainOldNames()
    ensures Plain("/index.html") && Plain("/en") && Plain("/playground") && Plain("/playground.html") && Plain("/stream")
  {
  }

  lemma PlainOldPages()
    ensures Plain("/stream.html") && Plain("/app/dialects") && Plain("/about.html") && Plain("/en/about")
    ensures Plain("/account.html") && Plain("/en/account")
  {
  }

  lemma OldNameStaysOut(name: string)
    requires name in OLD_NAMES
    ensures name !in FRONT_DOORS
  {
    if name in FRONT_DOORS {
      OldNameMoves(name);
      RootsMove();
      DoorsStay(name);
    }
  }

  lemma OldNameMoves(name: string)
    requires name in OLD_NAMES
    ensures Moves(name) && name != "/"
  {
  }

  /** An old link ends, under any cookie, at the page it was renamed to in the language chosen. */
  lemma OldNameEnds(dec: Decoder, cookie: Option<Locale>, name: string)
    requires Decodes(dec) && name in OLD_NAMES
    ensures End(dec, cookie, name, 3) == Prefix(CookieLocale(cookie)) + OLD_NAMES[name]
  {
    hide NextPath, Plain, FRONT_DOORS, DOORS, Prefix, OLD_NAMES, RouteOf;
    NewNamesAreDoors(name);
    OldNameIsPlain(name);
    OldNameIsRedirected(name);
    DoorsArePlain(OLD_NAMES[name]);
    RedirectTaken(dec, cookie, name);
    DoorEnds(dec, cookie, OLD_NAMES[name], 2);
  }

  /** A plain path that is no front door follows the route table. */
  lemma RedirectTaken(dec: Decoder, cookie: Option<Locale>, u: string)
    requires Decodes(dec) && Plain(u) && IncompleteBlog(u).None? && u !in FRONT_DOORS
    requires RouteOf(u).Redirect? && Plain(RouteOf(u).target)
    ensures NextPath(dec, cookie, u) == Some(RouteOf(u).target)
  {
    PlainIsCanonical(u);
    PlainRoute(dec, u);
    hide ResolveRoute, Plain, FRONT_DOORS, RouteOf, Canonical, Decodes;
  }

  lemma RootRedirect(dec: Decoder, cookie: Option<Locale>)
    requires Decodes(dec) && CookieLocale(cookie).En?
    ensures NextPath(dec, cookie, "/") == Some("/inspector")
  {
    hide Plain, SameOrigin, Printable, FRONT_DOORS, Decodes;
    PlainSections();
    PlainIsSafe("/inspector");
    assert Canonical("/") == "/" && RouteOf("/") == Redirect("/inspector", 302) && IncompleteBlog("/").None?;
    hide RouteOf, IncompleteBlog, Canonical;
  }

  /** The site itself, without a cookie, is the English inspector. */
  lemma RootEndsInEnglish(dec: Decoder, cookie: Option<Locale>)
    requires Decodes(dec) && CookieLocale(cookie).En?
    ensures End(dec, cookie, "/", 3) == "/inspector"
  {
    hide *;
    InspectorIsDoor();
    RootRedirect(dec, cookie);
    DoorStaysInEnglish(dec, cookie, "/inspector");
    EndsAfter(dec, cookie, "/", "/inspector", 3);
    EndsHere(dec, cookie, "/inspector", 2);
  }

  /** The old English prefix falls away, and the section opens in the language chosen where it is a front door. */
  lemma OldEnglishSectionEnds(dec: Decoder, cookie: Option<Locale>, s: string)
    requires Decodes(dec) && s in SPA_SECTIONS
    ensures End(dec, cookie, "/en/" + s, 3)
         == if "/" + s in FRONT_DOORS then Prefix(CookieLocale(cookie)) + ("/" + s) else "/" + s
  {
    hide NextPath, Plain, FRONT_DOORS, DOORS, Prefix, RouteOf, SPA_SECTIONS, Decodes, IncompleteBlog;
    var u := "/en/" + s;
    OldEnglishPath(s);
    OldEnglishPage(s);
    SectionsAreDoors(s);
    DoorsArePlain("/" + s);
    NoEnglishDoor(u);
    RedirectTaken(dec, cookie, u);
    DoorEnds(dec, cookie, "/" + s, 2);
  }

  lemma NoEnglishDoor(u: string)
    requires |u| > 1 && u[1] == 'e'
    ensures u !in FRONT_DOORS
  {
    if u in DOORS { DoorsHaveNoLocale(u); }
    hide DOORS;
    DoorsOrRoot(u);
  }

  /** A blog address without a post is the blog, in its own language or else in the one chosen. */
  lemma IncompleteBlogEnds(dec: Decoder, cookie: Option<Locale>, l: Locale, lang: string)
    requires Decodes(dec) && lang in {"en", "uk", "ru"}
    ensures End(dec, cookie, Prefix(l) + ("/blog/" + lang), 3)
         == (if l.En? then Prefix(CookieLocale(cookie)) else Prefix(l)) + "/blog"
  {
    hide NextPath, Plain, FRONT_DOORS, DOORS, Decodes;
    var u := Prefix(l) + ("/blog/" + lang);
    IncompletePath(dec, cookie, l, lang);
    assert "/blog" in DOORS && "/blog" in FRONT_DOORS by { BlogIsDoor(); }
    if l.En? {
      assert "" + "/blog" == "/blog";
      hide Prefix;
      DoorEnds(dec, cookie, "/blog", 2);
    } else {
      hide Prefix;
      LocaleDoorIsFinal(dec, cookie, "/blog", l);
    }
  }

  lemma BlogIsDoor()
    ensures "/blog" in DOORS && "/blog" in FRONT_DOORS
  {
  }

  lemma IncompleteTarget(l: Locale, lang: string)
    requires lang in {"en", "uk", "ru"}
    ensures IncompleteBlog(Prefix(l) + ("/blog/" + lang)) == Some(Prefix(l) + "/blog") && Plain("/blog/" + lang)
    ensures Prefix(l) + ("/blog/" + lang) !in FRONT_DOORS
  {
    hide FRONT_DOORS;
    var u := Prefix(l) + ("/blog/" + lang);
    assert "/blog/" + "en" == "/blog/en" && "/blog/" + "uk" == "/blog/uk" && "/blog/" + "ru" == "/blog/ru";
    PrefixedBlogs();
    assert IncompleteBlog(u) == Some(Prefix(l) + "/blog");
    if u in DOORS { DoorsStay(u); }
    assert |u| > 1;
    hide DOORS, IncompleteBlog;
    DoorsOrRoot(u);
  }

  lemma PrefixedBlogs()
    ensures "/uk" + "/blog/en" == "/uk/blog/en" && "/uk" + "/blog/uk" == "/uk/blog/uk" && "/uk" + "/blog/ru" == "/uk/blog/ru"
    ensures "/ru" + "/blog/en" == "/ru/blog/en" && "/ru" + "/blog/uk" == "/ru/blog/uk" && "/ru" + "/blog/ru" == "/ru/blog/ru"
    ensures "/uk" + "/blog" == "/uk/blog" && "/ru" + "/blog" == "/ru/blog" && "" + "/blog" == "/blog"
    ensures "" + "/blog/en" == "/blog/en" && "" + "/blog/uk" == "/blog/uk" && "" + "/blog/ru" == "/blog/ru"
  {
  }

  lemma IncompletePath(dec: Decoder, cookie: Option<Locale>, l: Locale, lang: string)
    requires Decodes(dec) && lang in {"en", "uk", "ru"}
    ensures NextPath(dec, cookie, Prefix(l) + ("/blog/" + lang)) == Some(Prefix(l) + "/blog")
  {
    hide *;
    var u := Prefix(l) + ("/blog/" + lang);
    IncompleteTarget(l, lang);
    BlogIsDoor();
    DoorsArePlain("/blog");
    PlainBelow(l, "/blog/" + lang);
    PlainBelow(l, "/blog");
    IncompleteTaken(dec, cookie, u, Prefix(l) + "/blog");
  }

  lemma IncompleteTaken(dec: Decoder, cookie: Option<Locale>, u: string, t: string)
    requires Decodes(dec) && Plain(u) && Plain(t) && u !in FRONT_DOORS && IncompleteBlog(u) == Some(t)
    ensures NextPath(dec, cookie, u) == Some(t)
  {
    PlainIsCanonical(u);
    PlainIsSafe(u);
    PlainIsSafe(t);
    hide FRONT_DOORS, Plain, IncompleteBlog, RouteOf, SameOrigin, Printable, Canonical, WithoutSlash;
  }

  /** Only the redirect of the site's root is temporary; all others may be remembered. */
  lemma OnlyTheRootIsTemporary(dec: Decoder, raw: string)
    requires ResolveRoute(dec, raw).Redirect?
    ensures ResolveRoute(dec, raw).status == if raw == "/" || raw == "" || raw == "/index.html" then 302 else 301
  {
    StatusOf(Canonical(raw));
    RootSpelling();
    hide RouteOf, SameOrigin, Printable, DecodeRounds, Canonical, Plain, IncompleteBlog;
    if raw != "" && raw != "/" && ValidRaw(raw) { CanonicalIsSettled(raw); }
  }

  lemma RootSpelling()
    ensures Canonical("/") == "/" && Canonical("") == "/" && Canonical("/index.html") == "/index.html"
    ensures IncompleteBlog("/").None? && IncompleteBlog("/index.html").None?
  {
    hide Plain;
    PlainOldNames();
    PlainIsCanonical("/index.html");
  }

  lemma StatusOf(u: string)
    ensures RouteOf(u).Redirect? ==> RouteOf(u).status == if u == "/" || u == "/index.html" then 302 else 301
  {
    hide Section, BlogPost, SectionChild, Specimen, Landing;
  }

  /** The canonical paths that are redirected are the root, the locale roots, the old names and the old English sections. */
  lemma MovedExactly(u: string)
    ensures RouteOf(u).Redirect? <==> u in {"/", "/uk", "/ru"} || u in OLD_NAMES || (Starts(u, "/en/") && u[4..] in SPA_SECTIONS)
  {
    hide RouteOf, SPA_SECTIONS;
    assert "/en" + "/" == "/en/";
    assert Section(u, "/en") <==> Starts(u, "/en/") && u[4..] in SPA_SECTIONS;
    RedirectsMove(u);
    if Section(u, "/en") {
      assert u == "/en/" + u[4..];
      OldEnglishPage(u[4..]);
    }
    if u in OLD_NAMES { OldNameIsRedirected(u); }
    RootsRedirected();
    hide Section;
  }

  lemma RootsRedirected()
    ensures RouteOf("/").Redirect? && RouteOf("/uk").Redirect? && RouteOf("/ru").Redirect?
  {
    RootRoutes();
    hide Section;
  }
}
