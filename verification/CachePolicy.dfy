/** Which version tokens make a response immutable: the current one, of a file that may have it, and no other. */
module CachePolicy {
  import opened Wrappers
  import opened AssetModel
  import opened StaticAssetsRenderer

  const LANGUAGES := {"en", "uk", "ru"}

  ghost predicate InModule(url: Path, file: string) {
    exists id | IsModuleId(id) :: url == ["modules", id, file]
  }

  ghost predicate TemplatePage(url: Path) {
    exists lang | lang in LANGUAGES :: InModule(url, "template." + lang + ".html")
  }

  /** A style sheet right in a module's directory; its name is more than the extension. */
  ghost predicate ModuleStyle(url: Path) {
    exists name | name != "" :: InModule(url, name + ".css")
  }

  lemma TemplateNames()
    ensures "template." + "en" + ".html" == "template.en.html" && "template." + "uk" + ".html" == "template.uk.html"
    ensures "template." + "ru" + ".html" == "template.ru.html"
  {
  }

  lemma TemplatesExact(url: Path)
    ensures IsTemplate(url) <==> TemplatePage(url)
  {
    TemplateNames();
    if IsTemplate(url) {
      var lang := if url[2] == "template.en.html" then "en" else if url[2] == "template.uk.html" then "uk" else "ru";
      assert url == ["modules", url[1], "template." + lang + ".html"];
      assert InModule(url, "template." + lang + ".html");
    }
  }

  lemma NamespaceExact(url: Path)
    ensures InBundleNamespace(url) <==> TemplatePage(url) || ModuleStyle(url)
  {
    TemplatesExact(url);
    if InBundleNamespace(url) && !IsTemplate(url) {
      var name := url[2][..|url[2]| - 4];
      assert name + ".css" == url[2];
      assert url == ["modules", url[1], name + ".css"];
      assert InModule(url, name + ".css");
    }
    if ModuleStyle(url) {
      var name :| name != "" && InModule(url, name + ".css");
      assert (name + ".css")[|name|..] == ".css";
    }
  }

  /**
   A request that names exactly the current version of a file that may be immutable gets its
   page so marked, a request without versions gets it to be revalidated, and every other
   list of versions is a conflict.
   */
  lemma VersionDecides(fs: Fs, url: Path, versions: seq<Token>)
    requires EvalAsset(fs, url, {}).Ok?
    requires |versions| == 1 && versions[0].BundleToken? && (TemplatePage(url) || ModuleStyle(url)) ==>
      EvalBundle(fs, url[1]).Ok?
    ensures var body := EvalAsset(fs, url, {}).value.body;
      var ownVersion := versions == [AssetToken(A2(body))] && (!HasExtension(url, ".html") || TemplatePage(url));
      var bundleVersion := (TemplatePage(url) || ModuleStyle(url)) && EvalBundle(fs, url[1]).Ok?
        && versions == [BundleToken(M2(EvalBundle(fs, url[1]).value.files))];
      EvalResponse(fs, Request(url, versions)) ==
        if ownVersion || bundleVersion then Page(body, true)
        else if versions == [] then Page(body, false)
        else Conflict
  {
    TemplatesExact(url);
    NamespaceExact(url);
    hide TemplatePage, ModuleStyle, IsTemplate, InBundleNamespace, EvalAsset, EvalBundle;
  }

  /**
   A page is served only if its file renders, and with the body it renders to. Where it does
   not render, the answer is an error as soon as the versions would admit the page.
   */
  lemma FailureIsAnError(fs: Fs, url: Path, versions: seq<Token>)
    ensures var r := EvalResponse(fs, Request(url, versions));
      && (r.Page? ==> EvalAsset(fs, url, {}).Ok? && r.body == EvalAsset(fs, url, {}).value.body)
      && (EvalAsset(fs, url, {}).Err? ==>
            if versions == [] then r.ServerError?
            else if |versions| == 1 && versions[0].AssetToken? && (!HasExtension(url, ".html") || TemplatePage(url)) then r.ServerError?
            else if |versions| == 1 && versions[0].BundleToken? && (TemplatePage(url) || ModuleStyle(url)) then
              if EvalBundle(fs, url[1]).Ok? && versions[0].bundle != M2(EvalBundle(fs, url[1]).value.files) then r.Conflict?
              else r.ServerError?
            else r.Conflict?)
  {
    TemplatesExact(url);
    NamespaceExact(url);
    hide TemplatePage, ModuleStyle, IsTemplate, InBundleNamespace, EvalAsset, EvalBundle;
  }
}
