/** The static export end to end: every output of `generateAllPages`
    written as a file and then rewritten by `fixLanguageLinks` in the
    language its path names. Template execution is a parameter: `render`
    stands for executing `layout` of the parsed files with the page data. */
module Export {
  import opened Strings
  import opened Quotes
  import opened Site
  import opened Rewrite
  import opened FixFacts
  import opened PageFixes
  import opened Server

  /** One file of the exported site. */
  datatype File = File(path: string, content: string)

  /** An output written and then rewritten in the language of its path. */
  function ExportFile(render: (seq<string>, PageData) -> string, o: Output): (f: File)
    ensures f.path == o.path
  {
    var russian := IsRussianPath(o.path);
    match o
    case Rendered(p, files, data) => File(p, Fix(render(files, data), russian))
    case Redirect(p, target) => File(p, Fix(RedirectStub(target), russian))
  }

  /** The whole exported site, in the order the files are generated: one
      file per output at the output's path, no path written twice, each
      page rewritten in the language it was rendered in, each stub kept as
      written. */
  function ExportSite(render: (seq<string>, PageData) -> string, year: int): (site: seq<File>)
    ensures |site| == |GenerateAllPages(year)|
    ensures forall k :: 0 <= k < |site| ==> site[k].path == GenerateAllPages(year)[k].path
    ensures forall j, k :: 0 <= j < k < |site| ==> site[j].path != site[k].path
    ensures forall k :: 0 <= k < |site| && GenerateAllPages(year)[k].Rendered? ==>
      var o := GenerateAllPages(year)[k];
      site[k].content == Fix(render(o.files, o.data), o.data.lang == "ru")
    ensures forall k :: 0 <= k < |site| && GenerateAllPages(year)[k].Redirect? ==>
      site[k].content == RedirectStub(GenerateAllPages(year)[k].target)
  {
    OutputPathsDistinct(year);
    ExportContents(render, year);
    ExportFiles(render, GenerateAllPages(year))
  }

  /** Each output written and rewritten, in order. */
  function ExportFiles(render: (seq<string>, PageData) -> string, outs: seq<Output>): (files: seq<File>)
    ensures |files| == |outs|
    ensures forall k :: 0 <= k < |outs| ==> files[k] == ExportFile(render, outs[k])
  {
    seq(|outs|, k requires 0 <= k < |outs| => ExportFile(render, outs[k]))
  }

  /** What each output becomes once written and rewritten. */
  lemma ExportContents(render: (seq<string>, PageData) -> string, year: int)
    ensures forall k :: 0 <= k < |GenerateAllPages(year)| && GenerateAllPages(year)[k].Rendered? ==>
      var o := GenerateAllPages(year)[k];
      ExportFile(render, o).content == Fix(render(o.files, o.data), o.data.lang == "ru")
    ensures forall k :: 0 <= k < |GenerateAllPages(year)| && GenerateAllPages(year)[k].Redirect? ==>
      var o := GenerateAllPages(year)[k];
      ExportFile(render, o).content == RedirectStub(o.target)
  {
    var outs := GenerateAllPages(year);
    forall k | 0 <= k < |outs|
      ensures outs[k].Rendered? ==>
        ExportFile(render, outs[k]).content == Fix(render(outs[k].files, outs[k].data), outs[k].data.lang == "ru")
      ensures outs[k].Redirect? ==> ExportFile(render, outs[k]).content == RedirectStub(outs[k].target)
    {
      var o := outs[k];
      if o.Rendered? {
        ExportedPageLanguage(render, year, o);
      } else {
        RedirectOfStubs(year, o);
        ExportedStub(render, o);
      }
    }
  }

  /** For a page and any query the server renders the same template files,
      in the same language and year, as the exporter's file of the language
      the query asks for; only the title and the base URL differ. */
  lemma ServerDataMatchesExport(r: Route, q: Query, year: int)
    requires HasPage(r)
    ensures var o := PageOutput(r, GetLanguage(q) == "ru", year);
      GetPageData(ServerTitle(r), q, year) == o.data.(title := ServerTitle(r), baseURL := "")
      && LoadTemplates()[TemplateKey(r)] == o.files
  {
    TemplatesAgree(r);
  }

  /** The export writes eighteen files. */
  lemma ExportSiteSize(render: (seq<string>, PageData) -> string, year: int)
    ensures |ExportSite(render, year)| == 18
  {
    GenerateAllPagesCount(year);
  }

  /** Every rendered page is rewritten in the language it was rendered in. */
  lemma ExportedPageLanguage(render: (seq<string>, PageData) -> string, year: int, o: Output)
    requires o in GenerateAllPages(year) && o.Rendered?
    ensures ExportFile(render, o).content == Fix(render(o.files, o.data), o.data.lang == "ru")
  {
    RenderedLanguageAgrees(year, o);
  }

  lemma StubFileContent(render: (seq<string>, PageData) -> string, o: Output)
    requires o.Redirect?
    ensures ExportFile(render, o).content == Fix(RedirectStub(o.target), IsRussianPath(o.path))
  {
  }

  /** Every redirect stub comes out of the rewrite as written, still
      sending its reader to the home page of its own language. */
  lemma ExportedStub(render: (seq<string>, PageData) -> string, o: Output)
    requires o in Redirects
    ensures ExportFile(render, o).content == RedirectStub(o.target)
    ensures StubTarget(ExportFile(render, o).content) ==
      Some(if IsRussianPath(o.path) then "/index_ru.html" else "/")
  {
    var home := if IsRussianPath(o.path) then "/index_ru.html" else "/";
    StubFileContent(render, o);
    FixRedirects(o);
    RedirectTargetsHome(o);
    HomeTargetPlain(IsRussianPath(o.path));
    RedirectStubRoundTrip(home);
  }

  lemma HomeTargetPlain(russian: bool)
    ensures Quote !in (if russian then "/index_ru.html" else "/")
  {
  }

  /** On a Russian page the server's `/?lang=ru` link becomes the Russian
      home page. */
  lemma RussianRedirectLink()
    ensures Fix(Href("/?lang=ru"), true) == Href("/index_ru.html")
  {
    HomeLiterals();
    FixQueryLink(Home, true);
  }

  lemma HomeLiterals()
    ensures RoutePath(Home) + RuQuery == "/?lang=ru"
    ensures StaticTarget(Home, true) == "/index_ru.html"
  {
  }

  /** On an English page the server's `/` link stays `/`. */
  lemma EnglishRedirectLink()
    ensures Fix(Href("/"), false) == Href("/")
  {
    HomeBare();
    FixBareLink(Home, false);
  }

  lemma HomeBare()
    ensures RoutePath(Home) == "/" && Home !in BareRoutes
  {
  }

  /** The server's docs and download redirect, written as a link into a
      page of the language the request asked for, is rewritten to the very
      target the static stub of that language sends to. */
  lemma RedirectAgreement(q: Query)
    ensures Fix(Href(RedirectTarget(q)), GetLanguage(q) == "ru") ==
      Href(if GetLanguage(q) == "ru" then "/index_ru.html" else "/")
  {
    if GetLanguage(q) == "ru" {
      RussianRedirectLink();
    } else {
      EnglishRedirectLink();
    }
  }
}
