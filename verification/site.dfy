/** The site's routes, the static output tree the exporter writes for them,
    and the redirect stubs for the two redirect-only routes. */
module Site {
  import opened Strings
  import opened Quotes

  /** The four subprojects that have a page of their own. */
  datatype Project = Graphics | Importer | Contractor | Math

  /** The routes of the site: five top-level ones and one per subproject. */
  datatype Route = Home | Features | Examples | Docs | Download | Subproject(project: Project)

  function ProjectName(p: Project): string
  {
    match p
    case Graphics => "mr-graphics"
    case Importer => "mr-importer"
    case Contractor => "mr-contractor"
    case Math => "mr-math"
  }

  /** The server path of a route, as registered with the router. */
  function RoutePath(r: Route): (path: string)
    ensures |path| >= 1 && path[0] == '/'
    ensures r != Home ==> |path| > 1
  {
    match r
    case Home => "/"
    case Features => "/features"
    case Examples => "/examples"
    case Docs => "/docs"
    case Download => "/download"
    case Subproject(p) => "/subprojects/" + ProjectName(p)
  }

  /** Characters that no route path contains. */
  lemma RoutePathChars(r: Route)
    ensures Quote !in RoutePath(r) && '{' !in RoutePath(r) && '<' !in RoutePath(r)
    ensures '?' !in RoutePath(r) && '.' !in RoutePath(r) && '_' !in RoutePath(r)
  {
    RoutePathSlug(r);
    SlugLacks(RoutePath(r));
  }

  lemma ProjectNameChars(p: Project)
    ensures Quote !in ProjectName(p) && '{' !in ProjectName(p) && '<' !in ProjectName(p)
    ensures '?' !in ProjectName(p) && '.' !in ProjectName(p) && '_' !in ProjectName(p)
  {
    ProjectNameSlug(p);
    SlugLacks(ProjectName(p));
  }

  /** Route paths are made of lower-case letters, `-` and `/`. */
  predicate SlugChar(c: char)
  {
    'a' <= c <= 'z' || c == '-' || c == '/'
  }

  ghost predicate Slug(s: string)
  {
    forall i :: 0 <= i < |s| ==> SlugChar(s[i])
  }

  lemma SlugLacks(s: string)
    requires Slug(s)
    ensures Quote !in s && '{' !in s && '<' !in s && '?' !in s && '.' !in s && '_' !in s
  {
  }

  lemma SlugAppend(a: string, b: string)
    requires Slug(a) && Slug(b)
    ensures Slug(a + b)
  {
  }

  lemma ProjectNameSlug(p: Project)
    ensures Slug(ProjectName(p))
  {
    match p
    case Graphics =>
    case Importer =>
    case Contractor =>
    case Math =>
  }

  lemma RoutePathSlug(r: Route)
    ensures Slug(RoutePath(r))
  {
    match r
    case Subproject(p) =>
      ProjectNameSlug(p);
      assert Slug("/subprojects/");
      SlugAppend("/subprojects/", ProjectName(p));
    case _ =>
  }

  /** The router: which route, if any, serves a request path. */
  function Dispatch(path: string): (r: Option<Route>)
    ensures r.Some? ==> RoutePath(r.value) == path
  {
    if path == "/" then Some(Home)
    else if path == "/features" then Some(Features)
    else if path == "/examples" then Some(Examples)
    else if path == "/docs" then Some(Docs)
    else if path == "/download" then Some(Download)
    else if path == "/subprojects/mr-graphics" then Some(Subproject(Graphics))
    else if path == "/subprojects/mr-importer" then Some(Subproject(Importer))
    else if path == "/subprojects/mr-contractor" then Some(Subproject(Contractor))
    else if path == "/subprojects/mr-math" then Some(Subproject(Math))
    else None
  }

  /** Every route's path is dispatched back to that route. */
  lemma DispatchRoutePath(r: Route)
    ensures Dispatch(RoutePath(r)) == Some(r)
  {
    match r
    case Subproject(p) => {
      match p
      case Graphics => DispatchGraphics();
      case Importer => DispatchImporter();
      case Contractor => DispatchContractor();
      case Math => DispatchMath();
    }
    case _ =>
  }

  lemma DispatchGraphics()
    ensures Dispatch(RoutePath(Subproject(Graphics))) == Some(Subproject(Graphics))
  {
    assert RoutePath(Subproject(Graphics)) == "/subprojects/mr-graphics";
  }

  lemma DispatchImporter()
    ensures Dispatch(RoutePath(Subproject(Importer))) == Some(Subproject(Importer))
  {
    var path := RoutePath(Subproject(Importer));
    assert path == "/subprojects/mr-importer";
    assert path[16] != "/subprojects/mr-graphics"[16];
  }

  lemma DispatchContractor()
    ensures Dispatch(RoutePath(Subproject(Contractor))) == Some(Subproject(Contractor))
  {
    var path := RoutePath(Subproject(Contractor));
    assert path == "/subprojects/mr-contractor";
    assert |path| != |"/subprojects/mr-graphics"|;
    assert |path| != |"/subprojects/mr-importer"|;
  }

  lemma DispatchMath()
    ensures Dispatch(RoutePath(Subproject(Math))) == Some(Subproject(Math))
  {
    var path := RoutePath(Subproject(Math));
    assert path == "/subprojects/mr-math";
    assert |path| != |"/subprojects/mr-graphics"|;
    assert |path| != |"/subprojects/mr-importer"|;
    assert |path| != |"/subprojects/mr-contractor"|;
  }

  /** Distinct routes have distinct paths. */
  lemma RoutePathInjective(r: Route, q: Route)
    requires RoutePath(r) == RoutePath(q)
    ensures r == q
  {
    DispatchRoutePath(r);
    DispatchRoutePath(q);
  }

  /** Routes that render a page of their own; docs and download only redirect. */
  predicate HasPage(r: Route)
  {
    !r.Docs? && !r.Download?
  }

  /** The pages the exporter renders, in the order it renders them. */
  const PageRoutes: seq<Route> :=
    [Home, Features, Examples,
     Subproject(Graphics), Subproject(Importer), Subproject(Contractor), Subproject(Math)]

  /** The directory of a route in the output tree, with its trailing slash
      ("" for the home page). */
  function TreeDir(r: Route): string
  {
    if r == Home then "" else RoutePath(r)[1..] + "/"
  }

  /** Characters that no output directory contains. */
  lemma TreeDirChars(r: Route)
    ensures Quote !in TreeDir(r) && '{' !in TreeDir(r) && '<' !in TreeDir(r)
    ensures '?' !in TreeDir(r) && '.' !in TreeDir(r) && '_' !in TreeDir(r)
  {
    RoutePathChars(r);
  }

  /** The file of a route in one language, relative to the output root. */
  function PagePath(r: Route, russian: bool): string
  {
    TreeDir(r) + FileName(russian)
  }

  /** The absolute link to that file on the static host. */
  function StaticTarget(r: Route, russian: bool): (target: string)
    ensures |target| > 1 && target[0] == '/'
  {
    "/" + PagePath(r, russian)
  }

  /** The file name of a page in one language. */
  function FileName(russian: bool): string
  {
    if russian then "index_ru.html" else "index.html"
  }

  lemma FileNameChars(russian: bool)
    ensures Quote !in FileName(russian) && '{' !in FileName(russian)
    ensures '<' !in FileName(russian) && '?' !in FileName(russian)
    ensures '.' in FileName(russian)
  {
    var f := FileName(russian);
    assert f[|f| - 5] == '.';
  }

  /** Characters a link target lacks, and the dot it always has. */
  lemma StaticTargetChars(r: Route, russian: bool)
    ensures Quote !in StaticTarget(r, russian) && '{' !in StaticTarget(r, russian)
    ensures '<' !in StaticTarget(r, russian) && '?' !in StaticTarget(r, russian)
    ensures '.' in StaticTarget(r, russian)
  {
    TreeDirChars(r);
    FileNameChars(russian);
    var t, d, f := StaticTarget(r, russian), TreeDir(r), FileName(russian);
    assert t == "/" + d + f;
    assert forall c :: c in t <==> c in "/" || c in d || c in f;
  }

  /** Distinct routes have distinct output directories. */
  lemma TreeDirInjective(r: Route, q: Route)
    requires TreeDir(r) == TreeDir(q)
    ensures r == q
  {
    if r != Home && q != Home {
      var d := TreeDir(r);
      assert RoutePath(r) == "/" + d[..|d| - 1];
      assert RoutePath(q) == "/" + d[..|d| - 1];
      RoutePathInjective(r, q);
    }
  }

  /** A link target holds an underscore exactly when it names a Russian file. */
  lemma StaticTargetUnderscore(r: Route, russian: bool)
    ensures '_' in StaticTarget(r, russian) <==> russian
  {
    TreeDirChars(r);
    var t := StaticTarget(r, russian);
    if russian {
      assert t[|t| - 8] == '_';
    } else {
      assert t == "/" + TreeDir(r) + "index.html";
      assert '_' !in "index.html";
    }
  }

  /** Distinct output files have distinct link targets. */
  lemma StaticTargetInjective(r: Route, ru: bool, q: Route, qru: bool)
    requires StaticTarget(r, ru) == StaticTarget(q, qru)
    ensures r == q && ru == qru
  {
    StaticTargetUnderscore(r, ru);
    StaticTargetUnderscore(q, qru);
    MiddleCancel("/", TreeDir(r), TreeDir(q), FileName(ru));
    TreeDirInjective(r, q);
  }

  /** `fixLanguageLinks` treats a file as Russian exactly when its path
      contains `_ru.html`. */
  function IsRussianPath(path: string): bool
  {
    Contains(path, "_ru.html")
  }

  /** The directory the exporter writes to and walks. */
  const OutputDir: string := "docs"

  /** The rewrite classifies the walked path `docs/<path>`; the output
      directory holds no `_`, so that is the classification of the path
      inside the tree. */
  lemma WalkedPathLanguage(path: string)
    ensures IsRussianPath(OutputDir + "/" + path) == IsRussianPath(path)
  {
    assert OutputDir + "/" + path == (OutputDir + "/") + path;
    OccursBehindPrefix(OutputDir + "/", path, "_ru.html");
  }

  /** The language name the debug script prints. */
  function LanguageDisplay(russian: bool): (name: string)
    ensures name == "Russian" || name == "English"
    ensures russian <==> name == "Russian"
  {
    if russian then "Russian" else "English"
  }

  /** `generatePage` derives the Russian output path by replacing the first
      `index.html` with `index_ru.html`. */
  function RussianSibling(path: string): string
  {
    ReplaceFirst(path, "index.html", "index_ru.html")
  }

  /** The English file of a route holds no underscore. */
  lemma EnglishPathPlain(r: Route)
    ensures '_' !in PagePath(r, false)
  {
    TreeDirChars(r);
    assert '_' !in "index.html";
  }

  /** The English file's single dot anchors its only `index.html`. */
  lemma EnglishPathSibling(r: Route)
    ensures RussianSibling(PagePath(r, false)) == PagePath(r, true)
  {
    TreeDirChars(r);
    DirSibling(TreeDir(r));
  }

  /** In a directory without dots, the file name is the only `index.html`. */
  lemma DirSibling(dir: string)
    requires '.' !in dir
    ensures RussianSibling(dir + "index.html") == dir + "index_ru.html"
  {
    var en := dir + "index.html";
    var x := dir + "index";
    assert '.' !in "index" && '.' !in "html";
    assert en == x + ['.'] + "html";
    assert en[|dir|..|dir| + 10] == "index.html";
    assert OccursAt(en, "index.html", |dir|);
    var i := IndexOf(en, "index.html").value;
    OccursAnchored(x, '.', "html", "index.html", 5, i);
    assert en[..i] == dir && en[i + 10..] == [];
  }

  /** The English file of every route: no `_ru` in it, its Russian sibling is
      the route's Russian file, and only the latter counts as Russian. */
  lemma PagePathLanguages(r: Route)
    ensures !Contains(PagePath(r, false), "_ru")
    ensures RussianSibling(PagePath(r, false)) == PagePath(r, true)
    ensures !IsRussianPath(PagePath(r, false))
    ensures IsRussianPath(PagePath(r, true))
  {
    var en, ru := PagePath(r, false), PagePath(r, true);
    EnglishPathPlain(r);
    NotOccursByChar(en, "_ru", '_');
    NotOccursByChar(en, "_ru.html", '_');
    EnglishPathSibling(r);
    RussianPathMarked(r);
  }

  /** The Russian file of a route ends in `_ru.html`. */
  lemma RussianPathMarked(r: Route)
    ensures Occurs(PagePath(r, true), "_ru.html")
  {
    DirMarked(TreeDir(r));
  }

  lemma DirMarked(d: string)
    ensures Occurs(d + "index_ru.html", "_ru.html")
  {
    var ru := d + "index_ru.html";
    assert ru[|d| + 5..|d| + 13] == "_ru.html";
    assert OccursAt(ru, "_ru.html", |d| + 5);
  }

  /** The home page example: `index.html` gets the sibling `index_ru.html`. */
  lemma HomeSibling()
    ensures RussianSibling("index.html") == "index_ru.html"
  {
    PagePathLanguages(Home);
  }

  /** The template data a page is rendered with (Go's `PageData`). */
  datatype PageData = PageData(title: string, lang: string, year: int, baseURL: string)

  const LayoutTemplate := "templates/layout.html"
  const TranslationsTemplate := "templates/translations.html"

  /** The template file holding a page's own content. */
  function ContentTemplate(r: Route): string
    requires HasPage(r)
  {
    match r
    case Home => "templates/home.html"
    case Features => "templates/features.html"
    case Examples => "templates/examples.html"
    case Subproject(p) => "templates/subprojects/" + ProjectName(p) + ".html"
  }

  /** The files parsed for a page: layout, translations, content. */
  function TemplateFiles(r: Route): seq<string>
    requires HasPage(r)
  {
    [LayoutTemplate, TranslationsTemplate, ContentTemplate(r)]
  }

  /** The title the exporter gives a page. */
  function ExportTitle(r: Route): string
    requires HasPage(r)
  {
    match r
    case Home => "model-renderer"
    case Features => "Features - model-renderer"
    case Examples => "Examples - model-renderer"
    case Subproject(p) => ProjectName(p) + " - model-renderer"
  }

  /** One file of the output tree: a rendered page (the template files and
      the data they are executed with) or a redirect stub to a target. */
  datatype Output =
    | Rendered(path: string, files: seq<string>, data: PageData)
    | Redirect(path: string, target: string)

  /** `generatePage`: the page in English under `outputPath` and, unless the
      path already names a Russian file, a Russian copy under the sibling
      path. Both use `/` as base URL. */
  function GeneratePage(outputPath: string, files: seq<string>, title: string, year: int): (outs: seq<Output>)
    ensures |outs| >= 1 && outs[0] == Rendered(outputPath, files, PageData(title, "en", year, "/"))
    ensures |outs| == 2 <==> !Contains(outputPath, "_ru")
    ensures |outs| == 2 ==> outs[1] == Rendered(RussianSibling(outputPath), files, PageData(title, "ru", year, "/"))
    ensures |outs| <= 2
  {
    var data := PageData(title, "en", year, "/");
    [Rendered(outputPath, files, data)]
      + if Contains(outputPath, "_ru") then []
        else [Rendered(RussianSibling(outputPath), files, data.(lang := "ru"))]
  }

  /** The two files a page route yields in the output tree. */
  lemma GeneratePageOfRoute(r: Route, year: int)
    requires HasPage(r)
    ensures GeneratePage(PagePath(r, false), TemplateFiles(r), ExportTitle(r), year) ==
      [Rendered(PagePath(r, false), TemplateFiles(r), PageData(ExportTitle(r), "en", year, "/")),
       Rendered(PagePath(r, true), TemplateFiles(r), PageData(ExportTitle(r), "ru", year, "/"))]
  {
    PagePathLanguages(r);
  }

  /** The pages of `routes`, each followed by its Russian sibling. */
  function PageOutputs(routes: seq<Route>, year: int): seq<Output>
    requires forall k :: 0 <= k < |routes| ==> HasPage(routes[k])
  {
    if routes == [] then []
    else
      var r := routes[0];
      GeneratePage(PagePath(r, false), TemplateFiles(r), ExportTitle(r), year)
        + PageOutputs(routes[1..], year)
  }

  /** The redirect stubs: docs and download point to the home page in the
      stub's language. */
  const Redirects: seq<Output> :=
    [Redirect(PagePath(Docs, false), "/"),
     Redirect(PagePath(Docs, true), "/index_ru.html"),
     Redirect(PagePath(Download, false), "/"),
     Redirect(PagePath(Download, true), "/index_ru.html")]

  /** `generateAllPages`: every page, then the redirect stubs. */
  function GenerateAllPages(year: int): seq<Output>
  {
    PageOutputs(PageRoutes, year) + Redirects
  }

  /** The files of a page route are exactly its English and Russian file. */
  lemma {:induction false} PageOutputsMembers(routes: seq<Route>, year: int, o: Output)
    requires forall k :: 0 <= k < |routes| ==> HasPage(routes[k])
    ensures o in PageOutputs(routes, year) <==>
      exists r, ru :: r in routes &&
        o == Rendered(PagePath(r, ru), TemplateFiles(r), PageData(ExportTitle(r), if ru then "ru" else "en", year, "/"))
    decreases |routes|
  {
    if routes != [] {
      var r := routes[0];
      GeneratePageOfRoute(r, year);
      PageOutputsMembers(routes[1..], year, o);
      var en := Rendered(PagePath(r, false), TemplateFiles(r), PageData(ExportTitle(r), "en", year, "/"));
      var ru := Rendered(PagePath(r, true), TemplateFiles(r), PageData(ExportTitle(r), "ru", year, "/"));
      if o == en {
        assert o == Rendered(PagePath(r, false), TemplateFiles(r), PageData(ExportTitle(r), if false then "ru" else "en", year, "/"));
      } else if o == ru {
        assert o == Rendered(PagePath(r, true), TemplateFiles(r), PageData(ExportTitle(r), if true then "ru" else "en", year, "/"));
      }
      forall q, qru | q in routes && o == Rendered(PagePath(q, qru), TemplateFiles(q), PageData(ExportTitle(q), if qru then "ru" else "en", year, "/"))
        ensures o in PageOutputs(routes, year)
      {
        if q != r {
          assert q in routes[1..];
        }
      }
    }
  }

  /** The exporter writes seven pages in two languages and four stubs. */
  lemma {:induction false} GenerateAllPagesCount(year: int)
    ensures |GenerateAllPages(year)| == 18
  {
    var rs := PageRoutes;
    forall k | 0 <= k <= |rs|
      ensures |PageOutputs(rs[k..], year)| == 2 * (|rs| - k)
    {
      PageOutputsLength(rs[k..], year);
    }
    assert rs[0..] == rs;
  }

  lemma {:induction false} PageOutputsLength(routes: seq<Route>, year: int)
    requires forall k :: 0 <= k < |routes| ==> HasPage(routes[k])
    ensures |PageOutputs(routes, year)| == 2 * |routes|
    decreases |routes|
  {
    if routes != [] {
      GeneratePageOfRoute(routes[0], year);
      PageOutputsLength(routes[1..], year);
    }
  }

  /** The route of each output, two outputs (English, then Russian) per
      route: the pages in generation order, then docs and download. */
  const OutputRoutes: seq<Route> := PageRoutes + [Docs, Download]

  /** The first page route contributes its English and its Russian file;
      the other routes follow. */
  lemma PageOutputsCons(routes: seq<Route>, year: int)
    requires forall i :: 0 <= i < |routes| ==> HasPage(routes[i])
    requires routes != []
    ensures |PageOutputs(routes, year)| >= 2
    ensures PageOutputs(routes, year)[0].path == PagePath(routes[0], false)
    ensures PageOutputs(routes, year)[1].path == PagePath(routes[0], true)
    ensures PageOutputs(routes, year)[2..] == PageOutputs(routes[1..], year)
  {
    GeneratePageOfRoute(routes[0], year);
  }

  function Bit(b: bool): nat
  {
    if b then 1 else 0
  }

  /** `outs` holds, for each route in turn, the file `name` gives it in
      English and then the one in Russian. */
  ghost predicate Paired(outs: seq<Output>, routes: seq<Route>, name: (Route, bool) -> string)
    decreases |routes|
  {
    if routes == [] then outs == []
    else
      |outs| >= 2 && outs[0].path == name(routes[0], false)
      && outs[1].path == name(routes[0], true)
      && Paired(outs[2..], routes[1..], name)
  }

  lemma {:induction false} PageOutputsPaired(routes: seq<Route>, year: int)
    requires forall k :: 0 <= k < |routes| ==> HasPage(routes[k])
    ensures Paired(PageOutputs(routes, year), routes, PagePath)
    decreases |routes|
  {
    if routes != [] {
      PageOutputsCons(routes, year);
      var tail := routes[1..];
      forall k | 0 <= k < |tail|
        ensures HasPage(tail[k])
      {
        assert tail[k] == routes[k + 1];
      }
      PageOutputsPaired(tail, year);
    }
  }

  /** In paired outputs route `i` is at `2 * i` in English and right after
      in Russian. */
  lemma {:induction false} PairedAt(outs: seq<Output>, routes: seq<Route>, name: (Route, bool) -> string,
                                    i: nat, ru: bool)
    requires Paired(outs, routes, name) && i < |routes|
    ensures 2 * i + Bit(ru) < |outs|
    ensures outs[2 * i + Bit(ru)].path == name(routes[i], ru)
    decreases i
  {
    if i > 0 {
      PairedAt(outs[2..], routes[1..], name, i - 1, ru);
      assert outs[2..][2 * (i - 1) + Bit(ru)] == outs[2 * i + Bit(ru)];
      assert routes[1..][i - 1] == routes[i];
    }
  }

  /** The outputs of `generateAllPages` by index: fourteen pages, then the
      four stubs. */
  lemma GenerateAllPagesAt(year: int, k: nat)
    requires k < 18
    ensures forall i :: 0 <= i < |PageRoutes| ==> HasPage(PageRoutes[i])
    ensures |GenerateAllPages(year)| == 18
    ensures k < 14 ==> k < |PageOutputs(PageRoutes, year)| && GenerateAllPages(year)[k] == PageOutputs(PageRoutes, year)[k]
    ensures k >= 14 ==> GenerateAllPages(year)[k] == Redirects[k - 14]
  {
    var pages := PageOutputs(PageRoutes, year);
    GenerateAllPagesCount(year);
    PageRoutesHavePages();
    PageOutputsLength(PageRoutes, year);
    assert GenerateAllPages(year) == pages + Redirects;
  }

  /** Output `2 * i` is the English file of route `OutputRoutes[i]`, and
      the Russian one follows it. */
  lemma OutputPath(year: int, i: nat, ru: bool)
    requires i < 9
    ensures 2 * i + Bit(ru) < |GenerateAllPages(year)|
    ensures GenerateAllPages(year)[2 * i + Bit(ru)].path == PagePath(OutputRoutes[i], ru)
  {
    GenerateAllPagesAt(year, 2 * i + Bit(ru));
    if i < 7 {
      PagePathAt(year, i, ru);
      assert OutputRoutes[i] == PageRoutes[i];
    } else {
      StubPath(i - 7, ru);
    }
  }

  /** The rendered pages by index: each page route, English then Russian. */
  lemma PagePathAt(year: int, i: nat, ru: bool)
    requires i < 7
    ensures forall k :: 0 <= k < |PageRoutes| ==> HasPage(PageRoutes[k])
    ensures 2 * i + Bit(ru) < |PageOutputs(PageRoutes, year)|
    ensures PageOutputs(PageRoutes, year)[2 * i + Bit(ru)].path == PagePath(PageRoutes[i], ru)
  {
    PageRoutesHavePages();
    PageOutputsPaired(PageRoutes, year);
    PairedAt(PageOutputs(PageRoutes, year), PageRoutes, PagePath, i, ru);
  }

  /** The stubs by index: docs then download, English then Russian. */
  lemma StubPath(i: nat, ru: bool)
    requires i < 2
    ensures Redirects[2 * i + Bit(ru)].path == PagePath(OutputRoutes[7 + i], ru)
  {
    if i == 0 {
      assert OutputRoutes[7] == Docs;
    } else {
      assert OutputRoutes[8] == Download;
    }
  }

  lemma OutputRoutesDistinct()
    ensures forall i, j :: 0 <= i < j < |OutputRoutes| ==> OutputRoutes[i] != OutputRoutes[j]
  {
  }

  lemma PagePathInjective(r: Route, ru: bool, q: Route, qru: bool)
    requires PagePath(r, ru) == PagePath(q, qru)
    ensures r == q && ru == qru
  {
    StaticTargetInjective(r, ru, q, qru);
  }

  /** Two outputs named by different routes or languages have different
      paths. */
  lemma OutputPairDistinct(year: int, i: nat, ru: bool, i2: nat, ru2: bool)
    requires i < 9 && i2 < 9 && (i != i2 || ru != ru2)
    ensures 2 * i + Bit(ru) < |GenerateAllPages(year)| && 2 * i2 + Bit(ru2) < |GenerateAllPages(year)|
    ensures GenerateAllPages(year)[2 * i + Bit(ru)].path != GenerateAllPages(year)[2 * i2 + Bit(ru2)].path
  {
    OutputPath(year, i, ru);
    OutputPath(year, i2, ru2);
    if PagePath(OutputRoutes[i], ru) == PagePath(OutputRoutes[i2], ru2) {
      PagePathInjective(OutputRoutes[i], ru, OutputRoutes[i2], ru2);
      OutputRoutesDistinct();
      assert false;
    }
  }

  /** No two outputs share a path: the export never overwrites a file it
      wrote. */
  lemma OutputPathsDistinct(year: int)
    ensures forall j, k :: 0 <= j < k < |GenerateAllPages(year)| ==>
      GenerateAllPages(year)[j].path != GenerateAllPages(year)[k].path
  {
    GenerateAllPagesCount(year);
    forall j, k | 0 <= j < k < 18
      ensures GenerateAllPages(year)[j].path != GenerateAllPages(year)[k].path
    {
      OutputIndexDistinct(year, j, k);
    }
  }

  lemma OutputIndexDistinct(year: int, j: nat, k: nat)
    requires j < k < 18
    ensures k < |GenerateAllPages(year)|
    ensures GenerateAllPages(year)[j].path != GenerateAllPages(year)[k].path
  {
    var ji, jru := Halve(j);
    var ki, kru := Halve(k);
    OutputPairDistinct(year, ji, jru, ki, kru);
  }

  /** An index of the output list as a route index and a language. */
  lemma Halve(k: nat) returns (i: nat, ru: bool)
    ensures k == 2 * i + Bit(ru)
  {
    i, ru := k / 2, k % 2 == 1;
  }

  /** A redirect among the outputs is one of the four stubs. */
  lemma RedirectOfStubs(year: int, o: Output)
    requires o in GenerateAllPages(year) && o.Redirect?
    ensures o in Redirects
  {
    PageRoutesHavePages();
    if o in PageOutputs(PageRoutes, year) {
      PageOutputsLanguage(PageRoutes, year, o);
    }
  }

  /** Every link target the rewrite produces names a file of the output tree:
      a rendered page, or a redirect stub for docs and download. */
  lemma StaticTargetsExist(r: Route, ru: bool, year: int)
    ensures exists o :: o in GenerateAllPages(year) && "/" + o.path == StaticTarget(r, ru)
  {
    PageRoutesHavePages();
    var pages := PageOutputs(PageRoutes, year);
    assert GenerateAllPages(year) == pages + Redirects;
    if HasPage(r) {
      var o := PageOutput(r, ru, year);
      PageOutputOfRoute(r, ru, year);
      assert o in pages + Redirects;
    } else {
      var o := Redirect(PagePath(r, ru), if ru then "/index_ru.html" else "/");
      assert o in Redirects;
      assert o in pages + Redirects;
    }
  }

  /** The rendered output of a page in one language. */
  function PageOutput(r: Route, ru: bool, year: int): Output
    requires HasPage(r)
  {
    Rendered(PagePath(r, ru), TemplateFiles(r), PageData(ExportTitle(r), if ru then "ru" else "en", year, "/"))
  }

  lemma PageRoutesComplete(r: Route)
    requires HasPage(r)
    ensures r in PageRoutes
  {
    match r
    case Subproject(p) => {
      match p
      case Graphics =>
        assert PageRoutes[3] == r;
      case Importer =>
        assert PageRoutes[4] == r;
      case Contractor =>
        assert PageRoutes[5] == r;
      case Math =>
        assert PageRoutes[6] == r;
    }
    case Home =>
      assert PageRoutes[0] == r;
    case Features =>
      assert PageRoutes[1] == r;
    case Examples =>
      assert PageRoutes[2] == r;
  }

  /** Each page route yields its output in either language. */
  lemma PageOutputOfRoute(r: Route, ru: bool, year: int)
    requires HasPage(r)
    ensures forall k :: 0 <= k < |PageRoutes| ==> HasPage(PageRoutes[k])
    ensures PageOutput(r, ru, year) in PageOutputs(PageRoutes, year)
  {
    PageRoutesComplete(r);
    PageRoutesHavePages();
    PageOutputsMembers(PageRoutes, year, PageOutput(r, ru, year));
  }

  /** A rendered file is classified Russian by the rewrite pass exactly when
      it was rendered with language "ru". */
  lemma RenderedLanguageAgrees(year: int, o: Output)
    requires o in GenerateAllPages(year) && o.Rendered?
    ensures IsRussianPath(o.path) <==> o.data.lang == "ru"
  {
    PageRoutesHavePages();
    var pages := PageOutputs(PageRoutes, year);
    assert GenerateAllPages(year) == pages + Redirects;
    RenderedOfPages(pages, o);
    PageOutputsLanguage(PageRoutes, year, o);
  }

  lemma PageRoutesHavePages()
    ensures forall k :: 0 <= k < |PageRoutes| ==> HasPage(PageRoutes[k])
  {
  }

  /** The stubs are no rendered pages. */
  lemma RenderedOfPages(pages: seq<Output>, o: Output)
    requires o in pages + Redirects && o.Rendered?
    ensures o in pages
  {
    assert forall x :: x in Redirects ==> x.Redirect?;
  }

  lemma {:induction false} PageOutputsLanguage(routes: seq<Route>, year: int, o: Output)
    requires forall k :: 0 <= k < |routes| ==> HasPage(routes[k])
    requires o in PageOutputs(routes, year)
    ensures o.Rendered? && (IsRussianPath(o.path) <==> o.data.lang == "ru")
    decreases |routes|
  {
    var r := routes[0];
    PageOutputsUnfold(routes, year);
    if o == PageOutput(r, false, year) {
      PathLanguage(r, false);
    } else if o == PageOutput(r, true, year) {
      PathLanguage(r, true);
    } else {
      PageOutputsLanguage(routes[1..], year, o);
    }
  }

  /** The first route's two files, then the other routes' files. */
  lemma PageOutputsUnfold(routes: seq<Route>, year: int)
    requires forall k :: 0 <= k < |routes| ==> HasPage(routes[k])
    requires routes != []
    ensures forall k :: 0 <= k < |routes[1..]| ==> HasPage(routes[1..][k])
    ensures PageOutputs(routes, year) ==
      [PageOutput(routes[0], false, year), PageOutput(routes[0], true, year)] + PageOutputs(routes[1..], year)
  {
    GeneratePageOfRoute(routes[0], year);
    var tail := routes[1..];
    forall k | 0 <= k < |tail|
      ensures HasPage(tail[k])
    {
      assert tail[k] == routes[k + 1];
    }
  }

  /** A page's file counts as Russian exactly when it is the Russian one. */
  lemma PathLanguage(r: Route, russian: bool)
    ensures IsRussianPath(PagePath(r, russian)) == russian
  {
    PagePathLanguages(r);
  }

  /** A redirect stub of the output tree targets the home page in the
      language its path is classified as. */
  lemma RedirectTargetsHome(o: Output)
    requires o in Redirects
    ensures o.target == (if IsRussianPath(o.path) then "/index_ru.html" else "/")
  {
    var k :| 0 <= k < 4 && Redirects[k] == o;
    var r := if k < 2 then Docs else Download;
    var ru := k % 2 == 1;
    assert o == Redirect(PagePath(r, ru), if ru then "/index_ru.html" else "/");
    PathLanguage(r, ru);
  }

  /** The stub text cut at its double quotes: the meta refresh, the link
      and the link text all carry the target. */
  function StubSegments(target: string): seq<string>
  {
    ["<!DOCTYPE html>\n<html>\n" + "<head>\n    <meta http-equiv=",
     "refresh",
     " content=",
     "0; url=" + target,
     ">\n</head>\n<body>\n" + "    <p>Redirecting to " + "<a href=",
     target,
     ">" + target + "</a></p>\n" + "</body>\n</html>"]
  }

  /** `generateRedirect`: a meta-refresh page whose only content is a link
      to `target`. */
  function RedirectStub(target: string): string
  {
    Join(StubSegments(target))
  }

  /** Reads back the target of a redirect stub: the link's `href`. */
  function StubTarget(html: string): Option<string>
  {
    var parts := Split(html);
    if |parts| == 7 then Some(parts[5]) else None
  }

  /** The stub depends on nothing but its target and gives it back: the
      target appears in the refresh url, the link and the link text. */
  lemma RedirectStubRoundTrip(target: string)
    requires Quote !in target
    ensures Split(RedirectStub(target)) == StubSegments(target)
    ensures StubTarget(RedirectStub(target)) == Some(target)
  {
    StubSegmentsUnquoted(target);
    SplitJoin(StubSegments(target));
  }

  lemma StubSegmentsUnquoted(target: string)
    requires Quote !in target
    ensures |StubSegments(target)| == 7
    ensures forall k :: 0 <= k < 7 ==> Quote !in StubSegments(target)[k]
  {
    StubHeadUnquoted();
    StubTailUnquoted();
    var parts := StubSegments(target);
    assert Quote !in parts[3] && Quote !in parts[6];
  }

  lemma StubHeadUnquoted()
    ensures Quote !in "<!DOCTYPE html>\n<html>\n" + "<head>\n    <meta http-equiv="
    ensures Quote !in "refresh" && Quote !in " content=" && Quote !in "0; url="
  {
  }

  lemma StubTailUnquoted()
    ensures Quote !in ">\n</head>\n<body>\n" + "    <p>Redirecting to " + "<a href="
    ensures Quote !in ">" && Quote !in "</a></p>\n" + "</body>\n</html>"
  {
  }

  /** Different targets give different stubs. */
  lemma RedirectStubInjective(t1: string, t2: string)
    requires Quote !in t1 && Quote !in t2
    requires RedirectStub(t1) == RedirectStub(t2)
    ensures t1 == t2
  {
    RedirectStubRoundTrip(t1);
    RedirectStubRoundTrip(t2);
  }
}
