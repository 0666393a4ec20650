/** The development server: the language a request asks for, the page
    data it is rendered with, the template registry and the handlers of
    the routes. Rendering is not modelled; a response records the files
    of the template it would execute, the entry template and the data. */
module Server {
  import opened Strings
  import opened Site

  /** A parsed query string: every key with its values in order. */
  type Query = map<string, seq<string>>

  /** `Values.Get`: the first value of a key, or the empty string. */
  function QueryGet(q: Query, key: string): (v: string)
    ensures key !in q ==> v == ""
    ensures key in q && |q[key]| > 0 ==> v == q[key][0]
    ensures v != "" ==> key in q && v in q[key]
  {
    if key in q && |q[key]| > 0 then q[key][0] else ""
  }

  /** `getLanguage`: Russian exactly when the `lang` value is `ru`. */
  function GetLanguage(q: Query): (lang: string)
    ensures lang == "en" || lang == "ru"
    ensures lang == "ru" <==> QueryGet(q, "lang") == "ru"
  {
    if QueryGet(q, "lang") == "ru" then "ru" else "en"
  }

  /** `getPageData`: the title given, the requested language, the current
      year (a parameter here) and no base URL. */
  function GetPageData(title: string, q: Query, year: int): (data: PageData)
    ensures data.title == title && data.year == year
    ensures data.lang == GetLanguage(q)
    ensures data.baseURL == ""
  {
    PageData(title, GetLanguage(q), year, "")
  }

  /** The key under which a page's template is registered. */
  function TemplateKey(r: Route): (key: string)
    requires HasPage(r)
  {
    match r
    case Home => "home"
    case Features => "features"
    case Examples => "examples"
    case Subproject(p) => ProjectName(p)
  }

  /** The keys `loadTemplates` registers. */
  const TemplateKeys: set<string> :=
    {"home", "features", "examples", "mr-graphics", "mr-importer", "mr-contractor", "mr-math"}

  /** `loadTemplates`: each key with the files its template is parsed from. */
  function LoadTemplates(): (templates: map<string, seq<string>>)
    ensures templates.Keys == TemplateKeys
  {
    map["home" := [LayoutTemplate, TranslationsTemplate, "templates/home.html"],
        "features" := [LayoutTemplate, TranslationsTemplate, "templates/features.html"],
        "examples" := [LayoutTemplate, TranslationsTemplate, "templates/examples.html"],
        "mr-graphics" := [LayoutTemplate, TranslationsTemplate, "templates/subprojects/mr-graphics.html"],
        "mr-importer" := [LayoutTemplate, TranslationsTemplate, "templates/subprojects/mr-importer.html"],
        "mr-contractor" := [LayoutTemplate, TranslationsTemplate, "templates/subprojects/mr-contractor.html"],
        "mr-math" := [LayoutTemplate, TranslationsTemplate, "templates/subprojects/mr-math.html"]]
  }

  /** The status codes the handlers answer with. */
  const StatusTemporaryRedirect: int := 307
  const StatusInternalServerError: int := 500

  /** What a handler answers: an executed template, an error, or a
      redirect. */
  datatype Response =
    | Render(files: seq<string>, entry: string, data: PageData)
    | Failure(status: int, message: string)
    | Moved(status: int, location: string)

  /** `renderTemplate`: execute `layout` of the registered template, or
      fail when the key is not registered. */
  function RenderTemplate(templates: map<string, seq<string>>, key: string, data: PageData): (resp: Response)
    ensures key in templates <==> resp.Render?
    ensures key in templates ==> resp == Render(templates[key], "layout", data)
    ensures key !in templates ==> resp == Failure(StatusInternalServerError, "Template not found")
  {
    if key in templates then Render(templates[key], "layout", data)
    else Failure(StatusInternalServerError, "Template not found")
  }

  /** The redirect target of `handleDocs` and `handleDownload`. */
  function RedirectTarget(q: Query): (url: string)
    ensures url == "/?lang=ru" <==> QueryGet(q, "lang") == "ru"
    ensures url == "/" <==> QueryGet(q, "lang") != "ru"
  {
    if QueryGet(q, "lang") == "ru" then "/?lang=ru" else "/"
  }

  /** The title the server gives a page. */
  function ServerTitle(r: Route): string
    requires HasPage(r)
  {
    match r
    case Home => "Game Engine"
    case Features => "Features - Game Engine"
    case Examples => "Examples - Game Engine"
    case Subproject(p) =>
      match p
      case Graphics => "MR Graphics - Game Engine"
      case Importer => "MR Importer - Game Engine"
      case Contractor => "MR Contractor - Game Engine"
      case Math => "MR Math - Game Engine"
  }

  /** The handler of a route. */
  function Handle(r: Route, q: Query, year: int): Response
  {
    match r
    case Docs => Moved(StatusTemporaryRedirect, RedirectTarget(q))
    case Download => Moved(StatusTemporaryRedirect, RedirectTarget(q))
    case _ => RenderTemplate(LoadTemplates(), TemplateKey(r), GetPageData(ServerTitle(r), q, year))
  }

  /** A request to a path: the handler of its route, or none. */
  function Serve(path: string, q: Query, year: int): Option<Response>
  {
    match Dispatch(path)
    case None => None
    case Some(r) => Some(Handle(r, q, year))
  }

  // ---------------------------------------------------------------------
  // Properties

  /** Every page route names a registered template. */
  lemma TemplateKeyRegistered(r: Route)
    requires HasPage(r)
    ensures TemplateKey(r) in LoadTemplates()
  {
  }

  /** The server parses the same files for a page as the exporter does. */
  lemma TemplatesAgree(r: Route)
    requires HasPage(r)
    ensures LoadTemplates()[TemplateKey(r)] == TemplateFiles(r)
  {
    match r
    case Subproject(p) => SubprojectTemplatesAgree(p);
    case _ =>
  }

  lemma SubprojectTemplatesAgree(p: Project)
    ensures LoadTemplates()[TemplateKey(Subproject(p))] == TemplateFiles(Subproject(p))
  {
    match p
    case Graphics => GraphicsTemplates();
    case Importer => ImporterTemplates();
    case Contractor => ContractorTemplates();
    case Math => MathTemplates();
  }

  lemma GraphicsTemplates()
    ensures LoadTemplates()["mr-graphics"] == TemplateFiles(Subproject(Graphics))
  {
    assert "templates/subprojects/" + "mr-graphics" + ".html" == "templates/subprojects/mr-graphics.html";
  }

  lemma ImporterTemplates()
    ensures LoadTemplates()["mr-importer"] == TemplateFiles(Subproject(Importer))
  {
    assert "templates/subprojects/" + "mr-importer" + ".html" == "templates/subprojects/mr-importer.html";
  }

  lemma ContractorTemplates()
    ensures LoadTemplates()["mr-contractor"] == TemplateFiles(Subproject(Contractor))
  {
    assert "templates/subprojects/" + "mr-contractor" + ".html" == "templates/subprojects/mr-contractor.html";
  }

  lemma MathTemplates()
    ensures LoadTemplates()["mr-math"] == TemplateFiles(Subproject(Math))
  {
    assert "templates/subprojects/" + "mr-math" + ".html" == "templates/subprojects/mr-math.html";
  }

  /** Registered keys and page routes correspond one to one. */
  lemma TemplateKeysArePages(key: string)
    ensures key in TemplateKeys <==> exists r :: HasPage(r) && TemplateKey(r) == key
  {
    if key in TemplateKeys {
      var r := if key == "home" then Home
        else if key == "features" then Features
        else if key == "examples" then Examples
        else if key == "mr-graphics" then Subproject(Graphics)
        else if key == "mr-importer" then Subproject(Importer)
        else if key == "mr-contractor" then Subproject(Contractor)
        else Subproject(Math);
      assert HasPage(r) && TemplateKey(r) == key;
    }
  }

  /** No route reaches the "Template not found" branch: page routes render
      their own template with the requested language, the other two
      redirect. */
  lemma HandleOutcome(r: Route, q: Query, year: int)
    ensures !Handle(r, q, year).Failure?
    ensures HasPage(r) ==>
      Handle(r, q, year) == Render(TemplateFiles(r), "layout", PageData(ServerTitle(r), GetLanguage(q), year, ""))
    ensures !HasPage(r) ==> Handle(r, q, year) == Moved(StatusTemporaryRedirect, RedirectTarget(q))
  {
    if HasPage(r) {
      TemplateKeyRegistered(r);
      TemplatesAgree(r);
    }
  }

  /** Every registered path is served; the redirect target keeps the
      requested language. */
  lemma ServeRoutes(r: Route, q: Query, year: int)
    ensures Serve(RoutePath(r), q, year) == Some(Handle(r, q, year))
  {
    DispatchRoutePath(r);
  }

  /** The redirect asks for Russian exactly when the request did. */
  lemma RedirectKeepsLanguage(q: Query)
    ensures RedirectTarget(q) == (if GetLanguage(q) == "ru" then "/" + "?lang=ru" else "/")
  {
  }
}
