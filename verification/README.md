# model-renderer site: the static export and the development server

This project models the Go program that serves the model-renderer website.
The program has two modes:

- **Development server.** It renders each page's templates on request and
  takes the language from the `lang` query parameter.
- **Static exporter.** It writes every page once in English and once in
  Russian (`index.html` / `index_ru.html`), plus four meta-refresh redirect
  stubs. It then rewrites every `.html` file under `docs/` with a fixed,
  ordered table of literal replace-all substitutions. That covers the
  generated files and any other `.html` file in the tree, such as one copied
  from `assets/`; the model covers the eighteen generated files. These make the links work on a
  static host.

The model is functional. Strings are `seq<char>`. Go's
`strings.Replace(s, old, new, -1)` is a recursive `ReplaceAll`. The
per-file rewrite is `Fix(content, russian)`: one ordered sequence of
(pattern, replacement) rules folded from left to right, so the order of the
substitutions is data.

Modules, in dependency order:

- `Strings`: occurrence, leftmost index, first replacement and replace-all,
  with the facts that pin replace-all down.
- `Quotes`: cutting a text at its double quotes. Every rewrite pattern holds
  at least two quotes. An occurrence of a pattern must line the pattern's
  inner quoted segments up with consecutive segments of the text. This is
  how the proofs show that a literal link does NOT occur in another.
- `Site`: routes and their paths, the output tree (`generatePage`,
  `generateAllPages`), the Russian sibling path, `getLanguageDisplay` and the
  redirect stub.
- `Rewrite`: the substitution table of `fixLanguageLinks` and `Fix`.
- `LinkTable`: why the link part of the table resolves each `href` on its
  own. No rule fires inside another rule's source or target, so the whole
  table acts on a link like a lookup, `Resolve`.
- `FixFacts` and `PageFixes`: what `Fix` does to each kind of text a page
  holds. This covers nav links, `?lang=ru` links, bare links, the `<base>`
  tag, the toggle flag and label, the body tag, the leftover debug line and
  redirect stubs.
- `InPage`: the same facts inside a whole page. `Fix` runs over the entire
  file, so a fragment is rewritten on its own as soon as no substitution
  matches across its edges (`Embedded`). A character that no pattern holds,
  such as `_`, always gives such an edge.
- `Server`: `getLanguage`, `getPageData`, the template registry,
  `renderTemplate` and the handlers.
- `Export`: the exported site end to end, and how it agrees with the server.

Behaviour worth knowing:

- **The rewrite is not idempotent.** The body-tag rule's replacement starts
  with the body tag itself, so a second pass inserts a second debug script.
  `PageFixes.FixNotIdempotent` proves this.
- **Bare subproject links are never rewritten.** Only `/examples`,
  `/features`, `/docs` and `/download` have bare rules; on Russian pages
  `/` has one too.
- **Bare `href="/"` on Russian pages goes to the English home page**
  `/index.html`. That rule runs after the `<base>` fix, so on Russian pages
  the fixed `<base href="/">` becomes `<base href="/index.html">` as well.
  Path-relative URLs resolve the same way against both. A reference that
  is only a fragment, only a query, or empty resolves to `/#x` against
  the first and to `/index.html#x` against the second; on a static host
  both name the same file.
- **The language of a file comes from its path.** The rewrite walks
  `docs/` and tests the walked path for `_ru.html`. The model classifies
  the path inside the tree; `docs/` holds no `_`, so both agree
  (`Site.WalkedPathLanguage`).

## Model

| member | source | states |
|---|---|---|
| Strings.ReplaceAllAbsent | build_github_pages.go:408-410 | `replaceLink` with a link that does not occur returns the content unchanged |
| Strings.ReplaceAllLeftmost | build_github_pages.go:408-410 | replace-all rewrites the leftmost occurrence and resumes scanning after it, so matches do not overlap and are taken left to right |
| Strings.ReplaceAllByIndex | build_github_pages.go:408-410 | replace-all in terms of the leftmost index: no index leaves the text alone; otherwise the text before it, the replacement, then replace-all of the rest |
| Strings.ReplaceAllIdentity | build_github_pages.go:408-410 | replacing a pattern by itself changes nothing |
| Strings.ReplaceAllSplice | build_github_pages.go:408-410 | a pattern that first occurs at a known place is replaced there and the scan continues after it |
| Strings.ReplaceAllSeam | build_github_pages.go:408-410 | across a cut that no occurrence straddles, replace-all rewrites each side on its own |
| Strings.ReplaceFirst | build_github_pages.go:134 | `strings.Replace(…, 1)`: the leftmost occurrence is replaced, and the text is unchanged when there is none |
| Strings.Contains | build_github_pages.go:132 | `strings.Contains` holds exactly when the pattern occurs somewhere |
| Rewrite.ApplyRules | build_github_pages.go:236-380 | substitutions none of whose patterns occur leave the content unchanged |
| Rewrite.ApplyRulesAppend | build_github_pages.go:236-380 | applying the table in two consecutive parts is the same as applying it whole |
| Rewrite.ApplyRulesSeam | build_github_pages.go:236-380 | across a cut that no substitution matches over at any step, the table rewrites each side on its own |
| Rewrite.ApplyRulesMarks | build_github_pages.go:236-380 | characters no pattern holds pass through the table and cut the text into parts rewritten independently |
| Rewrite.Resolve | build_github_pages.go:294-348 | a link becomes the target of the first table entry whose source it is, or stays as it is when there is none |
| LinkTable.LinkTableApply | build_github_pages.go:294-348 | the sequence of `replaceLink` calls turns `href="p"` into `href="Resolve(p)"`: no entry fires inside another entry's source or target |
| LinkTable.LinksShape | build_github_pages.go:294-348 | every source of the link table, in either language, is a plain path or a templated nav link, and every target is a quote-free path with a `.` in it |
| LinkTable.LinkTargetsExist | build_github_pages.go:292-348 | every target of the link table, in either language, names a file the export writes |
| LinkTable.ResolveNav | build_github_pages.go:297-320 | the templated nav link of every route resolves to that route's `index_ru.html` on Russian pages and `index.html` on English pages |
| LinkTable.ResolveQuery | build_github_pages.go:323-337 | `R?lang=ru` resolves to R's Russian file on Russian pages and is not in the table on English pages |
| LinkTable.ResolveBare | build_github_pages.go:292-348 | a bare `/` resolves to `/index.html` on Russian pages only; the four top-level bare links resolve to the page-language file; subproject links and the English `/` are not in the table |
| LinkTable.KindLinkInjective | build_github_pages.go:297-337 | entries of one kind name their route unambiguously |
| FixFacts.FixPhases | build_github_pages.go:236-380 | the rewrite runs the base and cleanup fixes, then the link table, then the toggle and body fixes |
| FixFacts.RootInBaseTag | build_github_pages.go:296 | the Russian root rule fires inside the fixed base tag |
| InPage.FixInPage | build_github_pages.go:236-380 | a fragment whose edges no substitution matches across is rewritten on its own, and so is the rest of the page |
| InPage.FixBetweenMarks | build_github_pages.go:236-380 | a fragment set off by characters no pattern holds is rewritten on its own in any page |
| InPage.UnderscoreUnmatched | build_github_pages.go:236-380 | no pattern of either table holds `_`, so `_` always gives a clean edge |
| InPage.NavLinkBetweenUnderscores | build_github_pages.go:296-320 | in any page, a templated nav link set off by `_` becomes the static link to the route's file in the page's language |
| InPage.NavLinkInPage | build_github_pages.go:296-320 | in a page, each templated nav link becomes the static link to the route's file in the page's language, and the rest of the page is rewritten on its own |
| InPage.QueryLinkInPage | build_github_pages.go:323-337 | in a page, a `?lang=ru` link becomes the route's Russian file on Russian pages and stays on English pages |
| InPage.BareLinkInPage | build_github_pages.go:292-348 | in a page, a bare `/` becomes `/index.html` on Russian pages, the four top-level bare links go to the page-language file, and every other bare link stays |
| InPage.SubprojectBareInPage | build_github_pages.go:333-348 | in a page, a bare subproject link survives the rewrite on both kinds of page |
| InPage.StaticLinkInPage | build_github_pages.go:292-348 | in a page, a link that already names an output file is left alone |
| InPage.BaseTagInPage | build_github_pages.go:235-241 | in a page, the `{{ .BaseURL }}` placeholder becomes `/`, and on Russian pages the root rule of line 296 then turns it into `/index.html` |
| InPage.CleanupInPage | build_github_pages.go:284-290 | in a page, the leftover debug line collapses to `"></script>` |
| InPage.FlagInPage | build_github_pages.go:350-369 | in a page, the toggle's flag template becomes the US-flag literal on Russian pages and the Russian-flag literal on English pages, as the characters the source holds (see "## Left out") |
| InPage.LabelInPage | build_github_pages.go:350-369 | in a page, the toggle's label template becomes "English" on Russian pages and the Russian-label literal on English pages, as the characters the source holds (see "## Left out") |
| InPage.BodyTagInPage | build_github_pages.go:371-379 | in a page, the body tag is kept and followed by the script that prints the page language; the rest of the page is rewritten on its own |
| PageFixes.FixNotIdempotent | build_github_pages.go:372-379 | a second rewrite of a fixed body tag inserts the script again, so the rewrite is not idempotent |
| PageFixes.FixStub | build_github_pages.go:157-165 | a redirect stub whose target is neutral for the link table comes out of the rewrite unchanged |
| PageFixes.FixRedirects | build_github_pages.go:94-97 | each of the four redirect stubs survives the rewrite in the language of its own path |
| PageFixes.FixNoQuote | build_github_pages.go:236-380 | every pattern holds a double quote, so a text without one is left exactly as it is |
| Site.Dispatch | main.go:75-85 | the router maps a path to a route only when the path is that route's path |
| Site.DispatchRoutePath | main.go:75-85 | each route's path is routed to that route |
| Site.RoutePathInjective | main.go:75-85 | different routes have different paths |
| Site.PagePathLanguages | build_github_pages.go:132-134 | no English page path holds `_ru`; its sibling (first `index.html` replaced) is the Russian path; only the latter is Russian by the `_ru.html` test |
| Site.HomeSibling | build_github_pages.go:134 | `index.html` gets the sibling `index_ru.html` |
| Site.GeneratePage | build_github_pages.go:104-152 | the page is rendered in English with base URL `/`, and a Russian copy goes under the sibling path exactly when the path holds no `_ru` |
| Site.GeneratePageOfRoute | build_github_pages.go:79-91 | each of the seven pages yields its English and its Russian file |
| Site.GenerateAllPagesCount | build_github_pages.go:77-97 | fourteen pages and four stubs: eighteen files |
| Site.PageOutputsMembers | build_github_pages.go:77-91 | a file is among the pages exactly when it is the English or Russian rendering of one of the listed routes |
| Site.StaticTargetsExist | build_github_pages.go:297-320 | every target the link table writes names a generated file |
| Site.StaticTargetInjective | build_github_pages.go:297-320 | different routes or languages get different targets |
| Site.OutputPathsDistinct | build_github_pages.go:77-100 | no two generated files share a path |
| Site.WalkedPathLanguage | build_github_pages.go:219-233 | the walked path `docs/<path>` is Russian by the `_ru.html` test exactly when `<path>` is |
| Site.RenderedLanguageAgrees | build_github_pages.go:233 | a page is treated as Russian by the rewrite exactly when it was rendered with `lang` set to `ru` |
| Site.RedirectTargetsHome | build_github_pages.go:94-97 | English stubs point to `/` and Russian stubs to `/index_ru.html` |
| Site.RedirectStubRoundTrip | build_github_pages.go:157-165 | the stub depends only on its target, which appears in the refresh url, the link and the link text and reads back from the link |
| Site.RedirectStubInjective | build_github_pages.go:157-165 | different targets give different stubs |
| Site.LanguageDisplay | build_github_pages.go:400-405 | true gives "Russian", false gives "English" |
| Server.QueryGet | main.go:96 | the first value of a key, or the empty string when there is none |
| Server.GetLanguage | main.go:95-101 | "ru" exactly when the `lang` value is "ru", otherwise "en" |
| Server.GetPageData | main.go:103-109 | title from the argument, language from `getLanguage`, empty base URL |
| Server.LoadTemplates | main.go:25-39 | exactly seven keys are registered |
| Server.TemplateKeysArePages | main.go:32-38 | the registered keys are exactly the keys of the page routes |
| Server.TemplatesAgree | main.go:32-38 | the server parses the same three files for a page as the exporter does |
| Server.RenderTemplate | main.go:111-121 | a registered key executes `layout` with the data; a missing key fails with 500 "Template not found" |
| Server.RedirectTarget | main.go:138-154 | docs and download redirect to `/?lang=ru` exactly when `lang` is "ru", and to `/` otherwise |
| Server.RedirectKeepsLanguage | main.go:138-154 | the redirect asks for Russian exactly when `getLanguage` says Russian |
| Server.HandleOutcome | main.go:123-173 | no route reaches "Template not found": page routes render their own template, docs and download redirect with 307 |
| Server.ServeRoutes | main.go:75-85 | every route's path is served by that route's handler |
| Export.ExportSite | build_github_pages.go:77-100 | one file per generated output at its path, no path written twice, each page rewritten in the language it was rendered in, each stub kept as written |
| Export.ExportSiteSize | build_github_pages.go:77-100 | the export writes eighteen files |
| Export.ExportedPageLanguage | build_github_pages.go:227-233 | each rendered page is rewritten in the language it was rendered in |
| Export.ExportedStub | build_github_pages.go:94-97 | each exported stub is the stub as written and still sends its reader to the home page of its own language |
| Export.RedirectAgreement | main.go:138-154 | the server's docs/download redirect, rewritten as a link on a page of the requested language, names the same home page as the static stub of that language |
| Export.ServerDataMatchesExport | main.go:103-109 | for a page and any query the server renders the same files in the same language and year as the exporter's file of the requested language; only the title and base URL differ |

## Left out

- The `switchLanguage` substitution (build_github_pages.go:243-282) is left out. It is a regular expression with lazy matching, and its replacement is opaque JavaScript. The table modelled here is everything before and after it; the property that link sources and targets never contain the function's text is not stated.
- Filesystem work is left out because it is I/O. This covers `setupDirectories`, copying assets, `.nojekyll`, the `filepath.Walk` traversal, and reading and writing files. The model is the content of each file and its path.
- Export.ExportSite: covers the eighteen generated files only. The walk (build_github_pages.go:219-225) rewrites every `.html` file under `docs/`. That includes any `.html` file that `copyDirectory` (build_github_pages.go:185-211) brought in from `assets/`, and any file left from an earlier run. The same `Fix` applies to those, but the model does not list them, because their contents lie outside the program.
- `html/template` parsing and execution are left out because they are a foreign library. The server records the files and data it would execute. The exporter takes rendering as a parameter `render(files, data)`.
- HTTP mechanics are left out: the chi router, middleware, CORS, `ListenAndServe`, static asset serving and `http.Redirect` itself. Only the chosen status and location are modelled.
- `time.Now().Year()` is a parameter `year`.
- Logging, `fmt` output and flag parsing are left out, because none of them changes the content of any file.
- Error exits are left out. The model covers a run in which every template parses and executes and every file operation succeeds, so `render` is a total function. On any such error the exporter exits through `log.Fatalf` (build_github_pages.go:108-147, 171, 395), and a template that fails to parse stops the server at start-up through `template.Must` (main.go:32-38). The exporter's exit can leave a page truncated by `os.Create` and never finished, a page with no Russian sibling, or a tree whose links were only partly rewritten.
- The earlier variant static_generator.go is not part of this model. `main` never calls it.
- Byte-level string semantics are left out: Go strings are bytes, and the model treats a string as a sequence of characters. The two flag literals (build_github_pages.go:354-355, 363-364) and the Russian-label literal (build_github_pages.go:368) are not the emoji 🇷🇺 and 🇺🇸 or the word "Русский". They are the UTF-8 bytes of those, read as Mac Roman and written back as UTF-8: U+F8FF `üá∑` U+F8FF `üá∫`, U+F8FF `üá∫` U+F8FF `üá∏` (U+F8FF is the Apple-logo character Mac Roman puts at byte `F0`) and `–†—É—Å—Å–∫–∏–π`. The program emits those characters, and the model copies them exactly (`RuFlag`, `UsFlag`, `RussianLabel`).
- Idempotence of the rewrite is not claimed, because the code is not idempotent (`PageFixes.FixNotIdempotent`).
- InPage.NavLinkInPage: requires the fragment to be `Embedded`, i.e. no substitution matches across its edges. `InPage.FixBetweenMarks` discharges this for any fragment set off by a character no pattern holds; which other surrounding HTML qualifies is not characterised.
- InPage.QueryLinkInPage: requires the fragment to be `Embedded`, i.e. no substitution matches across its edges. `InPage.FixBetweenMarks` discharges this for any fragment set off by a character no pattern holds; which other surrounding HTML qualifies is not characterised.
- InPage.BareLinkInPage: requires the fragment to be `Embedded`, i.e. no substitution matches across its edges. `InPage.FixBetweenMarks` discharges this for any fragment set off by a character no pattern holds; which other surrounding HTML qualifies is not characterised.
- InPage.SubprojectBareInPage: requires the fragment to be `Embedded`, i.e. no substitution matches across its edges. `InPage.FixBetweenMarks` discharges this for any fragment set off by a character no pattern holds; which other surrounding HTML qualifies is not characterised.
- InPage.StaticLinkInPage: requires the fragment to be `Embedded`, i.e. no substitution matches across its edges. `InPage.FixBetweenMarks` discharges this for any fragment set off by a character no pattern holds; which other surrounding HTML qualifies is not characterised.
- InPage.BaseTagInPage: requires the fragment to be `Embedded`, i.e. no substitution matches across its edges. `InPage.FixBetweenMarks` discharges this for any fragment set off by a character no pattern holds; which other surrounding HTML qualifies is not characterised.
- InPage.CleanupInPage: requires the fragment to be `Embedded`, i.e. no substitution matches across its edges. `InPage.FixBetweenMarks` discharges this for any fragment set off by a character no pattern holds; which other surrounding HTML qualifies is not characterised.
- InPage.FlagInPage: requires the fragment to be `Embedded`, i.e. no substitution matches across its edges. `InPage.FixBetweenMarks` discharges this for any fragment set off by a character no pattern holds; which other surrounding HTML qualifies is not characterised.
- InPage.LabelInPage: requires the fragment to be `Embedded`, i.e. no substitution matches across its edges. `InPage.FixBetweenMarks` discharges this for any fragment set off by a character no pattern holds; which other surrounding HTML qualifies is not characterised.
- InPage.BodyTagInPage: requires the fragment to be `Embedded`, i.e. no substitution matches across its edges. `InPage.FixBetweenMarks` discharges this for any fragment set off by a character no pattern holds; which other surrounding HTML qualifies is not characterised.
- Server.RenderTemplate: a template execution error (500 with the error text) is not modelled, because execution is not modelled.
