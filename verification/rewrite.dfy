/** The per-file link-rewrite pass of the static exporter
    (`fixLanguageLinks`): a fixed, ordered table of literal replace-all
    substitutions applied to the content of one generated file. The order
    of the table is data: `Rules` lists the substitutions exactly in the
    order the exporter performs them. */
module Rewrite {
  import opened Strings
  import opened Quotes
  import opened Site

  /** `strings.Replace` is only ever called with a non-empty pattern. */
  type Pattern = s: string | |s| > 0 witness "href="

  /** One substitution: every occurrence of `pattern` becomes `replacement`. */
  datatype Rule = Rule(pattern: Pattern, replacement: string)

  /** The substitutions applied one after another, each to the whole text
      the previous ones produced. */
  function ApplyRules(s: string, rules: seq<Rule>): (r: string)
    ensures (forall k :: 0 <= k < |rules| ==> !Occurs(s, rules[k].pattern)) ==> r == s
    decreases |rules|
  {
    if rules == [] then s
    else
      ReplaceAllUnchanged(s, rules[0].pattern, rules[0].replacement);
      ApplyRules(ReplaceAll(s, rules[0].pattern, rules[0].replacement), rules[1..])
  }

  /** Applying a table in two parts is applying it whole. */
  lemma {:induction false} ApplyRulesAppend(s: string, a: seq<Rule>, b: seq<Rule>)
    ensures ApplyRules(s, a + b) == ApplyRules(ApplyRules(s, a), b)
    decreases |a|
  {
    if a == [] {
      assert a + b == b;
    } else {
      assert (a + b)[0] == a[0] && (a + b)[1..] == a[1..] + b;
      ApplyRulesAppend(ReplaceAll(s, a[0].pattern, a[0].replacement), a[1..], b);
    }
  }

  /** A table whose every pattern holds a character the text lacks leaves
      the text alone. */
  lemma ApplyRulesInertByChar(s: string, rules: seq<Rule>, c: char)
    requires c !in s
    requires forall k :: 0 <= k < |rules| ==> c in rules[k].pattern
    ensures ApplyRules(s, rules) == s
  {
    forall k | 0 <= k < |rules|
      ensures !Occurs(s, rules[k].pattern)
    {
      NotOccursByChar(s, rules[k].pattern, c);
    }
  }

  // ---------------------------------------------------------------------
  // Rewriting a file piece by piece

  /** No substitution of the table, applied in order, ever matches across
      the cut between `a` and `b`: at each step the cut between the two
      rewritten parts is straddled by no occurrence of that step's pattern. */
  ghost predicate CleanCut(a: string, b: string, rules: seq<Rule>)
    decreases |rules|
  {
    rules == []
    || (NoStraddle(a, b, rules[0].pattern)
        && CleanCut(ReplaceAll(a, rules[0].pattern, rules[0].replacement),
                    ReplaceAll(b, rules[0].pattern, rules[0].replacement), rules[1..]))
  }

  /** Across a clean cut the table rewrites each side on its own. */
  lemma {:induction false} ApplyRulesSeam(a: string, b: string, rules: seq<Rule>)
    requires CleanCut(a, b, rules)
    ensures ApplyRules(a + b, rules) == ApplyRules(a, rules) + ApplyRules(b, rules)
    decreases |rules|
  {
    if rules != [] {
      var pat, rep := rules[0].pattern, rules[0].replacement;
      ReplaceAllSeam(a, b, pat, rep);
      ApplyRulesSeam(ReplaceAll(a, pat, rep), ReplaceAll(b, pat, rep), rules[1..]);
    }
  }

  /** `c` is held by no pattern of the table. */
  ghost predicate Unmatched(c: char, rules: seq<Rule>)
  {
    forall k :: 0 <= k < |rules| ==> c !in rules[k].pattern
  }

  /** A cut right after a character no pattern holds is clean. */
  lemma {:induction false} CutAfterMark(a: string, c: char, b: string, rules: seq<Rule>)
    requires Unmatched(c, rules)
    ensures CleanCut(a + [c], b, rules)
    decreases |rules|
  {
    if rules != [] {
      var pat, rep := rules[0].pattern, rules[0].replacement;
      assert c !in pat;
      NoStraddleAtMark(a + [c], b, pat, c);
      ReplaceAllBeforeMark(a, c, pat, rep);
      CutAfterMark(ReplaceAll(a, pat, rep), c, ReplaceAll(b, pat, rep), rules[1..]);
    }
  }

  /** A cut right before a character no pattern holds is clean. */
  lemma {:induction false} CutBeforeMark(a: string, c: char, b: string, rules: seq<Rule>)
    requires Unmatched(c, rules)
    ensures CleanCut(a, [c] + b, rules)
    decreases |rules|
  {
    if rules != [] {
      var pat, rep := rules[0].pattern, rules[0].replacement;
      assert c !in pat;
      NoStraddleAtMark(a, [c] + b, pat, c);
      ReplaceAllAfterMark(c, b, pat, rep);
      CutBeforeMark(ReplaceAll(a, pat, rep), c, ReplaceAll(b, pat, rep), rules[1..]);
    }
  }

  /** A character no pattern holds is left alone. */
  lemma {:induction false} ApplyRulesMark(c: char, rules: seq<Rule>)
    requires Unmatched(c, rules)
    ensures ApplyRules([c], rules) == [c]
    decreases |rules|
  {
    if rules != [] {
      MarkAlone(c, rules[0].pattern, rules[0].replacement);
      ApplyRulesMark(c, rules[1..]);
    }
  }

  /** A piece with clean cuts on both sides is rewritten on its own. */
  lemma ApplyRulesThree(x: string, m: string, y: string, rules: seq<Rule>)
    requires CleanCut(x, m + y, rules) && CleanCut(m, y, rules)
    ensures ApplyRules(x + m + y, rules) == ApplyRules(x, rules) + ApplyRules(m, rules) + ApplyRules(y, rules)
  {
    var my := m + y;
    Assoc(x, m, y);
    ApplyRulesSeam(x, my, rules);
    ApplyRulesSeam(m, y, rules);
    Assoc(ApplyRules(x, rules), ApplyRules(m, rules), ApplyRules(y, rules));
  }

  /** A trailing mark passes through the table. */
  lemma ApplyRulesMarkAfter(x: string, c: char, rules: seq<Rule>)
    requires Unmatched(c, rules)
    ensures ApplyRules(x + [c], rules) == ApplyRules(x, rules) + [c]
  {
    CutBeforeMark(x, c, [], rules);
    assert [c] + [] == [c];
    ApplyRulesSeam(x, [c], rules);
    ApplyRulesMark(c, rules);
  }

  /** A leading mark passes through the table. */
  lemma ApplyRulesMarkBefore(c: char, y: string, rules: seq<Rule>)
    requires Unmatched(c, rules)
    ensures ApplyRules([c] + y, rules) == [c] + ApplyRules(y, rules)
  {
    CutAfterMark([], c, y, rules);
    assert [] + [c] == [c];
    ApplyRulesSeam([c], y, rules);
    ApplyRulesMark(c, rules);
  }

  /** Marks on both sides of a piece pass through the table and cut the
      text into independent parts. */
  lemma ApplyRulesMarks(x: string, c: char, m: string, d: char, y: string, rules: seq<Rule>)
    requires Unmatched(c, rules) && Unmatched(d, rules)
    ensures ApplyRules(x + [c] + m + [d] + y, rules) ==
      ApplyRules(x, rules) + [c] + ApplyRules(m, rules) + [d] + ApplyRules(y, rules)
  {
    var xc, dy := x + [c], [d] + y;
    CutAfterMark(x, c, m + dy, rules);
    CutBeforeMark(m, d, y, rules);
    ApplyRulesThree(xc, m, dy, rules);
    ApplyRulesMarkAfter(x, c, rules);
    ApplyRulesMarkBefore(d, y, rules);
    MarksRegroup(x, [c], m, [d], y);
    MarksRegroup(ApplyRules(x, rules), [c], ApplyRules(m, rules), [d], ApplyRules(y, rules));
  }

  /** Regrouping a text cut into five pieces as three. */
  lemma MarksRegroup<T>(x: seq<T>, c: seq<T>, m: seq<T>, d: seq<T>, y: seq<T>)
    ensures x + c + m + d + y == (x + c) + m + (d + y)
  {
  }

  // ---------------------------------------------------------------------
  // Links

  /** `href="target"`. */
  function Href(target: string): string
  {
    "href=" + [Quote] + target + [Quote]
  }

  /** The query that selects Russian on the server. */
  const RuQuery: string := "?lang=ru"

  /** The two branches of a templated nav link, after the condition. */
  function NavBranches(r: Route): string
  {
    "}}" + RoutePath(r) + RuQuery + "{{else}}" + RoutePath(r) + "{{end}}"
  }

  /** The templated link to a route, as the layout writes it inside `href`:
      `{{if eq .Lang "ru"}}/features?lang=ru{{else}}/features{{end}}`. */
  function NavLink(r: Route): string
  {
    "{{if eq .Lang " + [Quote] + "ru" + [Quote] + NavBranches(r)
  }

  /** One entry of the link table: `href="from"` becomes `href="to"`. */
  datatype Link = Link(from: string, to: string)

  /** The three kinds of link the table resolves: templated nav links, bare
      links carrying `?lang=ru`, and bare links. */
  datatype LinkKind = Templated | Query | Bare

  /** The table entry of a route, for a page in the given language. */
  function KindLink(kind: LinkKind, r: Route, russian: bool): Link
  {
    match kind
    case Templated => Link(NavLink(r), StaticTarget(r, russian))
    case Query => Link(RoutePath(r) + RuQuery, StaticTarget(r, russian))
    case Bare => Link(RoutePath(r), StaticTarget(r, russian))
  }

  /** The entries of one kind for a list of routes, in list order. */
  function RouteLinks(kind: LinkKind, rs: seq<Route>, russian: bool): (links: seq<Link>)
    ensures |links| == |rs|
    ensures forall k :: 0 <= k < |rs| ==> links[k] == KindLink(kind, rs[k], russian)
  {
    seq(|rs|, k requires 0 <= k < |rs| => KindLink(kind, rs[k], russian))
  }

  /** On Russian pages the bare root link is sent to the ENGLISH home page. */
  const RootLink: Link := Link("/", "/index.html")

  /** The order of the templated and `?lang=ru` entries. */
  const NavRoutes: seq<Route> :=
    [Home, Features, Examples, Docs, Download,
     Subproject(Graphics), Subproject(Math), Subproject(Importer), Subproject(Contractor)]

  /** The bare links that are resolved; bare `/` and the bare subproject
      links are not among them. */
  const BareRoutes: seq<Route> := [Examples, Features, Docs, Download]

  /** The whole link table for a page in the given language, in the order
      the exporter applies it: the root link (Russian only), the templated
      links, the `?lang=ru` links (Russian only), the bare links. */
  function Links(russian: bool): seq<Link>
  {
    (if russian then [RootLink] else [])
      + RouteLinks(Templated, NavRoutes, russian)
      + (if russian then RouteLinks(Query, NavRoutes, russian) else [])
      + RouteLinks(Bare, BareRoutes, russian)
  }

  /** `replaceLink(content, from, to)`. */
  function LinkRule(l: Link): Rule
  {
    Rule(Href(l.from), Href(l.to))
  }

  function LinkRules(links: seq<Link>): (rules: seq<Rule>)
    ensures |rules| == |links|
    ensures forall k :: 0 <= k < |links| ==> rules[k] == LinkRule(links[k])
  {
    seq(|links|, k requires 0 <= k < |links| => LinkRule(links[k]))
  }

  /** What the table makes of the link `href="p"`: the target of the first
      entry whose source is `p`, or `p` itself. */
  function Resolve(links: seq<Link>, p: string): (t: string)
    ensures (forall k :: 0 <= k < |links| ==> links[k].from != p) ==> t == p
    ensures forall k ::
      (0 <= k < |links| && links[k].from == p && forall j :: 0 <= j < k ==> links[j].from != p) ==>
        t == links[k].to
    ensures t == p || exists k :: 0 <= k < |links| && t == links[k].to
    decreases |links|
  {
    if links == [] then p
    else if links[0].from == p then links[0].to
    else
      var t := Resolve(links[1..], p);
      assert forall k :: 0 < k < |links| ==> links[k] == links[1..][k - 1];
      t
  }

  // ---------------------------------------------------------------------
  // The fixed substitutions around the link table

  /** The `<base>` tag with its placeholder, and with the placeholder fixed. */
  function BaseTag(href: string): string
  {
    Join(["<meta charset=", "UTF-8", ">\n    <base href=", href, ">"])
  }

  const BasePlaceholder: string := "{{ .BaseURL }}"

  const BaseRule: Rule := Rule(BaseTag(BasePlaceholder), BaseTag("/"))

  /** A leftover debug line of the layout's script tag. */
  const DebugLeftover: string :=
    Join(["",
          ">\n    // Debug message for " + "language switching\n" + "    console.log(",
          "Language switching is set up." + " Current path:",
          ", window.location.pathname);" + "\n</script>"])

  const CleanupRule: Rule := Rule(DebugLeftover, Join(["", "></script>"]))

  /** The two flags of the language toggle, as the exporter's literals hold
      them (the emoji bytes decoded as Mac Roman). */
  const RuFlag: string := "\U{F8FF}\U{00FC}\U{00E1}\U{2211}\U{F8FF}\U{00FC}\U{00E1}\U{222B}"
  const UsFlag: string := "\U{F8FF}\U{00FC}\U{00E1}\U{222B}\U{F8FF}\U{00FC}\U{00E1}\U{220F}"

  /** The toggle's flag: the Russian-flag literal on English pages and the
      US-flag literal on Russian pages. */
  const FlagTemplate: string :=
    Join(["{{if eq .Lang ", "en", "}}" + RuFlag + "{{else}}" + UsFlag + "{{end}}"])

  function FlagRule(russian: bool): Rule
  {
    Rule(FlagTemplate, if russian then UsFlag else RuFlag)
  }

  /** The toggle's label: the name of the other language. */
  const LabelTemplate: string := Join(["{{template ", "lang.switch", " .}}"])

  /** The Russian label, as the exporter's literal holds it (the UTF-8 bytes
      of the word decoded as Mac Roman). */
  const RussianLabel: string :=
    "\U{2013}\U{2020}\U{2014}\U{00C9}\U{2014}\U{00C5}\U{2014}\U{00C5}\U{2013}\U{222B}\U{2013}\U{220F}\U{2013}\U{03C0}"

  function LabelRule(russian: bool): Rule
  {
    Rule(LabelTemplate, if russian then "English" else RussianLabel)
  }

  const BodyTag: string := Join(["<body class=", "bg-white text-black", ">"])

  /** The script inserted right after the body tag. */
  function DebugScript(russian: bool): string
  {
    Join(DebugScriptParts(russian))
  }

  /** The script cut at its double quotes. */
  function DebugScriptParts(russian: bool): seq<string>
  {
    ["\n    <script>\n" + "        console.log(",
     "Page language: " + LanguageDisplay(russian),
     ");\n        console.log(",
     "Current path:",
     ", window.location.pathname);" + "\n    </script>"]
  }

  function BodyRule(russian: bool): Rule
  {
    Rule(BodyTag, BodyTag + DebugScript(russian))
  }

  /** The substitutions after the link table. */
  function TailRules(russian: bool): seq<Rule>
  {
    [FlagRule(russian), LabelRule(russian), BodyRule(russian)]
  }

  /** The whole table of `fixLanguageLinks`, in order. */
  function Rules(russian: bool): seq<Rule>
  {
    [BaseRule, CleanupRule] + LinkRules(Links(russian)) + TailRules(russian)
  }

  /** The rewrite of one file's content. */
  function Fix(content: string, russian: bool): string
  {
    ApplyRules(content, Rules(russian))
  }
}
