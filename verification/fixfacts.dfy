/** What the per-file rewrite does to each kind of text the exporter's
    pages hold: links, the `<base>` tag, the language toggle, the body tag,
    the leftover debug line and the redirect stubs. */
module FixFacts {
  import opened Strings
  import opened Quotes
  import opened Site
  import opened Rewrite
  import opened LinkTable

  /** The two substitutions before the link table. */
  const HeadRules: seq<Rule> := [BaseRule, CleanupRule]

  /** The rewrite runs in three phases: head, link table, tail. */
  lemma FixPhases(s: string, russian: bool)
    ensures Fix(s, russian) ==
      ApplyRules(ApplyRules(ApplyRules(s, HeadRules), LinkRules(Links(russian))), TailRules(russian))
  {
    ApplyRulesAppend(s, HeadRules + LinkRules(Links(russian)), TailRules(russian));
    ApplyRulesAppend(s, HeadRules, LinkRules(Links(russian)));
  }

  // ---------------------------------------------------------------------
  // Characters the fixed patterns hold

  lemma BaseRuleChars()
    ensures '<' in BaseRule.pattern && 'U' in BaseRule.pattern
  {
    JoinHas(["<meta charset=", "UTF-8", ">\n    <base href=", BasePlaceholder, ">"], 0, '<');
    assert "UTF-8"[0] == 'U';
    JoinHas(["<meta charset=", "UTF-8", ">\n    <base href=", BasePlaceholder, ">"], 1, 'U');
  }

  lemma CleanupRuleChars()
    ensures '<' in CleanupRule.pattern && 'D' in CleanupRule.pattern && 'w' in CleanupRule.pattern
  {
    var parts := ["",
          ">\n    // Debug message for " + "language switching\n" + "    console.log(",
          "Language switching is set up." + " Current path:",
          ", window.location.pathname);" + "\n</script>"];
    assert parts[1][9] == 'D' && parts[3][2] == 'w' && parts[3][29] == '<';
    JoinHas(parts, 1, 'D');
    JoinHas(parts, 3, 'w');
    JoinHas(parts, 3, '<');
  }

  lemma FlagTemplateChars()
    ensures '{' in FlagTemplate && 'q' in FlagTemplate
  {
    var flag := ["{{if eq .Lang ", "en", "}}" + RuFlag + "{{else}}" + UsFlag + "{{end}}"];
    assert flag[0][0] == '{' && flag[0][6] == 'q';
    JoinHas(flag, 0, '{');
    JoinHas(flag, 0, 'q');
  }

  lemma LabelTemplateChars()
    ensures '{' in LabelTemplate
  {
    JoinHas(["{{template ", "lang.switch", " .}}"], 0, '{');
  }

  lemma BodyTagChars()
    ensures '<' in BodyTag && 'y' in BodyTag && 'k' in BodyTag
  {
    var body := ["<body class=", "bg-white text-black", ">"];
    assert body[0][4] == 'y' && body[1][18] == 'k';
    JoinHas(body, 0, '<');
    JoinHas(body, 0, 'y');
    JoinHas(body, 1, 'k');
  }

  lemma PatternsQuoted()
    ensures Quote in BaseRule.pattern && Quote in CleanupRule.pattern
    ensures Quote in FlagTemplate && Quote in LabelTemplate && Quote in BodyTag
  {
    JoinHasQuote(["<meta charset=", "UTF-8", ">\n    <base href=", BasePlaceholder, ">"]);
    JoinHasQuote(["",
          ">\n    // Debug message for " + "language switching\n" + "    console.log(",
          "Language switching is set up." + " Current path:",
          ", window.location.pathname);" + "\n</script>"]);
    JoinHasQuote(["{{if eq .Lang ", "en", "}}" + RuFlag + "{{else}}" + UsFlag + "{{end}}"]);
    JoinHasQuote(["{{template ", "lang.switch", " .}}"]);
    JoinHasQuote(["<body class=", "bg-white text-black", ">"]);
  }

  // ---------------------------------------------------------------------
  // Phases that leave a text alone

  /** The head leaves alone a text lacking one character of each of its
      patterns. */
  lemma HeadInert(s: string, b: char, c: char)
    requires b in BaseRule.pattern && b !in s
    requires c in CleanupRule.pattern && c !in s
    ensures ApplyRules(s, HeadRules) == s
  {
    NotOccursByChar(s, BaseRule.pattern, b);
    NotOccursByChar(s, CleanupRule.pattern, c);
  }

  /** The tail leaves alone a text without template braces that lacks one
      character of the body tag. */
  lemma TailInert(s: string, russian: bool, c: char)
    requires '{' !in s
    requires c in BodyTag && c !in s
    ensures ApplyRules(s, TailRules(russian)) == s
  {
    FlagTemplateChars();
    LabelTemplateChars();
    NotOccursByChar(s, FlagTemplate, '{');
    NotOccursByChar(s, LabelTemplate, '{');
    NotOccursByChar(s, BodyTag, c);
  }

  /** Every link pattern starts with `href=`, so a text lacking one of
      those characters is left alone by the table. */
  lemma LinkRulesLack(s: string, links: seq<Link>, c: char)
    requires c in "href=" + [Quote] && c !in s
    ensures ApplyRules(s, LinkRules(links)) == s
  {
    forall k | 0 <= k < |links|
      ensures c in LinkRules(links)[k].pattern
    {
      assert Href(links[k].from)[..6] == "href=" + [Quote];
    }
    ApplyRulesInertByChar(s, LinkRules(links), c);
  }

  /** A quoted segment no table source can be: empty, not a path, holding
      a dot, or the root on an English page. */
  predicate LinkNeutral(g: string, russian: bool)
  {
    |g| == 0 || g[0] != '/' || '.' in g || (!russian && g == "/")
  }

  /** A plain source can only occur inside a text as one of its inner
      quoted segments. */
  lemma PlainSourceAbsent(s: string, f: string, russian: bool)
    requires PlainSource(f, russian)
    requires forall k :: 1 <= k < |Split(s)| - 1 ==> LinkNeutral(Split(s)[k], russian)
    ensures !Occurs(s, Href(f))
  {
    SplitHref(f);
    SplitPlain(f);
    var fs := Split(Href(f));
    assert fs[1..2] == [f];
    forall j
      ensures !InnerBlockAt(s, Href(f), j)
    {
      if 1 <= j < |Split(s)| - 1 {
        assert Split(s)[j..j + 1] == [Split(s)[j]];
      }
    }
    NotOccursBySegments(s, Href(f));
  }

  /** The table leaves alone a text without template braces whose inner
      quoted segments are all neutral. */
  lemma LinkRulesInert(s: string, links: seq<Link>, russian: bool)
    requires TableShape(links, russian) && '{' !in s
    requires forall k :: 1 <= k < |Split(s)| - 1 ==> LinkNeutral(Split(s)[k], russian)
    ensures ApplyRules(s, LinkRules(links)) == s
  {
    forall k | 0 <= k < |links|
      ensures !Occurs(s, LinkRules(links)[k].pattern)
    {
      var f := links[k].from;
      if PlainSource(f, russian) {
        PlainSourceAbsent(s, f, russian);
      } else {
        assert '{' in Href(f);
        NotOccursByChar(s, Href(f), '{');
      }
    }
  }

  // ---------------------------------------------------------------------
  // Links

  lemma HeadOnHref(p: string)
    requires '<' !in p
    ensures ApplyRules(Href(p), HeadRules) == Href(p)
  {
    BaseRuleChars();
    CleanupRuleChars();
    HrefLacks(p, '<');
    HeadInert(Href(p), '<', '<');
  }

  lemma HrefLacks(p: string, c: char)
    requires c !in p && c !in "href=" && c != Quote
    ensures c !in Href(p)
  {
  }

  /** The head passes a link through; the table resolves it. */
  lemma FixHref(p: string, russian: bool)
    requires LinkText(p) && '<' !in p
    ensures Fix(Href(p), russian) == ApplyRules(Href(Resolve(Links(russian), p)), TailRules(russian))
  {
    FixPhases(Href(p), russian);
    HeadOnHref(p);
    LinksShape(russian);
    LinkTableApply(p, Links(russian), russian);
  }

  /** The tail passes a link without braces through. */
  lemma TailOnHref(q: string, russian: bool)
    requires '{' !in q && '<' !in q
    ensures ApplyRules(Href(q), TailRules(russian)) == Href(q)
  {
    BodyTagChars();
    HrefLacks(q, '<');
    HrefLacks(q, '{');
    TailInert(Href(q), russian, '<');
  }

  /** A plain link ends up as the table resolves it. */
  lemma FixPlainLink(p: string, russian: bool)
    requires Quote !in p && '<' !in p && '{' !in p
    ensures Fix(Href(p), russian) == Href(Resolve(Links(russian), p))
  {
    FixHref(p, russian);
    var q := Resolve(Links(russian), p);
    if q != p {
      LinksShape(russian);
    }
    TailOnHref(q, russian);
  }

  /** Every templated nav link becomes the static link to the route's file
      in the page's language. */
  lemma FixNavLink(r: Route, russian: bool)
    ensures Fix(Href(NavLink(r)), russian) == Href(StaticTarget(r, russian))
  {
    NavLinkTemplated(r);
    FixHref(NavLink(r), russian);
    ResolveNav(r, russian);
    StaticTargetChars(r, russian);
    TailOnHref(StaticTarget(r, russian), russian);
  }

  /** `?lang=ru` links go to the Russian file on Russian pages and stay as
      they are on English pages. */
  lemma FixQueryLink(r: Route, russian: bool)
    ensures Fix(Href(RoutePath(r) + RuQuery), russian) ==
      if russian then Href(StaticTarget(r, true)) else Href(RoutePath(r) + RuQuery)
  {
    QuerySourcePlain(r);
    FixPlainLink(RoutePath(r) + RuQuery, russian);
    ResolveQuery(r, russian);
  }

  lemma QuerySourcePlain(r: Route)
    ensures Quote !in RoutePath(r) + RuQuery && '<' !in RoutePath(r) + RuQuery && '{' !in RoutePath(r) + RuQuery
  {
    RoutePathChars(r);
    assert Quote !in RuQuery && '<' !in RuQuery && '{' !in RuQuery;
  }

  /** Bare links: on Russian pages `href="/"` goes to the English home page
      `/index.html`; the four top-level pages go to their file in the page's
      language; bare subproject links are never rewritten, and neither is
      `href="/"` on English pages. */
  lemma FixBareLink(r: Route, russian: bool)
    ensures Fix(Href(RoutePath(r)), russian) ==
      if russian && r == Home then Href("/index.html")
      else if r in BareRoutes then Href(StaticTarget(r, russian))
      else Href(RoutePath(r))
  {
    RoutePathChars(r);
    FixPlainLink(RoutePath(r), russian);
    ResolveBare(r, russian);
  }

  /** A link that already names an output file, in either language, is
      left alone. */
  lemma FixStaticLink(r: Route, target: bool, russian: bool)
    ensures Fix(Href(StaticTarget(r, target)), russian) == Href(StaticTarget(r, target))
  {
    StaticTargetChars(r, target);
    FixPlainLink(StaticTarget(r, target), russian);
    ResolveTarget(StaticTarget(r, target), russian);
  }

  /** Bare subproject links survive on both kinds of page. */
  lemma FixSubprojectBare(p: Project, russian: bool)
    ensures Fix(Href(RoutePath(Subproject(p))), russian) == Href(RoutePath(Subproject(p)))
  {
    FixBareLink(Subproject(p), russian);
  }

  // ---------------------------------------------------------------------
  // The base tag

  const BasePrefix: string := "<meta charset=" + [Quote] + "UTF-8" + [Quote] + ">\n    <base "

  lemma BaseTagShape(h: string)
    ensures BaseTag(h) == BasePrefix + Href(h) + ">"
  {
    Join5("<meta charset=", "UTF-8", ">\n    <base href=", h, ">");
  }

  lemma BaseTagLacks(h: string, c: char)
    requires c == 'w' || c == 'y' || c == '{'
    requires c !in h
    ensures c !in BaseTag(h)
  {
    BaseTagShape(h);
    assert c !in BasePrefix;
  }

  lemma BaseTagSplit(h: string)
    requires Quote !in h
    ensures Split(BaseTag(h)) == ["<meta charset=", "UTF-8", ">\n    <base href=", h, ">"]
  {
    SplitJoin(["<meta charset=", "UTF-8", ">\n    <base href=", h, ">"]);
  }

  /** The root link does not occur in the base tag before its own end. */
  lemma RootNotEarlier()
    ensures !Occurs(BasePrefix + Href("/")[..|Href("/")| - 1], Href("/"))
  {
    var pat := Href("/");
    var w := BasePrefix + pat[..|pat| - 1];
    RootPrefixSplit();
    RootHrefSplit();
    var ws := Split(w);
    assert Split(pat)[1..2] == ["/"];
    forall j
      ensures !InnerBlockAt(w, pat, j)
    {
      if 1 <= j <= 2 {
        assert ws[j..j + 1] == [ws[j]];
        assert ws[j] != "/";
      }
    }
    NotOccursBySegments(w, pat);
  }

  /** The base tag cut just before the quote closing its root href. */
  lemma RootPrefixSplit()
    ensures Split(BasePrefix + Href("/")[..|Href("/")| - 1]) ==
      ["<meta charset=", "UTF-8", ">\n    <base href=", "/"]
  {
    var pat := Href("/");
    var parts := ["<meta charset=", "UTF-8", ">\n    <base href=", "/"];
    assert BasePrefix + pat[..|pat| - 1] == Join(parts) by {
      Join4("<meta charset=", "UTF-8", ">\n    <base href=", "/");
    }
    SplitJoin(parts);
  }

  lemma RootHrefSplit()
    ensures Split(Href("/")) == ["href=", "/", ""]
  {
    SplitHref("/");
    SplitPlain("/");
  }

  /** The root link rule also fires inside the fixed `<base>` tag. */
  lemma RootInBaseTag()
    ensures ReplaceAll(BaseTag("/"), Href("/"), Href("/index.html")) == BaseTag("/index.html")
  {
    BaseTagShape("/");
    BaseTagShape("/index.html");
    RootNotEarlier();
    ReplaceAllSplice(BasePrefix, Href("/"), Href("/index.html"), ">");
  }

  lemma HeadOnBase()
    ensures ApplyRules(BaseTag(BasePlaceholder), HeadRules) == BaseTag("/")
  {
    var fixed := BaseTag("/");
    ReplaceAllWhole(BaseTag(BasePlaceholder), fixed);
    BaseTagLacks("/", 'w');
    CleanupRuleChars();
    NotOccursByChar(fixed, CleanupRule.pattern, 'w');
    assert ApplyRules(fixed, [CleanupRule]) == fixed;
  }

  lemma BaseLinksEnglish()
    ensures ApplyRules(BaseTag("/"), LinkRules(Links(false))) == BaseTag("/")
  {
    LinksShape(false);
    BaseTagLacks("/", '{');
    BaseTagSplit("/");
    LinkRulesInert(BaseTag("/"), Links(false), false);
  }

  lemma TailOnBase(h: string, russian: bool)
    requires h == "/" || h == "/index.html"
    ensures ApplyRules(BaseTag(h), TailRules(russian)) == BaseTag(h)
  {
    BaseTagLacks(h, 'y');
    BaseTagLacks(h, '{');
    BodyTagChars();
    TailInert(BaseTag(h), russian, 'y');
  }

  /** The `<base>` placeholder always becomes `/`; on Russian pages the root
      link rule then turns it into `/index.html`. */
  lemma FixBaseTag(russian: bool)
    ensures Fix(BaseTag(BasePlaceholder), russian) ==
      BaseTag(if russian then "/index.html" else "/")
  {
    FixPhases(BaseTag(BasePlaceholder), russian);
    HeadOnBase();
    if russian {
      BaseLinksRussian();
    } else {
      BaseLinksEnglish();
    }
    TailOnBase(if russian then "/index.html" else "/", russian);
  }

  lemma BaseLinksRussian()
    ensures ApplyRules(BaseTag("/"), LinkRules(Links(true))) == BaseTag("/index.html")
  {
    BaseRootStep();
    BaseRestInert();
  }

  /** The root rule comes first on a Russian page and rewrites the base tag. */
  lemma BaseRootStep()
    ensures ApplyRules(BaseTag("/"), LinkRules(Links(true))) ==
      ApplyRules(BaseTag("/index.html"), LinkRules(Links(true)[1..]))
  {
    var links := Links(true);
    assert links[0] == RootLink;
    var rules := LinkRules(links);
    assert rules[1..] == LinkRules(links[1..]);
    RootInBaseTag();
  }

  /** No later rule of the table touches the rewritten base tag. */
  lemma BaseRestInert()
    ensures ApplyRules(BaseTag("/index.html"), LinkRules(Links(true)[1..])) == BaseTag("/index.html")
  {
    var links := Links(true);
    LinksShape(true);
    TableShapeTail(links, true);
    BaseTagLacks("/index.html", '{');
    BaseTagNeutral("/index.html");
    LinkRulesInert(BaseTag("/index.html"), links[1..], true);
  }

  lemma TableShapeTail(links: seq<Link>, russian: bool)
    requires TableShape(links, russian) && links != []
    ensures TableShape(links[1..], russian)
  {
    forall k | 0 <= k < |links| - 1
      ensures links[1..][k] == links[k + 1]
    {
    }
  }

  /** The quoted segments of a base tag whose href holds a dot are neutral. */
  lemma BaseTagNeutral(h: string)
    requires Quote !in h && '.' in h
    ensures forall k :: 1 <= k < |Split(BaseTag(h))| - 1 ==> LinkNeutral(Split(BaseTag(h))[k], true)
  {
    BaseTagSplit(h);
    var ss := Split(BaseTag(h));
    assert LinkNeutral(ss[1], true) by { assert ss[1][0] == 'U'; }
    assert LinkNeutral(ss[2], true) by { assert ss[2][0] == '>'; }
    assert LinkNeutral(ss[3], true);
    assert |ss| == 5;
  }
}
