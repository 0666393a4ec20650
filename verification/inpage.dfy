/** The rewrite of a whole page, piece by piece. `fixLanguageLinks` runs its
    substitutions over the entire file; the facts about single fragments
    (a link, the `<base>` tag, the toggle, the body tag) carry over to any
    page around the fragment as long as no substitution matches across the
    fragment's edges. A character that no pattern holds, such as `_`, always
    makes such an edge. */
module InPage {
  import opened Strings
  import opened Quotes
  import opened Site
  import opened Rewrite
  import opened LinkTable
  import opened FixFacts
  import opened PageFixes

  /** `m` sits in the page `x + m + y`, and no substitution, at any step,
      matches across either of its edges. */
  ghost predicate Embedded(x: string, m: string, y: string, russian: bool)
  {
    CleanCut(x, m + y, Rules(russian)) && CleanCut(m, y, Rules(russian))
  }

  /** The page is rewritten as its three pieces, each on its own. */
  lemma FixInPage(x: string, m: string, y: string, russian: bool)
    requires Embedded(x, m, y, russian)
    ensures Fix(x + m + y, russian) == Fix(x, russian) + Fix(m, russian) + Fix(y, russian)
  {
    ApplyRulesThree(x, m, y, Rules(russian));
  }

  /** A fragment whose own rewrite is known, inside a page. */
  lemma FragmentInPage(x: string, m: string, y: string, russian: bool, fm: string)
    requires Embedded(x, m, y, russian) && Fix(m, russian) == fm
    ensures Fix(x + m + y, russian) == Fix(x, russian) + fm + Fix(y, russian)
  {
    FixInPage(x, m, y, russian);
  }

  // ---------------------------------------------------------------------
  // Marks: characters no pattern holds

  /** A fragment set off by marks on both sides is embedded, whatever the
      rest of the page holds. */
  lemma MarkedEmbedded(x: string, c: char, m: string, d: char, y: string, russian: bool)
    requires Unmatched(c, Rules(russian)) && Unmatched(d, Rules(russian))
    ensures Embedded(x + [c], m, [d] + y, russian)
  {
    CutAfterMark(x, c, m + ([d] + y), Rules(russian));
    CutBeforeMark(m, d, y, Rules(russian));
  }

  /** Marks pass through the rewrite and cut the page in independent parts. */
  lemma FixBetweenMarks(x: string, c: char, m: string, d: char, y: string, russian: bool)
    requires Unmatched(c, Rules(russian)) && Unmatched(d, Rules(russian))
    ensures Fix(x + [c] + m + [d] + y, russian) ==
      Fix(x, russian) + [c] + Fix(m, russian) + [d] + Fix(y, russian)
  {
    ApplyRulesMarks(x, c, m, d, y, Rules(russian));
  }

  lemma BaseUnderscoreFree()
    ensures '_' !in BaseRule.pattern
  {
    JoinLacks(["<meta charset=", "UTF-8", ">\n    <base href=", BasePlaceholder, ">"], '_');
  }

  lemma CleanupUnderscoreFree()
    ensures '_' !in CleanupRule.pattern
  {
    var parts := ["",
               ">\n    // Debug message for " + "language switching\n" + "    console.log(",
               "Language switching is set up." + " Current path:",
               ", window.location.pathname);" + "\n</script>"];
    assert '_' !in parts[0];
    assert '_' !in parts[1] by {
      assert '_' !in ">\n    // Debug message for " && '_' !in "language switching\n";
      assert '_' !in "    console.log(";
    }
    assert '_' !in parts[2] by {
      assert '_' !in "Language switching is set up." && '_' !in " Current path:";
    }
    assert '_' !in parts[3] by {
      assert '_' !in ", window.location.pathname);" && '_' !in "\n</script>";
    }
    JoinLacks(parts, '_');
  }

  lemma NavLinkUnderscoreFree(r: Route)
    ensures '_' !in NavLink(r)
  {
    RoutePathChars(r);
    assert '_' !in RuQuery && '_' !in "{{else}}" && '_' !in "{{end}}" && '_' !in "}}";
    assert '_' !in NavBranches(r);
    assert '_' !in "{{if eq .Lang " && '_' !in "ru";
  }

  lemma KindUnderscoreFree(kind: LinkKind, r: Route, russian: bool)
    ensures '_' !in LinkRule(KindLink(kind, r, russian)).pattern
  {
    RoutePathChars(r);
    assert '_' !in "href=" && '_' !in RuQuery;
    match kind
    case Templated => NavLinkUnderscoreFree(r);
    case Query =>
    case Bare =>
  }

  lemma LinkUnderscoreFree(l: Link, russian: bool)
    requires l in Links(russian)
    ensures '_' !in LinkRule(l).pattern
  {
    if l == RootLink {
      assert '_' !in Href("/");
    } else {
      var kind, r := LinkKindOf(russian, l);
      KindUnderscoreFree(kind, r, russian);
    }
  }

  lemma TailUnderscoreFree(russian: bool)
    ensures Unmatched('_', TailRules(russian))
  {
    assert '_' !in RuFlag && '_' !in UsFlag;
    JoinLacks(["{{if eq .Lang ", "en", "}}" + RuFlag + "{{else}}" + UsFlag + "{{end}}"], '_');
    JoinLacks(["{{template ", "lang.switch", " .}}"], '_');
    JoinLacks(["<body class=", "bg-white text-black", ">"], '_');
  }

  /** `_` appears in no pattern of either table, so it is a mark. */
  lemma UnderscoreUnmatched(russian: bool)
    ensures Unmatched('_', Rules(russian))
  {
    var links := Links(russian);
    var rules := Rules(russian);
    BaseUnderscoreFree();
    CleanupUnderscoreFree();
    TailUnderscoreFree(russian);
    forall k | 0 <= k < |rules|
      ensures '_' !in rules[k].pattern
    {
      if 2 <= k < 2 + |links| {
        assert rules[k] == LinkRule(links[k - 2]);
        LinkUnderscoreFree(links[k - 2], russian);
      } else if k >= 2 + |links| {
        assert rules[k] == TailRules(russian)[k - 2 - |links|];
      }
    }
  }

  /** A templated nav link set off by `_` on both sides, in any page. */
  lemma NavLinkBetweenUnderscores(x: string, r: Route, y: string, russian: bool)
    ensures Fix(x + "_" + Href(NavLink(r)) + "_" + y, russian) ==
      Fix(x, russian) + "_" + Href(StaticTarget(r, russian)) + "_" + Fix(y, russian)
  {
    UnderscoreUnmatched(russian);
    FixBetweenMarks(x, '_', Href(NavLink(r)), '_', y, russian);
    FixNavLink(r, russian);
  }

  // ---------------------------------------------------------------------
  // Each kind of fragment, inside a page

  /** A templated nav link becomes the static file of its route in the
      page's language (build_github_pages.go:296-320). */
  lemma NavLinkInPage(x: string, r: Route, y: string, russian: bool)
    requires Embedded(x, Href(NavLink(r)), y, russian)
    ensures Fix(x + Href(NavLink(r)) + y, russian) ==
      Fix(x, russian) + Href(StaticTarget(r, russian)) + Fix(y, russian)
  {
    FixNavLink(r, russian);
    FragmentInPage(x, Href(NavLink(r)), y, russian, Href(StaticTarget(r, russian)));
  }

  /** A `?lang=ru` link becomes the Russian file on Russian pages and stays
      as written on English pages. */
  lemma QueryLinkInPage(x: string, r: Route, y: string, russian: bool)
    requires Embedded(x, Href(RoutePath(r) + RuQuery), y, russian)
    ensures Fix(x + Href(RoutePath(r) + RuQuery) + y, russian) ==
      Fix(x, russian)
      + (if russian then Href(StaticTarget(r, true)) else Href(RoutePath(r) + RuQuery))
      + Fix(y, russian)
  {
    FixQueryLink(r, russian);
    FragmentInPage(x, Href(RoutePath(r) + RuQuery), y, russian,
      if russian then Href(StaticTarget(r, true)) else Href(RoutePath(r) + RuQuery));
  }

  /** A bare link: `/` becomes `/index.html` on Russian pages, the four
      resolved routes become their file, the others stay. */
  lemma BareLinkInPage(x: string, r: Route, y: string, russian: bool)
    requires Embedded(x, Href(RoutePath(r)), y, russian)
    ensures Fix(x + Href(RoutePath(r)) + y, russian) ==
      Fix(x, russian)
      + (if russian && r == Home then Href("/index.html")
         else if r in BareRoutes then Href(StaticTarget(r, russian))
         else Href(RoutePath(r)))
      + Fix(y, russian)
  {
    FixBareLink(r, russian);
    FragmentInPage(x, Href(RoutePath(r)), y, russian,
      if russian && r == Home then Href("/index.html")
      else if r in BareRoutes then Href(StaticTarget(r, russian))
      else Href(RoutePath(r)));
  }

  /** A bare subproject link is left pointing at the server route. */
  lemma SubprojectBareInPage(x: string, p: Project, y: string, russian: bool)
    requires Embedded(x, Href(RoutePath(Subproject(p))), y, russian)
    ensures Fix(x + Href(RoutePath(Subproject(p))) + y, russian) ==
      Fix(x, russian) + Href(RoutePath(Subproject(p))) + Fix(y, russian)
  {
    FixSubprojectBare(p, russian);
    FragmentInPage(x, Href(RoutePath(Subproject(p))), y, russian, Href(RoutePath(Subproject(p))));
  }

  /** A link already pointing at an output file is left alone. */
  lemma StaticLinkInPage(x: string, r: Route, target: bool, y: string, russian: bool)
    requires Embedded(x, Href(StaticTarget(r, target)), y, russian)
    ensures Fix(x + Href(StaticTarget(r, target)) + y, russian) ==
      Fix(x, russian) + Href(StaticTarget(r, target)) + Fix(y, russian)
  {
    FixStaticLink(r, target, russian);
    FragmentInPage(x, Href(StaticTarget(r, target)), y, russian, Href(StaticTarget(r, target)));
  }

  /** The `<base>` placeholder becomes `/`, and on Russian pages then
      `/index.html`. */
  lemma BaseTagInPage(x: string, y: string, russian: bool)
    requires Embedded(x, BaseTag(BasePlaceholder), y, russian)
    ensures Fix(x + BaseTag(BasePlaceholder) + y, russian) ==
      Fix(x, russian) + BaseTag(if russian then "/index.html" else "/") + Fix(y, russian)
  {
    FixBaseTag(russian);
    FragmentInPage(x, BaseTag(BasePlaceholder), y, russian, BaseTag(if russian then "/index.html" else "/"));
  }

  /** The leftover debug line is cut down to `"></script>`. */
  lemma CleanupInPage(x: string, y: string, russian: bool)
    requires Embedded(x, DebugLeftover, y, russian)
    ensures Fix(x + DebugLeftover + y, russian) ==
      Fix(x, russian) + CleanedScript + Fix(y, russian)
  {
    FixCleanup(russian);
    FragmentInPage(x, DebugLeftover, y, russian, CleanedScript);
  }

  /** The toggle's flag shows the other language's flag literal. */
  lemma FlagInPage(x: string, y: string, russian: bool)
    requires Embedded(x, FlagTemplate, y, russian)
    ensures Fix(x + FlagTemplate + y, russian) ==
      Fix(x, russian) + (if russian then UsFlag else RuFlag) + Fix(y, russian)
  {
    FixFlag(russian);
    FragmentInPage(x, FlagTemplate, y, russian, if russian then UsFlag else RuFlag);
  }

  /** The toggle's label names the other language. */
  lemma LabelInPage(x: string, y: string, russian: bool)
    requires Embedded(x, LabelTemplate, y, russian)
    ensures Fix(x + LabelTemplate + y, russian) ==
      Fix(x, russian) + (if russian then "English" else RussianLabel) + Fix(y, russian)
  {
    FixLabel(russian);
    FragmentInPage(x, LabelTemplate, y, russian, if russian then "English" else RussianLabel);
  }

  /** The body tag is kept and followed by the language-debug script; the
      rest of the page is rewritten on its own. */
  lemma BodyTagInPage(x: string, y: string, russian: bool)
    requires Embedded(x, BodyTag, y, russian)
    ensures Fix(x + BodyTag + y, russian) ==
      Fix(x, russian) + BodyTag + DebugScript(russian) + Fix(y, russian)
  {
    FixBodyTag(russian);
    FragmentInPage(x, BodyTag, y, russian, BodyTag + DebugScript(russian));
    Assoc(Fix(x, russian), BodyTag, DebugScript(russian));
  }
}
