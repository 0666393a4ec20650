/** Why the link table of the rewrite resolves each link on its own: every
    target is a quote-free path with a dot; every source is either a plain
    path (starting with `/`, no dot) or a templated link with three quoted
    segments. An `href` can therefore only be matched by the entry whose
    source is exactly its text, and once rewritten it is never matched
    again. */
module LinkTable {
  import opened Strings
  import opened Quotes
  import opened Site
  import opened Rewrite

  /** A plain source path. The bare root `/` is a source on Russian pages
      only. */
  predicate PlainSource(f: string, russian: bool)
  {
    |f| > 0 && f[0] == '/' && Quote !in f && '.' !in f && '{' !in f && '<' !in f
    && (f == "/" ==> russian)
  }

  /** A templated source: three quoted segments, none of them starting
      with `/`, holding a template brace. */
  ghost predicate TemplatedSource(f: string)
  {
    var ss := Split(f);
    |ss| == 3 && '{' in f && '<' !in f
    && forall k :: 0 <= k < 3 ==> |ss[k]| == 0 || ss[k][0] != '/'
  }

  /** A rewritten link target. */
  predicate TargetShape(t: string)
  {
    Quote !in t && '.' in t && '{' !in t && '<' !in t
  }

  ghost predicate TableShape(links: seq<Link>, russian: bool)
  {
    forall k :: 0 <= k < |links| ==>
      (PlainSource(links[k].from, russian) || TemplatedSource(links[k].from)) && TargetShape(links[k].to)
  }

  /** The texts inside `href="…"` that the table is proved about. */
  ghost predicate LinkText(p: string)
  {
    Quote !in p || TemplatedSource(p)
  }

  /** `href="p"` is cut into `href=`, the segments of `p` and an empty tail. */
  lemma SplitHref(p: string)
    ensures Split(Href(p)) == ["href="] + Split(p) + [""]
  {
    assert Href(p) == "href=" + [Quote] + (p + [Quote] + "");
    SplitAtQuote("href=", p + [Quote] + "");
    SplitAtQuote(p, "");
    SplitPlain("href=");
    SplitPlain("");
  }

  lemma SplitNavLink(r: Route)
    ensures Split(NavLink(r)) == ["{{if eq .Lang ", "ru", NavBranches(r)]
  {
    var b := NavBranches(r);
    NavBranchesPlain(r);
    Join3("{{if eq .Lang ", "ru", b);
    SplitJoin(["{{if eq .Lang ", "ru", b]);
  }

  lemma NavBranchesPlain(r: Route)
    ensures Quote !in NavBranches(r)
  {
    RoutePathChars(r);
    assert Quote !in RuQuery && Quote !in "}}" && Quote !in "{{else}}" && Quote !in "{{end}}";
  }

  /** A templated nav link is a templated source. */
  lemma NavLinkTemplated(r: Route)
    ensures TemplatedSource(NavLink(r))
  {
    SplitNavLink(r);
    NavLinkNoAngle(r);
    var ss := Split(NavLink(r));
    assert ss[0][0] == '{' && ss[1][0] == 'r' && ss[2][0] == '}';
    assert NavLink(r)[0] == '{';
  }

  lemma NavLinkNoAngle(r: Route)
    ensures '<' !in NavLink(r)
  {
    RoutePathChars(r);
    assert '<' !in "{{if eq .Lang " && '<' !in "ru" && '<' !in "}}";
    assert '<' !in RuQuery && '<' !in "{{else}}" && '<' !in "{{end}}";
  }

  /** Two plain texts: the only block is the middle segment. */
  lemma PlainAgainstPlain(p: string, f: string)
    requires Quote !in p && Quote !in f && p != f
    ensures !Occurs(Href(p), Href(f))
  {
    SplitHref(p);
    SplitHref(f);
    SplitPlain(p);
    SplitPlain(f);
    assert forall k :: !InnerBlockAt(Href(p), Href(f), k);
    NotOccursBySegments(Href(p), Href(f));
  }

  /** A templated source has too many segments to fit a plain link. */
  lemma PlainAgainstTemplated(p: string, f: string)
    requires Quote !in p && |Split(f)| == 3
    ensures !Occurs(Href(p), Href(f))
  {
    SplitHref(p);
    SplitHref(f);
    SplitPlain(p);
    assert forall k :: !InnerBlockAt(Href(p), Href(f), k);
    NotOccursBySegments(Href(p), Href(f));
  }

  /** No segment of a templated link starts with `/`, so no plain source
      fits it. */
  lemma TemplatedAgainstPlain(p: string, f: string, russian: bool)
    requires TemplatedSource(p) && PlainSource(f, russian)
    ensures !Occurs(Href(p), Href(f))
  {
    SplitHref(p);
    SplitHref(f);
    SplitPlain(f);
    var ps := Split(p);
    var ss, fs := Split(Href(p)), Split(Href(f));
    assert ss == ["href=", ps[0], ps[1], ps[2], ""];
    assert fs[1..2] == [f];
    forall k
      ensures !InnerBlockAt(Href(p), Href(f), k)
    {
      if 1 <= k <= 3 {
        assert ss[k..k + 1] == [ss[k]];
      }
    }
    NotOccursBySegments(Href(p), Href(f));
  }

  /** Two templated links fit only if all their segments agree. */
  lemma TemplatedAgainstTemplated(p: string, f: string)
    requires |Split(p)| == 3 && |Split(f)| == 3 && p != f
    ensures !Occurs(Href(p), Href(f))
  {
    SplitHref(p);
    SplitHref(f);
    JoinSplit(p);
    JoinSplit(f);
    assert Split(p) != Split(f);
    var ss, fs := Split(Href(p)), Split(Href(f));
    assert fs[1..4] == Split(f);
    assert ss[1..4] == Split(p);
    assert forall k :: !InnerBlockAt(Href(p), Href(f), k);
    NotOccursBySegments(Href(p), Href(f));
  }

  /** A link is matched by a table entry only when it IS the entry's
      source. */
  lemma HrefAgainst(p: string, f: string, russian: bool)
    requires LinkText(p)
    requires PlainSource(f, russian) || TemplatedSource(f)
    ensures p == f || !Occurs(Href(p), Href(f))
  {
    if p != f {
      if Quote !in p {
        if PlainSource(f, russian) {
          PlainAgainstPlain(p, f);
        } else {
          PlainAgainstTemplated(p, f);
        }
      } else if PlainSource(f, russian) {
        TemplatedAgainstPlain(p, f, russian);
      } else {
        TemplatedAgainstTemplated(p, f);
      }
    }
  }

  /** No source of a well-shaped table is a target. */
  lemma TargetUnmatched(links: seq<Link>, t: string, russian: bool)
    requires TableShape(links, russian) && TargetShape(t)
    ensures forall k :: 0 <= k < |links| ==> links[k].from != t
  {
    SplitPlain(t);
  }

  /** The link table turns `href="p"` into `href="q"` where `q` is what the
      first entry with source `p` gives, or `p` when there is none; every
      occurrence of the other sources leaves it alone and no later entry
      touches the rewritten link. */
  lemma {:induction false} LinkTableApply(p: string, links: seq<Link>, russian: bool)
    requires TableShape(links, russian) && LinkText(p)
    ensures ApplyRules(Href(p), LinkRules(links)) == Href(Resolve(links, p))
    decreases |links|
  {
    if links != [] {
      var l := links[0];
      var rules := LinkRules(links);
      assert rules[0] == LinkRule(l);
      assert rules[1..] == LinkRules(links[1..]);
      assert TableShape(links[1..], russian);
      HrefAgainst(p, l.from, russian);
      if p == l.from {
        ReplaceAllWhole(Href(p), Href(l.to));
        LinkTableApply(l.to, links[1..], russian);
        TargetUnmatched(links[1..], l.to, russian);
      } else {
        ReplaceAllAbsent(Href(p), Href(l.from), Href(l.to));
        LinkTableApply(p, links[1..], russian);
      }
    }
  }

  /** Each entry the route lists generate has the table's shape. */
  lemma KindLinkShape(kind: LinkKind, r: Route, russian: bool)
    requires kind == Bare ==> r != Home
    ensures PlainSource(KindLink(kind, r, russian).from, russian) || TemplatedSource(KindLink(kind, r, russian).from)
    ensures TargetShape(KindLink(kind, r, russian).to)
  {
    StaticTargetChars(r, russian);
    match kind
    case Templated => NavLinkTemplated(r);
    case Query => QuerySourcePlain(r, russian);
    case Bare => RoutePathChars(r);
  }

  lemma QuerySourcePlain(r: Route, russian: bool)
    ensures PlainSource(RoutePath(r) + RuQuery, russian)
  {
    RoutePathChars(r);
    var f := RoutePath(r) + RuQuery;
    assert f[0] == '/' && |f| > 1;
    assert Quote !in RuQuery && '.' !in RuQuery && '{' !in RuQuery && '<' !in RuQuery;
  }

  lemma TableShapeAppend(a: seq<Link>, b: seq<Link>, russian: bool)
    requires TableShape(a, russian) && TableShape(b, russian)
    ensures TableShape(a + b, russian)
  {
  }

  lemma RouteLinksShape(kind: LinkKind, rs: seq<Route>, russian: bool)
    requires kind == Bare ==> Home !in rs
    ensures TableShape(RouteLinks(kind, rs, russian), russian)
  {
    forall k | 0 <= k < |rs|
      ensures (PlainSource(KindLink(kind, rs[k], russian).from, russian) || TemplatedSource(KindLink(kind, rs[k], russian).from))
        && TargetShape(KindLink(kind, rs[k], russian).to)
    {
      KindLinkShape(kind, rs[k], russian);
    }
  }

  /** The exporter's link table, for either language, has the shape. */
  lemma LinksShape(russian: bool)
    ensures TableShape(Links(russian), russian)
  {
    var root: seq<Link> := if russian then [RootLink] else [];
    assert TableShape(root, russian) by {
      assert '.' in "/index.html";
    }
    RouteLinksShape(Templated, NavRoutes, russian);
    var query: seq<Link> := if russian then RouteLinks(Query, NavRoutes, russian) else [];
    RouteLinksShape(Query, NavRoutes, russian);
    RouteLinksShape(Bare, BareRoutes, russian);
    TableShapeAppend(root, RouteLinks(Templated, NavRoutes, russian), russian);
    TableShapeAppend(root + RouteLinks(Templated, NavRoutes, russian), query, russian);
    TableShapeAppend(root + RouteLinks(Templated, NavRoutes, russian) + query, RouteLinks(Bare, BareRoutes, russian), russian);
  }

  // ---------------------------------------------------------------------
  // What the exporter's table resolves each kind of link to

  /** When every entry with source `p` agrees on its target, that target is
      what the table gives. */
  lemma {:induction false} ResolveUniform(links: seq<Link>, p: string, t: string)
    requires exists l :: l in links && l.from == p
    requires forall l :: l in links && l.from == p ==> l.to == t
    ensures Resolve(links, p) == t
    decreases |links|
  {
    if links[0].from != p {
      var l :| l in links && l.from == p;
      assert l in links[1..];
      ResolveUniform(links[1..], p, t);
    }
  }

  lemma RouteLinksMembers(kind: LinkKind, rs: seq<Route>, russian: bool, l: Link)
    ensures l in RouteLinks(kind, rs, russian) <==> exists r :: r in rs && l == KindLink(kind, r, russian)
  {
    var links := RouteLinks(kind, rs, russian);
    if l in links {
      var k :| 0 <= k < |links| && links[k] == l;
      assert rs[k] in rs;
    }
    if exists r :: r in rs && l == KindLink(kind, r, russian) {
      var r :| r in rs && l == KindLink(kind, r, russian);
      var k :| 0 <= k < |rs| && rs[k] == r;
      assert links[k] == l;
    }
  }

  /** The entries of the exporter's table, by kind. */
  lemma LinksMembers(russian: bool, l: Link)
    ensures l in Links(russian) <==>
      (russian && l == RootLink)
      || (exists r :: r in NavRoutes && l == KindLink(Templated, r, russian))
      || (russian && exists r :: r in NavRoutes && l == KindLink(Query, r, russian))
      || (exists r :: r in BareRoutes && l == KindLink(Bare, r, russian))
  {
    RouteLinksMembers(Templated, NavRoutes, russian, l);
    RouteLinksMembers(Query, NavRoutes, russian, l);
    RouteLinksMembers(Bare, BareRoutes, russian, l);
  }

  /** Every entry of the table but the root link is the entry of one
      route and one kind. */
  lemma LinkKindOf(russian: bool, l: Link) returns (kind: LinkKind, r: Route)
    requires l in Links(russian) && l != RootLink
    ensures l == KindLink(kind, r, russian)
  {
    var root := if russian then [RootLink] else [];
    var nav := RouteLinks(Templated, NavRoutes, russian);
    var query := if russian then RouteLinks(Query, NavRoutes, russian) else [];
    var bare := RouteLinks(Bare, BareRoutes, russian);
    assert Links(russian) == root + nav + query + bare;
    if l in nav {
      var k :| 0 <= k < |nav| && nav[k] == l;
      kind, r := Templated, NavRoutes[k];
    } else if l in query {
      var k :| 0 <= k < |query| && query[k] == l;
      kind, r := Query, NavRoutes[k];
    } else {
      assert l in bare;
      var k :| 0 <= k < |bare| && bare[k] == l;
      kind, r := Bare, BareRoutes[k];
    }
  }

  /** Every target of the table is the static file of some route. */
  lemma LinkTargetIsStatic(russian: bool, l: Link) returns (r: Route, ru: bool)
    requires l in Links(russian)
    ensures l.to == StaticTarget(r, ru)
  {
    if l == RootLink {
      r, ru := Home, false;
      RootTargetStatic();
    } else {
      var kind;
      kind, r := LinkKindOf(russian, l);
      ru := russian;
      KindTargetStatic(kind, r, russian);
    }
  }

  lemma RootTargetStatic()
    ensures RootLink.to == StaticTarget(Home, false)
  {
  }

  lemma KindTargetStatic(kind: LinkKind, r: Route, russian: bool)
    ensures KindLink(kind, r, russian).to == StaticTarget(r, russian)
  {
  }

  /** Every target of the table names a file the export writes. */
  lemma LinkTargetsExist(russian: bool, l: Link, year: int)
    requires l in Links(russian)
    ensures exists o :: o in GenerateAllPages(year) && "/" + o.path == l.to
  {
    var r, ru := LinkTargetIsStatic(russian, l);
    StaticTargetsExist(r, ru, year);
  }

  /** Text before a marker character that neither prefix holds agrees. */
  lemma PrefixBeforeMarker(a: string, b: string, c: string, d: string, m: char)
    requires m !in a && m !in c
    requires a + [m] + b == c + [m] + d
    ensures a == c
  {
    var s := a + [m] + b;
    assert s[|a|] == m && s[|c|] == m;
    assert forall i :: 0 <= i < |a| ==> s[i] == a[i];
    assert forall i :: 0 <= i < |c| ==> s[i] == c[i];
    assert a == s[..|a|] && c == s[..|c|];
  }

  lemma NavLinkBranches(r: Route)
    ensures NavLink(r)[18..] == NavBranches(r)
  {
    var pre := "{{if eq .Lang " + [Quote] + "ru" + [Quote];
    assert |pre| == 18;
    assert NavLink(r) == pre + NavBranches(r);
  }

  /** After the two closing braces comes the route path, then the query. */
  lemma NavBranchesPath(r: Route)
    ensures NavBranches(r)[2..] == RoutePath(r) + ['?'] + NavTail(r)
  {
    BranchesAfterBraces(RoutePath(r));
  }

  lemma BranchesAfterBraces(p: string)
    ensures ("}}" + p + RuQuery + "{{else}}" + p + "{{end}}")[2..] ==
      p + ['?'] + ("lang=ru" + "{{else}}" + p + "{{end}}")
  {
    assert RuQuery == ['?'] + "lang=ru";
  }

  function NavTail(r: Route): string
  {
    "lang=ru" + "{{else}}" + RoutePath(r) + "{{end}}"
  }

  /** Templated links name their route: the path is the text between the
      condition and the `?`. */
  lemma NavLinkInjective(r: Route, q: Route)
    requires NavLink(r) == NavLink(q)
    ensures r == q
  {
    RoutePathChars(r);
    RoutePathChars(q);
    NavLinkBranches(r);
    NavLinkBranches(q);
    NavBranchesPath(r);
    NavBranchesPath(q);
    PrefixBeforeMarker(RoutePath(r), NavTail(r), RoutePath(q), NavTail(q), '?');
    RoutePathInjective(r, q);
  }

  /** Each kind of link names its route unambiguously. */
  lemma KindLinkInjective(kind: LinkKind, r: Route, q: Route, russian: bool)
    requires KindLink(kind, r, russian).from == KindLink(kind, q, russian).from
    ensures r == q
  {
    match kind
    case Templated =>
      NavLinkInjective(r, q);
    case Query =>
      var f := RoutePath(r) + RuQuery;
      assert RoutePath(r) == f[..|f| - |RuQuery|];
      assert RoutePath(q) == f[..|f| - |RuQuery|];
      RoutePathInjective(r, q);
    case Bare =>
      RoutePathInjective(r, q);
  }

  lemma NavRoutesComplete(r: Route)
    ensures r in NavRoutes
  {
    match r
    case Subproject(p) => {
      match p
      case Graphics => assert NavRoutes[5] == r;
      case Importer => assert NavRoutes[7] == r;
      case Contractor => assert NavRoutes[8] == r;
      case Math => assert NavRoutes[6] == r;
    }
    case Home => assert NavRoutes[0] == r;
    case Features => assert NavRoutes[1] == r;
    case Examples => assert NavRoutes[2] == r;
    case Docs => assert NavRoutes[3] == r;
    case Download => assert NavRoutes[4] == r;
  }

  /** The entries whose source holds a quote are the templated ones. */
  lemma QuotedSources(russian: bool, l: Link)
    requires l in Links(russian) && Quote in l.from
    ensures exists q :: q in NavRoutes && l == KindLink(Templated, q, russian)
  {
    PlainKindSources(russian);
    assert Quote !in RootLink.from;
    LinksMembers(russian, l);
  }

  lemma PlainKindSources(russian: bool)
    ensures forall q :: Quote !in KindLink(Query, q, russian).from
    ensures forall q :: Quote !in KindLink(Bare, q, russian).from
  {
    forall q
      ensures Quote !in KindLink(Query, q, russian).from && Quote !in KindLink(Bare, q, russian).from
    {
      RoutePathChars(q);
      assert Quote !in RuQuery;
    }
  }

  lemma NavLinkHasQuote(r: Route)
    ensures Quote in NavLink(r)
  {
    assert NavLink(r)[14] == Quote;
  }

  /** The only entry whose source is a templated link is that link's own. */
  lemma NavMatches(r: Route, russian: bool, l: Link)
    requires l in Links(russian) && l.from == NavLink(r)
    ensures l == KindLink(Templated, r, russian)
  {
    NavLinkHasQuote(r);
    QuotedSources(russian, l);
    var q :| q in NavRoutes && l == KindLink(Templated, q, russian);
    assert NavLink(q) == NavLink(r);
    NavLinkInjective(r, q);
  }

  /** The templated link of every route resolves to the route's file in the
      page's language. */
  lemma ResolveNav(r: Route, russian: bool)
    ensures Resolve(Links(russian), NavLink(r)) == StaticTarget(r, russian)
  {
    forall l | l in Links(russian) && l.from == NavLink(r)
      ensures l.to == StaticTarget(r, russian)
    {
      NavMatches(r, russian, l);
    }
    NavRoutesComplete(r);
    LinksMembers(russian, KindLink(Templated, r, russian));
    ResolveUniform(Links(russian), NavLink(r), StaticTarget(r, russian));
  }

  /** A link no entry has as its source is left as it is. */
  lemma ResolveNone(links: seq<Link>, p: string)
    requires forall l :: l in links ==> l.from != p
    ensures Resolve(links, p) == p
  {
    assert forall k :: 0 <= k < |links| ==> links[k] in links;
  }

  /** Facts about every route path at once, for the case analyses below. */
  lemma AllRoutePathChars()
    ensures forall q :: Quote !in RoutePath(q) && '?' !in RoutePath(q) && '.' !in RoutePath(q)
  {
    forall q
      ensures Quote !in RoutePath(q) && '?' !in RoutePath(q) && '.' !in RoutePath(q)
    {
      RoutePathChars(q);
    }
  }

  /** A bare link with `?lang=ru` goes to the route's Russian file on
      Russian pages and is left alone on English pages. */
  lemma ResolveQuery(r: Route, russian: bool)
    ensures Resolve(Links(russian), RoutePath(r) + RuQuery) ==
      if russian then StaticTarget(r, true) else RoutePath(r) + RuQuery
  {
    var p := RoutePath(r) + RuQuery;
    forall l | l in Links(russian) && l.from == p
      ensures russian && l == KindLink(Query, r, russian)
    {
      QueryMatches(r, russian, l);
    }
    if russian {
      NavRoutesComplete(r);
      LinksMembers(russian, KindLink(Query, r, russian));
      ResolveUniform(Links(russian), p, StaticTarget(r, true));
    } else {
      ResolveNone(Links(russian), p);
    }
  }

  /** Only a route's own `?lang=ru` entry, present on Russian pages only,
      has that link as its source. */
  lemma QueryMatches(r: Route, russian: bool, l: Link)
    requires l in Links(russian) && l.from == RoutePath(r) + RuQuery
    ensures russian && l == KindLink(Query, r, russian)
  {
    RoutePathChars(r);
    assert Quote !in RuQuery;
    QuerySourcesMarked();
    QuerySources(russian, l);
    var q :| q in NavRoutes && l == KindLink(Query, q, russian);
    KindLinkInjective(Query, r, q, russian);
  }

  /** The entries whose source is quote-free and holds a `?` are the
      `?lang=ru` ones. */
  lemma QuerySources(russian: bool, l: Link)
    requires l in Links(russian) && Quote !in l.from && '?' in l.from
    ensures russian && exists q :: q in NavRoutes && l == KindLink(Query, q, russian)
  {
    NavLinkQuoted();
    AllRoutePathChars();
    assert '?' !in RootLink.from;
    LinksMembers(russian, l);
  }

  /** The entries whose source is quote-free and has no `?` are the bare
      ones. */
  lemma PlainSources(russian: bool, l: Link)
    requires l in Links(russian) && Quote !in l.from && '?' !in l.from
    ensures (russian && l == RootLink) || exists q :: q in BareRoutes && l == KindLink(Bare, q, russian)
  {
    NavLinkQuoted();
    QuerySourcesMarked();
    LinksMembers(russian, l);
  }

  lemma NavLinkQuoted()
    ensures forall q :: Quote in NavLink(q)
  {
    forall q
      ensures Quote in NavLink(q)
    {
      assert NavLink(q)[14] == Quote;
    }
  }

  /** The entries whose source is a bare route path. */
  lemma BareMatches(r: Route, russian: bool, l: Link)
    requires l in Links(russian) && l.from == RoutePath(r)
    ensures (russian && r == Home && l == RootLink) || (r in BareRoutes && l == KindLink(Bare, r, russian))
  {
    RoutePathChars(r);
    PlainSources(russian, l);
    if l == RootLink {
      DispatchRoutePath(r);
    } else {
      var q :| q in BareRoutes && l == KindLink(Bare, q, russian);
      RoutePathInjective(r, q);
    }
  }

  lemma QuerySourcesMarked()
    ensures forall q :: '?' in RoutePath(q) + RuQuery
  {
    forall q
      ensures '?' in RoutePath(q) + RuQuery
    {
      assert (RoutePath(q) + RuQuery)[|RoutePath(q)|] == '?';
    }
  }

  /** A bare link: on Russian pages `/` goes to the ENGLISH home page; the
      four top-level pages go to their file in the page's language; every
      other bare link, the subproject links among them, is left alone. */
  lemma ResolveBare(r: Route, russian: bool)
    ensures Resolve(Links(russian), RoutePath(r)) ==
      if russian && r == Home then "/index.html"
      else if r in BareRoutes then StaticTarget(r, russian)
      else RoutePath(r)
  {
    if russian && r == Home {
      ResolveBareRoot();
    } else if r in BareRoutes {
      ResolveBareListed(r, russian);
    } else {
      ResolveBareUnlisted(r, russian);
    }
  }

  lemma ResolveBareRoot()
    ensures Resolve(Links(true), "/") == "/index.html"
  {
    forall l | l in Links(true) && l.from == RoutePath(Home)
      ensures l.to == "/index.html"
    {
      BareMatches(Home, true, l);
    }
    LinksMembers(true, RootLink);
    ResolveUniform(Links(true), "/", "/index.html");
  }

  lemma ResolveBareListed(r: Route, russian: bool)
    requires r in BareRoutes
    ensures Resolve(Links(russian), RoutePath(r)) == StaticTarget(r, russian)
  {
    forall l | l in Links(russian) && l.from == RoutePath(r)
      ensures l.to == StaticTarget(r, russian)
    {
      BareMatches(r, russian, l);
    }
    BareLinkListed(r, russian);
    ResolveUniform(Links(russian), RoutePath(r), StaticTarget(r, russian));
  }

  lemma BareLinkListed(r: Route, russian: bool)
    requires r in BareRoutes
    ensures KindLink(Bare, r, russian) in Links(russian)
    ensures KindLink(Bare, r, russian).from == RoutePath(r)
  {
    var bare := RouteLinks(Bare, BareRoutes, russian);
    var k :| 0 <= k < |BareRoutes| && BareRoutes[k] == r;
    assert bare[k] == KindLink(Bare, r, russian);
    assert KindLink(Bare, r, russian) in bare;
  }

  lemma ResolveBareUnlisted(r: Route, russian: bool)
    requires r !in BareRoutes && !(russian && r == Home)
    ensures Resolve(Links(russian), RoutePath(r)) == RoutePath(r)
  {
    forall l | l in Links(russian)
      ensures l.from != RoutePath(r)
    {
      if l.from == RoutePath(r) {
        BareMatches(r, russian, l);
      }
    }
    ResolveNone(Links(russian), RoutePath(r));
  }

  /** A link that already names an output file is never rewritten. */
  lemma ResolveTarget(t: string, russian: bool)
    requires TargetShape(t)
    ensures Resolve(Links(russian), t) == t
  {
    LinksShape(russian);
    TargetUnmatched(Links(russian), t, russian);
  }
}
