/** What the per-file rewrite does to the language toggle, the body tag,
    the leftover debug line and the redirect stubs, and that it is not
    idempotent. */
module PageFixes {
  import opened Strings
  import opened Quotes
  import opened Site
  import opened Rewrite
  import opened LinkTable
  import opened FixFacts

  // ---------------------------------------------------------------------
  // Characters the fixed texts lack

  lemma FlagTemplateLacks(c: char)
    requires c == '<' || c == '='
    ensures c !in FlagTemplate
  {
    JoinLacks(["{{if eq .Lang ", "en", "}}" + RuFlag + "{{else}}" + UsFlag + "{{end}}"], c);
  }

  lemma LabelTemplateLacks(c: char)
    requires c == '<' || c == '=' || c == 'q'
    ensures c !in LabelTemplate
  {
    JoinLacks(["{{template ", "lang.switch", " .}}"], c);
  }

  lemma BodyTagLacks(c: char)
    requires c == 'U' || c == 'D' || c == 'f' || c == '{'
    ensures c !in BodyTag
  {
    JoinLacks(["<body class=", "bg-white text-black", ">"], c);
  }

  predicate DebugScriptFree(c: char)
  {
    c == 'U' || c == 'D' || c == 'f' || c == '{' || c == 'y'
  }

  lemma DebugHeadLacks(c: char)
    requires DebugScriptFree(c)
    ensures c !in "\n    <script>\n" + "        console.log("
    ensures c !in ");\n        console.log("
  {
  }

  lemma DebugTailLacks(c: char)
    requires DebugScriptFree(c)
    ensures c !in "Current path:"
    ensures c !in ", window.location.pathname);" + "\n    </script>"
  {
  }

  lemma DebugLanguageLacks(russian: bool, c: char)
    requires DebugScriptFree(c)
    ensures c !in "Page language: " + LanguageDisplay(russian)
  {
  }

  lemma DebugScriptLacks(russian: bool, c: char)
    requires DebugScriptFree(c)
    ensures c !in DebugScript(russian)
  {
    var parts := DebugScriptParts(russian);
    DebugHeadLacks(c);
    DebugTailLacks(c);
    DebugLanguageLacks(russian, c);
    assert forall k :: 0 <= k < |parts| ==> c !in parts[k];
    JoinLacks(parts, c);
  }

  lemma DebugLeftoverLacks()
    ensures 'U' !in DebugLeftover
  {
    var parts := ["",
               ">\n    // Debug message for " + "language switching\n" + "    console.log(",
               "Language switching is set up." + " Current path:",
               ", window.location.pathname);" + "\n</script>"];
    assert 'U' !in parts[0];
    assert 'U' !in parts[1] by {
      assert 'U' !in ">\n    // Debug message for " && 'U' !in "language switching\n";
      assert 'U' !in "    console.log(";
    }
    assert 'U' !in parts[2] by {
      assert 'U' !in "Language switching is set up." && 'U' !in " Current path:";
    }
    assert 'U' !in parts[3] by {
      assert 'U' !in ", window.location.pathname);" && 'U' !in "\n</script>";
    }
    JoinLacks(parts, 'U');
  }

  /** What the cleanup leaves of the debug line: `"></script>`. */
  const CleanedScript: string := Join(["", "></script>"])

  lemma CleanedScriptLacks(c: char)
    requires c == 'f' || c == '{' || c == 'y'
    ensures c !in CleanedScript
  {
    JoinLacks(["", "></script>"], c);
  }

  // ---------------------------------------------------------------------
  // The language toggle

  /** The flag literal each kind of page shows: that of the OTHER language. */
  function ShownFlag(russian: bool): string
  {
    if russian then UsFlag else RuFlag
  }

  /** The label each kind of page shows: the name of the other language. */
  function ShownLabel(russian: bool): string
  {
    if russian then "English" else RussianLabel
  }

  lemma ShownLabelLacks(russian: bool)
    ensures '<' !in ShownLabel(russian)
  {
    if !russian {
      assert '<' !in RussianLabel;
    }
  }

  lemma TailOnFlag(russian: bool)
    ensures ApplyRules(FlagTemplate, TailRules(russian)) == ShownFlag(russian)
  {
    var f := ShownFlag(russian);
    ReplaceAllWhole(FlagTemplate, f);
    assert TailRules(russian)[1..] == [LabelRule(russian), BodyRule(russian)];
    assert ApplyRules(FlagTemplate, TailRules(russian)) ==
      ApplyRules(f, [LabelRule(russian), BodyRule(russian)]);
    ShownFlagInert(russian);
  }

  /** The flag shown contains neither a label template nor a body tag. */
  lemma ShownFlagInert(russian: bool)
    ensures ApplyRules(ShownFlag(russian), [LabelRule(russian), BodyRule(russian)]) == ShownFlag(russian)
  {
    var f := ShownFlag(russian);
    LabelTemplateChars();
    BodyTagChars();
    NotOccursByChar(f, LabelTemplate, '{');
    NotOccursByChar(f, BodyTag, '<');
  }

  /** The flag template becomes the flag of the other language. */
  lemma FixFlag(russian: bool)
    ensures Fix(FlagTemplate, russian) == ShownFlag(russian)
  {
    FixPhases(FlagTemplate, russian);
    BaseRuleChars();
    CleanupRuleChars();
    FlagTemplateLacks('<');
    HeadInert(FlagTemplate, '<', '<');
    FlagTemplateLacks('=');
    LinkRulesLack(FlagTemplate, Links(russian), '=');
    TailOnFlag(russian);
  }

  lemma TailOnLabel(russian: bool)
    ensures ApplyRules(LabelTemplate, TailRules(russian)) == ShownLabel(russian)
  {
    var l := ShownLabel(russian);
    FlagTemplateChars();
    LabelTemplateLacks('q');
    NotOccursByChar(LabelTemplate, FlagTemplate, 'q');
    assert ApplyRules(LabelTemplate, [FlagRule(russian)]) == LabelTemplate;
    ApplyRulesAppend(LabelTemplate, [FlagRule(russian)], [LabelRule(russian), BodyRule(russian)]);
    assert [FlagRule(russian)] + [LabelRule(russian), BodyRule(russian)] == TailRules(russian);
    ReplaceAllWhole(LabelTemplate, l);
    BodyTagChars();
    ShownLabelLacks(russian);
    NotOccursByChar(l, BodyTag, '<');
    assert [LabelRule(russian), BodyRule(russian)][1..] == [BodyRule(russian)];
  }

  /** The label template becomes the name of the other language. */
  lemma FixLabel(russian: bool)
    ensures Fix(LabelTemplate, russian) == ShownLabel(russian)
  {
    FixPhases(LabelTemplate, russian);
    BaseRuleChars();
    CleanupRuleChars();
    LabelTemplateLacks('<');
    HeadInert(LabelTemplate, '<', '<');
    LabelTemplateLacks('=');
    LinkRulesLack(LabelTemplate, Links(russian), '=');
    TailOnLabel(russian);
  }

  // ---------------------------------------------------------------------
  // The body tag and the debug script

  /** The body tag followed by text no rule can touch, such as the inserted
      script itself: the script is inserted and the text is kept. Text that
      lacks `U` (base tag), `D` (cleanup), `f` (links), `{` (flag and label)
      and `y` (body tag) is out of every rule; `InPage.BodyTagInPage` states
      the body tag inside an arbitrary page. */
  lemma FixAfterBody(y: string, russian: bool)
    requires forall c :: DebugScriptFree(c) ==> c !in y
    ensures Fix(BodyTag + y, russian) == BodyTag + DebugScript(russian) + y
  {
    var s := BodyTag + y;
    assert DebugScriptFree('U') && DebugScriptFree('D') && DebugScriptFree('f');
    assert DebugScriptFree('{') && DebugScriptFree('y');
    FixPhases(s, russian);
    BaseRuleChars();
    CleanupRuleChars();
    BodyTagLacks('U');
    BodyTagLacks('D');
    HeadInert(s, 'U', 'D');
    BodyTagLacks('f');
    LinkRulesLack(s, Links(russian), 'f');
    TailOnBody(y, russian);
  }

  /** The body rule inserts the script once, after the tag at the front. */
  lemma BodyRuleOnce(y: string, russian: bool)
    requires 'y' !in y
    ensures ReplaceAll(BodyTag + y, BodyTag, BodyTag + DebugScript(russian)) == BodyTag + DebugScript(russian) + y
  {
    var rep := BodyTag + DebugScript(russian);
    NotOccursByLength(BodyTag[..|BodyTag| - 1], BodyTag);
    assert [] + BodyTag[..|BodyTag| - 1] == BodyTag[..|BodyTag| - 1];
    ReplaceAllSplice([], BodyTag, rep, y);
    BodyTagChars();
    NotOccursByChar(y, BodyTag, 'y');
    ReplaceAllAbsent(y, BodyTag, rep);
    assert [] + BodyTag + y == BodyTag + y;
  }

  /** The toggle rules do not touch a text without template braces. */
  lemma ToggleInert(s: string, russian: bool)
    requires '{' !in s
    ensures ApplyRules(s, [FlagRule(russian), LabelRule(russian)]) == s
  {
    FlagTemplateChars();
    LabelTemplateChars();
    NotOccursByChar(s, FlagTemplate, '{');
    NotOccursByChar(s, LabelTemplate, '{');
  }

  /** Before the body rule only the toggle rules run, and they leave a
      text without braces alone. */
  lemma TailIsBodyRule(s: string, russian: bool)
    requires '{' !in s
    ensures ApplyRules(s, TailRules(russian)) == ApplyRules(s, [BodyRule(russian)])
  {
    ToggleInert(s, russian);
    ApplyRulesAppend(s, [FlagRule(russian), LabelRule(russian)], [BodyRule(russian)]);
    assert [FlagRule(russian), LabelRule(russian)] + [BodyRule(russian)] == TailRules(russian);
  }

  lemma BodyRuleApply(y: string, russian: bool)
    requires 'y' !in y
    ensures ApplyRules(BodyTag + y, [BodyRule(russian)]) == BodyTag + DebugScript(russian) + y
  {
    BodyRuleOnce(y, russian);
    var t := ReplaceAll(BodyTag + y, BodyTag, BodyTag + DebugScript(russian));
    assert ApplyRules(BodyTag + y, [BodyRule(russian)]) == ApplyRules(t, []);
  }

  lemma TailOnBody(y: string, russian: bool)
    requires '{' !in y && 'y' !in y
    ensures ApplyRules(BodyTag + y, TailRules(russian)) == BodyTag + DebugScript(russian) + y
  {
    BodyTagLacks('{');
    TailIsBodyRule(BodyTag + y, russian);
    BodyRuleApply(y, russian);
  }

  /** The body tag gets the page-language script right after it. */
  lemma FixBodyTag(russian: bool)
    ensures Fix(BodyTag, russian) == BodyTag + DebugScript(russian)
  {
    FixAfterBody("", russian);
    assert BodyTag + "" == BodyTag;
  }

  /** The rewrite is not idempotent: a second pass inserts the script a
      second time. */
  lemma FixNotIdempotent(russian: bool)
    ensures Fix(Fix(BodyTag, russian), russian) == Fix(BodyTag, russian) + DebugScript(russian)
    ensures Fix(Fix(BodyTag, russian), russian) != Fix(BodyTag, russian)
  {
    FixBodyTag(russian);
    forall c | DebugScriptFree(c)
      ensures c !in DebugScript(russian)
    {
      DebugScriptLacks(russian, c);
    }
    FixAfterBody(DebugScript(russian), russian);
    assert |DebugScript(russian)| > 0 by {
      JoinHasQuote(DebugScriptParts(russian));
    }
  }

  /** The leftover debug line collapses to a closing script tag. */
  lemma FixCleanup(russian: bool)
    ensures Fix(DebugLeftover, russian) == CleanedScript
  {
    FixPhases(DebugLeftover, russian);
    CleanupHead();
    CleanedScriptInert(russian);
  }

  /** The head phase: the base rule misses the line, the cleanup rule takes
      all of it. */
  lemma CleanupHead()
    ensures ApplyRules(DebugLeftover, HeadRules) == CleanedScript
  {
    BaseRuleChars();
    DebugLeftoverLacks();
    NotOccursByChar(DebugLeftover, BaseRule.pattern, 'U');
    assert ApplyRules(DebugLeftover, [BaseRule]) == DebugLeftover;
    ApplyRulesAppend(DebugLeftover, [BaseRule], [CleanupRule]);
    assert [BaseRule] + [CleanupRule] == HeadRules;
    ReplaceAllWhole(DebugLeftover, CleanedScript);
    assert ApplyRules(CleanedScript, []) == CleanedScript;
  }

  /** The link table and the tail leave the closing tag alone. */
  lemma CleanedScriptInert(russian: bool)
    ensures ApplyRules(ApplyRules(CleanedScript, LinkRules(Links(russian))), TailRules(russian)) == CleanedScript
  {
    CleanedScriptLacks('f');
    LinkRulesLack(CleanedScript, Links(russian), 'f');
    CleanedScriptLacks('{');
    CleanedScriptLacks('y');
    BodyTagChars();
    TailInert(CleanedScript, russian, 'y');
  }

  // ---------------------------------------------------------------------
  // Redirect stubs

  predicate StubFree(c: char)
  {
    c == 'U' || c == 'w' || c == '{' || c == 'k'
  }

  lemma StubHeadLacks(c: char)
    requires StubFree(c)
    ensures c !in "<!DOCTYPE html>\n<html>\n" + "<head>\n    <meta http-equiv="
    ensures c !in "refresh" && c !in " content=" && c !in "0; url="
  {
  }

  lemma StubTailLacks(c: char)
    requires StubFree(c)
    ensures c !in ">\n</head>\n<body>\n" + "    <p>Redirecting to " + "<a href="
    ensures c !in ">" && c !in "</a></p>\n" + "</body>\n</html>"
  {
  }

  lemma StubLacks(target: string, c: char)
    requires StubFree(c) && c !in target
    ensures c !in RedirectStub(target)
  {
    StubHeadLacks(c);
    StubTailLacks(c);
    var parts := StubSegments(target);
    assert forall k :: 0 <= k < |parts| ==> c !in parts[k];
    JoinLacks(parts, c);
  }

  lemma StubHead(target: string)
    requires forall c :: StubFree(c) ==> c !in target
    ensures ApplyRules(RedirectStub(target), HeadRules) == RedirectStub(target)
  {
    assert StubFree('U') && StubFree('w');
    StubLacks(target, 'U');
    StubLacks(target, 'w');
    BaseRuleChars();
    CleanupRuleChars();
    HeadInert(RedirectStub(target), 'U', 'w');
  }

  lemma StubLinks(target: string, russian: bool)
    requires Quote !in target && '{' !in target && LinkNeutral(target, russian)
    ensures ApplyRules(RedirectStub(target), LinkRules(Links(russian))) == RedirectStub(target)
  {
    var s := RedirectStub(target);
    assert StubFree('{');
    StubLacks(target, '{');
    StubSegmentsNeutral(target, russian);
    LinksShape(russian);
    LinkRulesInert(s, Links(russian), russian);
  }

  lemma StubSegmentsNeutral(target: string, russian: bool)
    requires Quote !in target && LinkNeutral(target, russian)
    ensures forall k :: 1 <= k < |Split(RedirectStub(target))| - 1 ==>
      LinkNeutral(Split(RedirectStub(target))[k], russian)
  {
    RedirectStubRoundTrip(target);
    var ss := StubSegments(target);
    assert LinkNeutral(ss[1], russian) by { assert ss[1][0] == 'r'; }
    assert LinkNeutral(ss[2], russian) by { assert ss[2][0] == ' '; }
    assert LinkNeutral(ss[3], russian) by { assert ss[3][0] == '0'; }
    assert LinkNeutral(ss[4], russian) by { assert ss[4][0] == '>'; }
    assert LinkNeutral(ss[5], russian);
    assert |ss| == 7;
  }

  lemma StubTail(target: string, russian: bool)
    requires forall c :: StubFree(c) ==> c !in target
    ensures ApplyRules(RedirectStub(target), TailRules(russian)) == RedirectStub(target)
  {
    assert StubFree('{') && StubFree('k');
    StubLacks(target, '{');
    StubLacks(target, 'k');
    BodyTagChars();
    TailInert(RedirectStub(target), russian, 'k');
  }

  /** A stub is left alone when its target holds none of the characters
      that anchor the head and tail rules and is no link source of the
      page's language. */
  lemma FixStub(target: string, russian: bool)
    requires Quote !in target && LinkNeutral(target, russian)
    requires forall c :: StubFree(c) ==> c !in target
    ensures Fix(RedirectStub(target), russian) == RedirectStub(target)
  {
    FixPhases(RedirectStub(target), russian);
    StubHead(target);
    assert StubFree('{');
    StubLinks(target, russian);
    StubTail(target, russian);
  }

  lemma FixRussianStub()
    ensures Fix(RedirectStub("/index_ru.html"), true) == RedirectStub("/index_ru.html")
  {
    assert forall c :: StubFree(c) ==> c !in "/index_ru.html";
    assert '.' in "/index_ru.html";
    FixStub("/index_ru.html", true);
  }

  lemma FixEnglishStub()
    ensures Fix(RedirectStub("/"), false) == RedirectStub("/")
  {
    assert forall c :: StubFree(c) ==> c !in "/";
    FixStub("/", false);
  }

  /** Every redirect stub of the output tree survives the rewrite of its
      own file unchanged. */
  lemma FixRedirects(o: Output)
    requires o in Redirects
    ensures Fix(RedirectStub(o.target), IsRussianPath(o.path)) == RedirectStub(o.target)
  {
    RedirectTargetsHome(o);
    if IsRussianPath(o.path) {
      FixRussianStub();
    } else {
      FixEnglishStub();
    }
  }

  // ---------------------------------------------------------------------
  // Texts without quotes

  /** Every pattern of the table holds a double quote, so a text without
      one is left exactly as it is. */
  lemma FixNoQuote(s: string, russian: bool)
    requires Quote !in s
    ensures Fix(s, russian) == s
  {
    FixPhases(s, russian);
    PatternsQuoted();
    HeadInert(s, Quote, Quote);
    LinkRulesLack(s, Links(russian), Quote);
    TailNoQuote(s, russian);
  }

  lemma TailNoQuote(s: string, russian: bool)
    requires Quote !in s
    ensures ApplyRules(s, TailRules(russian)) == s
  {
    PatternsQuoted();
    NotOccursByChar(s, FlagTemplate, Quote);
    NotOccursByChar(s, LabelTemplate, Quote);
    NotOccursByChar(s, BodyTag, Quote);
  }
}
