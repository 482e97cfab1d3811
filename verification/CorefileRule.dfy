/** What a spliced block says: read back from the text, it is this cube's rule for this domain,
    and the rule rewrites the names below the domain and no others. */
module CorefileRule {
  import opened Text
  import opened Wrappers
  import opened Corefile
  import opened CorefileLaws

  // ---------- the server block ----------

  /** A line opens the default server block iff, trimmed, it is the token and a brace with any
      white space between them. */
  lemma OpeningLineIs(line: string)
    ensures ServerOpen()(line) <==>
            exists gap: string :: (forall c <- gap :: IsSpace(c)) && TrimSpace(line) == ".:53" + gap + "{"
  {
    var t := TrimSpace(line);
    hide TrimSpace, IsSpace;
    if IsServerOpen(line) {
      assert t[3] == '3' && t[|t| - 1] == '{';
      var gap := t[4..|t| - 1];
      var before, after := TrimSplits(gap);
      assert gap == before + after;
      assert t == ".:53" + gap + "{";
    }
    if gap: string :| (forall c <- gap :: IsSpace(c)) && t == ".:53" + gap + "{" {
      assert t[4..|t| - 1] == gap && t[..4] == ".:53" && t[|t| - 1..] == "{";
      BlankTrims(gap);
    }
  }

  lemma {:induction false} BlankTrims(s: string)
    requires forall c <- s :: IsSpace(c)
    ensures TrimSpace(s) == ""
  {
    hide IsSpace;
    if s != [] {
      BlankTrims(s[1..]);
    }
  }

  // ---------- patterns of plain and escaped characters ----------

  /** The characters that mean something else than themselves in a pattern. */
  predicate IsMeta(c: char) {
    c in "\\.+*?()|[]{}^$"
  }

  /** A pattern against the whole of a text: a plain character and an escaped special one match
      themselves, an unescaped dot matches any character, and nothing else is read. */
  predicate Matches(pattern: string, text: string) {
    if pattern == [] then text == []
    else if pattern[0] == '\\' then
      |pattern| > 1 && IsMeta(pattern[1]) && text != [] && text[0] == pattern[1] && Matches(pattern[2..], text[1..])
    else
      && (pattern[0] == '.' || !IsMeta(pattern[0]))
      && text != [] && (pattern[0] == '.' || text[0] == pattern[0]) && Matches(pattern[1..], text[1..])
  }

  /** The text a pattern spells when none of its characters is special. */
  function Unquoted(pattern: string): Option<string> {
    if pattern == [] then Some([])
    else
      var escaped := pattern[0] == '\\';
      if escaped && (|pattern| == 1 || !IsMeta(pattern[1])) then None
      else if !escaped && IsMeta(pattern[0]) then None
      else
        var rest := Unquoted(pattern[if escaped then 2 else 1..]);
        if rest.None? then None else Some([pattern[if escaped then 1 else 0]] + rest.value)
  }

  lemma QuoteNothing()
    ensures QuoteMeta([]) == []
  {
  }

  lemma QuoteNext(s: string)
    requires s != []
    ensures IsMeta(s[0]) ==> QuoteMeta(s) == ['\\', s[0]] + QuoteMeta(s[1..])
    ensures !IsMeta(s[0]) ==> QuoteMeta(s) == [s[0]] + QuoteMeta(s[1..])
  {
  }

  /** Quoting is undone by reading: the pattern spells the text it was made of. */
  lemma {:induction false} QuotedSpells(s: string)
    ensures Unquoted(QuoteMeta(s)) == Some(s)
  {
    if s != [] {
      QuoteNext(s);
      QuotedSpells(s[1..]);
      var q := QuoteMeta(s);
      assert IsMeta(s[0]) ==> q[2..] == QuoteMeta(s[1..]);
      assert !IsMeta(s[0]) ==> q[1..] == QuoteMeta(s[1..]);
      hide QuoteMeta;
      assert [s[0]] + s[1..] == s;
    }
  }

  /** And it matches that text and no other. */
  lemma {:induction false} QuotedMatchesItself(s: string, text: string)
    ensures Matches(QuoteMeta(s), text) <==> text == s
  {
    if s != [] {
      QuoteNext(s);
      var q := QuoteMeta(s);
      assert IsMeta(s[0]) ==> q[2..] == QuoteMeta(s[1..]);
      assert !IsMeta(s[0]) ==> q[1..] == QuoteMeta(s[1..]);
      hide QuoteMeta;
      if text != [] {
        QuotedMatchesItself(s[1..], text[1..]);
        assert [s[0]] + s[1..] == s && [text[0]] + text[1..] == text;
      }
    }
  }

  lemma {:induction false} QuoteConcat(a: string, b: string)
    ensures QuoteMeta(a + b) == QuoteMeta(a) + QuoteMeta(b)
  {
    hide QuoteMeta, IsMeta;
    if a == [] {
      QuoteNothing();
      assert a + b == b;
    } else {
      QuoteConcat(a[1..], b);
      QuoteNext(a);
      QuoteNext(a + b);
      assert (a + b)[0] == a[0] && (a + b)[1..] == a[1..] + b;
      var head := if IsMeta(a[0]) then ['\\', a[0]] else [a[0]];
      assert head + (QuoteMeta(a[1..]) + QuoteMeta(b)) == head + QuoteMeta(a[1..]) + QuoteMeta(b);
    }
  }

  // ---------- reading a block ----------

  const BEGIN := "    # cube-idp:begin "
  const END := "    # cube-idp:end "
  const PATTERN_START := "        name regex (.*)"
  const SERVICE := "gateway.gateway-system.svc.cluster.local."
  const PATTERN_END := "$ " + SERVICE
  const DOT := "\\."

  datatype Rule = Rule(cube: string, domain: string)

  /** What stands between two fixed texts. */
  function Between(line: string, before: string, after: string): Option<string> {
    if |before| + |after| <= |line| && HasPrefix(line, before) && HasSuffix(line, after) then
      Some(line[|before|..|line| - |after|])
    else
      None
  }

  lemma BetweenIs(before: string, s: string, after: string)
    ensures Between(before + s + after, before, after) == Some(s)
  {
    var line := before + s + after;
    assert line[..|before|] == before && line[|line| - |after|..] == after;
    assert line[|before|..|line| - |after|] == s;
  }

  /** The pattern of a rule line: what is matched after a leading `(.*)` up to a closing `$`. */
  function PatternOf(line: string): Option<string> {
    Between(line, PATTERN_START, PATTERN_END)
  }

  function DomainOf(line: string): Option<string> {
    var quoted := Between(line, PATTERN_START + DOT, DOT + PATTERN_END);
    if quoted.None? then None else Unquoted(quoted.value)
  }

  /** The block of CoreDNS's `rewrite` plugin that sends a domain's names to the gateway, read line
      by line; None if a line is anything else. */
  function ReadBlock(lines: seq<string>): Option<Rule> {
    if |lines| != 6 then None
    else
      var cube := Between(lines[0], BEGIN, "");
      var domain := DomainOf(lines[2]);
      if cube.None? || domain.None? then None
      else if lines[1] != "    rewrite stop {" || lines[3] != "        answer auto" || lines[4] != "    }" then None
      else if lines[5] != END + cube.value then None
      else Some(Rule(cube.value, domain.value))
  }

  /** The pattern is not anchored on the left, and `(.*)` takes whatever there is. */
  ghost predicate Rewrites(line: string, name: string) {
    PatternOf(line).Some? && exists taken: string, rest: string ::
      taken + rest == name && Matches(PatternOf(line).value, rest)
  }

  // ---------- what the rendered block says ----------

  function RuleLineOf(domain: string): string {
    RULE_INDENT + "name regex (.*)\\." + QuoteMeta(domain) + "\\.$ " + SERVICE_FQDN
  }

  lemma MarkerTexts()
    ensures BLOCK_INDENT + MARKER_BEGIN == BEGIN && BLOCK_INDENT + MARKER_END == END
  {
  }

  lemma FixedTexts()
    ensures BLOCK_INDENT + "rewrite stop {" == "    rewrite stop {" && BLOCK_INDENT + "}" == "    }"
    ensures RULE_INDENT + "answer auto" == "        answer auto"
  {
  }

  lemma RenderedLines(cube: string, domain: string)
    ensures RenderBlock(cube, domain) ==
            [BEGIN + cube, "    rewrite stop {", RuleLineOf(domain), "        answer auto", "    }", END + cube]
  {
    hide QuoteMeta;
    MarkerTexts();
    FixedTexts();
  }

  lemma RuleStart()
    ensures RULE_INDENT + "name regex (.*)\\." == PATTERN_START + DOT
  {
  }

  lemma RuleEnd()
    ensures "\\.$ " + SERVICE_FQDN == DOT + PATTERN_END
  {
    DotSplits(SERVICE_FQDN);
  }

  lemma DotSplits(s: string)
    ensures "\\.$ " + s == DOT + ("$ " + s)
  {
  }

  lemma RuleLineSpelled(domain: string)
    ensures RuleLineOf(domain) == PATTERN_START + DOT + QuoteMeta(domain) + (DOT + PATTERN_END)
  {
    hide QuoteMeta;
    RuleStart();
    RuleEnd();
    Regrouped(RULE_INDENT + "name regex (.*)\\.", QuoteMeta(domain), "\\.$ ", SERVICE_FQDN);
  }

  lemma Regrouped(a: string, b: string, c: string, d: string)
    ensures a + b + c + d == a + b + (c + d)
  {
  }

  lemma RuleLineDomain(domain: string)
    ensures DomainOf(RuleLineOf(domain)) == Some(domain)
  {
    hide QuoteMeta, Between, Unquoted, RuleLineOf;
    RuleLineSpelled(domain);
    BetweenIs(PATTERN_START + DOT, QuoteMeta(domain), DOT + PATTERN_END);
    QuotedSpells(domain);
  }

  lemma RuleLinePattern(domain: string)
    ensures PatternOf(RuleLineOf(domain)) == Some(QuoteMeta("." + domain + "."))
  {
    hide QuoteMeta, Between, RuleLineOf;
    DotsQuoted(domain);
    RuleLineSpelled(domain);
    RegroupedInside(PATTERN_START, DOT, QuoteMeta(domain), PATTERN_END);
    BetweenIs(PATTERN_START, QuoteMeta("." + domain + "."), PATTERN_END);
  }

  lemma RegroupedInside(a: string, dot: string, b: string, c: string)
    ensures a + dot + b + (dot + c) == a + (dot + b + dot) + c
  {
  }

  lemma DotsQuoted(domain: string)
    ensures QuoteMeta("." + domain + ".") == DOT + QuoteMeta(domain) + DOT
  {
    QuoteNext(".");
    QuoteNothing();
    assert "."[1..] == [];
    assert QuoteMeta(".") == DOT;
    hide QuoteMeta;
    QuoteConcat("." + domain, ".");
    QuoteConcat(".", domain);
  }

  /** The rule rewrites exactly the names below the domain. */
  lemma RuleLineRewrites(domain: string, name: string)
    ensures Rewrites(RuleLineOf(domain), name) <==> HasSuffix(name, "." + domain + ".")
  {
    hide QuoteMeta, PatternOf, RuleLineOf, Matches;
    var below := "." + domain + ".";
    RuleLinePattern(domain);
    if taken: string, rest: string :| taken + rest == name && Matches(QuoteMeta(below), rest) {
      QuotedMatchesItself(below, rest);
      assert name[|name| - |below|..] == below;
    }
    if HasSuffix(name, below) {
      var taken, rest := name[..|name| - |below|], name[|name| - |below|..];
      assert taken + rest == name;
      QuotedMatchesItself(below, rest);
    }
  }

  /** The rendered block is read back to the cube and the domain it was rendered for. */
  lemma RenderedReadsBack(cube: string, domain: string)
    ensures ReadBlock(RenderBlock(cube, domain)) == Some(Rule(cube, domain))
  {
    hide RenderBlock, DomainOf, RuleLineOf, Between;
    RenderedLines(cube, domain);
    RuleLineDomain(domain);
    BetweenIs(BEGIN, cube, "");
    assert BEGIN + cube + "" == BEGIN + cube;
  }

  /** Where the block goes: right below the one opening line, or in the place of the old block; and
      every other line stays where it was around it. */
  lemma SplicedInPlace(text: string, cube: string, domain: string)
    requires ValidCubeName(cube) && ValidDomain(domain)
    requires Splice(text, cube, domain).Spliced?
    ensures var before, block := Split(text, '\n'), RenderBlock(cube, domain);
            var after := Split(Splice(text, cube, domain).text, '\n');
            && (forall o :: NoMarkers(before, cube) && Only(before, ServerOpen(), o) ==>
                  after == before[..o + 1] + block + before[o + 1..])
            && (forall b, e :: Region(before, cube, b, e) ==> after == before[..b] + block + before[e + 1..])
  {
    var before, block := Split(text, '\n'), RenderBlock(cube, domain);
    hide RenderBlock, Splice, Split;
    SplicedLines(text, cube, domain);
    forall o | NoMarkers(before, cube) && Only(before, ServerOpen(), o)
      ensures SpliceLines(before, cube, block) == before[..o + 1] + block + before[o + 1..]
    {
      Inserted(before, cube, o, block);
    }
    forall b, e | Region(before, cube, b, e)
      ensures SpliceLines(before, cube, block) == before[..b] + block + before[e + 1..]
    {
      RegionReplaced(before, cube, b, e, block);
    }
  }

  /** A text with a region is spliced there or not at all. */
  lemma RegionReplaced(lines: seq<string>, cube: string, b: int, e: int, block: seq<string>)
    requires Spliceable(lines, cube) && Region(lines, cube, b, e)
    ensures 0 <= b < e < |lines| && SpliceLines(lines, cube, block) == lines[..b] + block + lines[e + 1..]
  {
    hide BeginOf, EndOf, ServerOpen;
    RegionInside(lines, cube, b, e);
    var b', e' :| Replaces(lines, cube, b', e');
    assert b' == b && e' == e;
    Replaced(lines, cube, b, e, block);
  }

  /** Lines b..b+5 are the cube's one region; they read as its rule for the domain, and rewrite the
      names below the domain and nothing else. */
  ghost predicate RuleAt(lines: seq<string>, b: int, cube: string, domain: string) {
    && 0 <= b && b + 6 <= |lines|
    && Region(lines, cube, b, b + 5)
    && ReadBlock(lines[b..b + 6]) == Some(Rule(cube, domain))
    && forall name :: Rewrites(lines[b + 2], name) <==> HasSuffix(name, "." + domain + ".")
  }

  /** Whatever the text, a successful splice leaves that rule in it. */
  lemma SplicedRule(text: string, cube: string, domain: string)
    requires ValidCubeName(cube) && ValidDomain(domain)
    requires Splice(text, cube, domain).Spliced?
    ensures exists b :: RuleAt(Split(Splice(text, cube, domain).text, '\n'), b, cube, domain)
  {
    hide Splice, Split, Outside, RenderBlock, ReadBlock, Rewrites, HasSuffix, Region, OpenAbove, RuleLineOf;
    SplicePreserves(text, cube, domain);
    var after := Split(Splice(text, cube, domain).text, '\n');
    var b :| BlockAtLine(after, cube, b, RenderBlock(cube, domain));
    BlockIsRule(after, b, cube, domain);
  }

  lemma BlockIsRule(lines: seq<string>, b: int, cube: string, domain: string)
    requires BlockAtLine(lines, cube, b, RenderBlock(cube, domain))
    ensures RuleAt(lines, b, cube, domain)
  {
    RenderedReadsBack(cube, domain);
    RenderedLines(cube, domain);
    hide RenderBlock, ReadBlock, Rewrites, HasSuffix, OpenAbove, RuleLineOf;
    assert lines[b + 2] == lines[b..b + 6][2] == RuleLineOf(domain);
    forall name ensures Rewrites(lines[b + 2], name) <==> HasSuffix(name, "." + domain + ".") {
      RuleLineRewrites(domain, name);
    }
  }
}
