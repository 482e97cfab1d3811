/** The laws of the splice: what every successful splice keeps, whatever the text. */
module CorefileLaws {
  import opened Text
  import opened Corefile

  // ---------- the rendered block ----------

  lemma {:induction false} QuoteMetaHasNoNewline(s: string)
    requires '\n' !in s
    ensures '\n' !in QuoteMeta(s)
  {
    if s != [] {
      QuoteMetaHasNoNewline(s[1..]);
    }
  }

  /** The escaped domain can be read back, so two domains never render the same rule. */
  lemma {:induction false} QuoteMetaInjective(s: string, t: string)
    requires QuoteMeta(s) == QuoteMeta(t)
    ensures s == t
  {
    if s != [] && t != [] {
      var q, q' := QuoteMeta(s), QuoteMeta(t);
      assert q[0] == q'[0];
      if s[0] in "\\.+*?()|[]{}^$" {
        assert q[1] == s[0] && q[2..] == QuoteMeta(s[1..]);
        assert q'[1] == t[0] && q'[2..] == QuoteMeta(t[1..]);
      } else {
        assert q[1..] == QuoteMeta(s[1..]) && q'[1..] == QuoteMeta(t[1..]);
      }
      QuoteMetaInjective(s[1..], t[1..]);
    }
  }

  /** No marker of any cube, and no server-block opening line. */
  ghost predicate Inert(line: string) {
    && (forall cube: string :: !BeginOf(cube)(line) && !EndOf(cube)(line))
    && !ServerOpen()(line)
  }

  lemma InertLine(indent: string, s: string)
    requires indent == BLOCK_INDENT || indent == RULE_INDENT
    requires s != [] && s[0] != '#' && s[0] != '.' && Trimmed(s)
    ensures Inert(indent + s)
  {
    TrimIndented(indent, s);
    forall cube: string ensures !BeginOf(cube)(indent + s) && !EndOf(cube)(indent + s) {
      assert (MARKER_BEGIN + cube)[0] == '#' && (MARKER_END + cube)[0] == '#';
    }
  }

  lemma MarkerLine(prefix: string, cube: string)
    requires ValidCubeName(cube)
    requires prefix == MARKER_BEGIN || prefix == MARKER_END
    ensures TrimSpace(BLOCK_INDENT + prefix + cube) == prefix + cube
    ensures !ServerOpen()(BLOCK_INDENT + prefix + cube)
  {
    var last := cube[|cube| - 1];
    assert last in cube && !IsSpace(last);
    var text := prefix + cube;
    assert text[0] == '#' && text[|text| - 1] == last;
    assert BLOCK_INDENT + prefix + cube == BLOCK_INDENT + text;
    TrimIndented(BLOCK_INDENT, text);
  }

  lemma RuleLine(domain: string)
    ensures Inert(RULE_INDENT + "name regex (.*)\\." + QuoteMeta(domain) + "\\.$ " + SERVICE_FQDN)
  {
    hide QuoteMeta, Inert;
    var text := "name regex (.*)\\." + QuoteMeta(domain) + "\\.$ " + SERVICE_FQDN;
    assert "name regex (.*)\\."[0] == 'n' && SERVICE_FQDN[|SERVICE_FQDN| - 1] == '.';
    RuleEnds("name regex (.*)\\.", QuoteMeta(domain), "\\.$ ", SERVICE_FQDN);
    RuleIndented(RULE_INDENT, "name regex (.*)\\.", QuoteMeta(domain), "\\.$ ", SERVICE_FQDN);
    InertLine(RULE_INDENT, text);
  }

  lemma RuleEnds(a: string, b: string, c: string, d: string)
    requires a != [] && d != [] && !IsSpace(a[0]) && !IsSpace(d[|d| - 1])
    ensures var text := a + b + c + d; text != [] && text[0] == a[0] && Trimmed(text)
  {
    hide IsSpace;
    var text := a + b + c + d;
    assert text[0] == a[0] && text[|text| - 1] == d[|d| - 1];
  }

  lemma RuleIndented(x: string, a: string, b: string, c: string, d: string)
    ensures x + a + b + c + d == x + (a + b + c + d)
  {
  }

  /** Six lines: this cube's begin marker, four inert lines, this cube's end marker. */
  ghost predicate CubeBlock(block: seq<string>, cube: string) {
    && |block| == 6
    && TrimSpace(block[0]) == MARKER_BEGIN + cube && !ServerOpen()(block[0])
    && TrimSpace(block[5]) == MARKER_END + cube && !ServerOpen()(block[5])
    && forall i :: 1 <= i < 5 ==> Inert(block[i])
  }

  lemma RenderedIsCubeBlock(cube: string, domain: string)
    requires ValidCubeName(cube)
    ensures CubeBlock(RenderBlock(cube, domain), cube)
  {
    hide Inert, TrimSpace, ServerOpen, QuoteMeta, ValidCubeName;
    MarkerLine(MARKER_BEGIN, cube);
    FixedLines();
    RuleLine(domain);
    MarkerLine(MARKER_END, cube);
    var block := RenderBlock(cube, domain);
    assert Inert(block[1]) && Inert(block[2]) && Inert(block[3]) && Inert(block[4]);
  }

  lemma FixedLines()
    ensures Inert(BLOCK_INDENT + "rewrite stop {") && Inert(RULE_INDENT + "answer auto") && Inert(BLOCK_INDENT + "}")
  {
    hide Inert;
    InertLine(BLOCK_INDENT, "rewrite stop {");
    InertLine(RULE_INDENT, "answer auto");
    InertLine(BLOCK_INDENT, "}");
  }

  /** What a cube's block holds, cube by cube. */
  lemma CubeBlockMarkers(block: seq<string>, cube: string, other: string)
    requires CubeBlock(block, cube)
    ensures Only(block, BeginOf(cube), 0) && Only(block, EndOf(cube), 5)
    ensures other != cube ==> NoMarkers(block, other)
    ensures Nowhere(block, ServerOpen())
  {
    MarkersDiffer(cube, cube);
    MarkersDiffer(cube, other);
    MarkersDiffer(other, cube);
  }

  lemma NoNewlineAcross(a: string, b: string)
    requires '\n' !in a && '\n' !in b
    ensures '\n' !in a + b
  {
  }

  lemma RuleLineHasNoNewline(domain: string)
    requires '\n' !in domain
    ensures '\n' !in RULE_INDENT + "name regex (.*)\\." + QuoteMeta(domain) + "\\.$ " + SERVICE_FQDN
  {
    QuoteMetaHasNoNewline(domain);
    NoNewlineAcross(RULE_INDENT, "name regex (.*)\\.");
    NoNewlineAcross(RULE_INDENT + "name regex (.*)\\.", QuoteMeta(domain));
    NoNewlineAcross(RULE_INDENT + "name regex (.*)\\." + QuoteMeta(domain), "\\.$ ");
    NoNewlineAcross(RULE_INDENT + "name regex (.*)\\." + QuoteMeta(domain) + "\\.$ ", SERVICE_FQDN);
  }

  ghost predicate OneLineEach(lines: seq<string>) {
    forall line <- lines :: '\n' !in line
  }

  lemma RenderedHasNoNewline(cube: string, domain: string)
    requires ValidCubeName(cube) && '\n' !in domain
    ensures OneLineEach(RenderBlock(cube, domain))
  {
    NoNewlineAcross(BLOCK_INDENT, MARKER_BEGIN);
    NoNewlineAcross(BLOCK_INDENT + MARKER_BEGIN, cube);
    NoNewlineAcross(BLOCK_INDENT, "rewrite stop {");
    RuleLineHasNoNewline(domain);
    NoNewlineAcross(RULE_INDENT, "answer auto");
    NoNewlineAcross(BLOCK_INDENT, "}");
    NoNewlineAcross(BLOCK_INDENT, MARKER_END);
    NoNewlineAcross(BLOCK_INDENT + MARKER_END, cube);
  }

  // ---------- patching lines ----------

  lemma PatchIndexes(lines: seq<string>, lo: int, hi: int, block: seq<string>)
    requires 0 <= lo <= hi <= |lines|
    ensures var out := Patch(lines, lo, hi, block);
            && |out| == |lines| - (hi - lo) + |block|
            && (forall i :: 0 <= i < lo ==> out[i] == lines[i])
            && (forall i :: lo <= i < lo + |block| ==> out[i] == block[i - lo])
            && (forall i :: lo + |block| <= i < |out| ==> out[i] == lines[i - |block| + (hi - lo)])
  {
  }

  /** A line found once outside the patched range is still found once, shifted. */
  lemma PatchKeepsOnly(lines: seq<string>, lo: int, hi: int, block: seq<string>, p: string -> bool, i: int)
    requires 0 <= lo <= hi <= |lines|
    requires Only(lines, p, i) && Nowhere(block, p)
    ensures i < lo ==> Only(Patch(lines, lo, hi, block), p, i)
    ensures hi <= i ==> Only(Patch(lines, lo, hi, block), p, i + |block| - (hi - lo))
    ensures lo <= i < hi ==> Nowhere(Patch(lines, lo, hi, block), p)
  {
    PatchIndexes(lines, lo, hi, block);
  }

  /** A line the block brings, and that was nowhere outside the patched range, is found once. */
  lemma PatchBringsOnly(lines: seq<string>, lo: int, hi: int, block: seq<string>, p: string -> bool, k: int)
    requires 0 <= lo <= hi <= |lines|
    requires Only(block, p, k)
    requires forall i :: 0 <= i < |lines| && p(lines[i]) ==> lo <= i < hi
    ensures Only(Patch(lines, lo, hi, block), p, lo + k)
  {
    PatchIndexes(lines, lo, hi, block);
  }

  // ---------- laws over lines ----------

  /** Every line outside this cube's marker region, in order. */
  ghost function Outside(lines: seq<string>, cube: string): seq<string> {
    if exists r :: IsRegion(lines, cube, r) then
      var r :| IsRegion(lines, cube, r);
      lines[..r.0] + lines[r.1 + 1..]
    else lines
  }

  ghost predicate IsRegion(lines: seq<string>, cube: string, r: (int, int)) {
    Region(lines, cube, r.0, r.1)
  }

  lemma OutsideRegion(lines: seq<string>, cube: string, b: int, e: int)
    requires Region(lines, cube, b, e)
    ensures Outside(lines, cube) == lines[..b] + lines[e + 1..]
  {
    hide Region, IsRegion, Only, BeginOf, EndOf;
    OneRegion(lines, cube, b, e);
    assert exists r :: IsRegion(lines, cube, r);
  }

  lemma OneRegion(lines: seq<string>, cube: string, b: int, e: int)
    requires Region(lines, cube, b, e)
    ensures IsRegion(lines, cube, (b, e))
    ensures forall r :: IsRegion(lines, cube, r) ==> r == (b, e)
    ensures 0 <= b < e < |lines|
  {
  }

  lemma PatchLeavesBlock(lines: seq<string>, cube: string, lo: int, hi: int, block: seq<string>, later: seq<string>)
    requires CubeBlock(block, cube)
    requires 0 <= lo <= hi <= |lines| && OpenAbove(lines, lo)
    requires forall i :: 0 <= i < |lines| && (BeginOf(cube)(lines[i]) || EndOf(cube)(lines[i])) ==> lo <= i < hi
    ensures var out := Patch(lines, lo, hi, block);
            && Replaces(out, cube, lo, lo + 5)
            && out[lo..lo + 6] == block
            && Outside(out, cube) == lines[..lo] + lines[hi..]
            && Patch(out, lo, lo + 6, later) == Patch(lines, lo, hi, later)
  {
    var out := Patch(lines, lo, hi, block);
    CubeBlockMarkers(block, cube, cube);
    PatchBringsOnly(lines, lo, hi, block, BeginOf(cube), 0);
    PatchBringsOnly(lines, lo, hi, block, EndOf(cube), 5);
    assert out[..lo] == lines[..lo];
    assert out[lo + 6..] == lines[hi..];
    OutsideRegion(out, cube, lo, lo + 5);
  }

  /** The block sits at line b as this cube's one region, below an opening line. */
  ghost predicate BlockAtLine(lines: seq<string>, cube: string, b: int, block: seq<string>) {
    && 0 <= b && b + |block| <= |lines|
    && Replaces(lines, cube, b, b + |block| - 1)
    && lines[b..b + |block|] == block
  }

  /** A splice leaves the cube's block, exactly as given, as its one region below an opening
      line, leaves every line outside the region as it was, and leaves a text on which a later
      splice does what it would have done to the original. */
  lemma SpliceLeavesBlock(lines: seq<string>, cube: string, block: seq<string>, out: seq<string>, later: seq<string>)
    returns (b: int)
    requires CubeBlock(block, cube)
    requires Splices(lines, cube, block, out)
    ensures BlockAtLine(out, cube, b, block)
    ensures Outside(out, cube) == Outside(lines, cube)
    ensures Splices(lines, cube, later, Patch(out, b, b + 6, later))
  {
    if o :| Inserts(lines, cube, o) && out == Patch(lines, o + 1, o + 1, block) {
      b := InsertLeavesBlock(lines, cube, o, block, later);
    } else {
      var b', e :| Replaces(lines, cube, b', e) && out == Patch(lines, b', e + 1, block);
      b := b';
      ReplaceLeavesBlock(lines, cube, b, e, block, later);
    }
  }

  lemma ReplaceLeavesBlock(lines: seq<string>, cube: string, b: int, e: int, block: seq<string>, later: seq<string>)
    requires CubeBlock(block, cube)
    requires Replaces(lines, cube, b, e)
    ensures var out := Patch(lines, b, e + 1, block);
            && BlockAtLine(out, cube, b, block)
            && Outside(out, cube) == Outside(lines, cube)
            && Splices(lines, cube, later, Patch(out, b, b + 6, later))
  {
    PatchLeavesBlock(lines, cube, b, e + 1, block, later);
    OutsideRegion(lines, cube, b, e);
  }

  lemma InsertLeavesBlock(lines: seq<string>, cube: string, o: int, block: seq<string>, later: seq<string>)
    returns (b: int)
    requires CubeBlock(block, cube)
    requires Inserts(lines, cube, o)
    ensures var out := Patch(lines, o + 1, o + 1, block);
            && BlockAtLine(out, cube, b, block)
            && Outside(out, cube) == Outside(lines, cube)
            && Splices(lines, cube, later, Patch(out, b, b + 6, later))
  {
    b := o + 1;
    assert |block| == 6;
    hide CubeBlock, Outside, Only, Nowhere, OpenAbove, Region, Inserts, BeginOf, EndOf, TrimsTo, BlockAtLine, Splices,
         Replaces;
    NothingOutside(lines, cube, o);
    PatchLeavesBlock(lines, cube, b, b, block, later);
    InsertEffect(lines, cube, o, block, later);
  }

  lemma InsertEffect(lines: seq<string>, cube: string, o: int, block: seq<string>, later: seq<string>)
    requires 0 <= o < |lines| && Outside(lines, cube) == lines && |block| == 6 && Inserts(lines, cube, o)
    requires var b := o + 1;
             var out := Patch(lines, b, b, block);
             && Replaces(out, cube, b, b + 5) && out[b..b + 6] == block
             && Outside(out, cube) == lines[..b] + lines[b..]
             && Patch(out, b, b + 6, later) == Patch(lines, b, b, later)
    ensures var b := o + 1;
            var out := Patch(lines, b, b, block);
            && BlockAtLine(out, cube, b, block)
            && Outside(out, cube) == lines
            && Splices(lines, cube, later, Patch(out, b, b + 6, later))
  {
    hide Outside, Inserts, Replaces;
    var b := o + 1;
    assert lines[..b] + lines[b..] == lines;
  }

  /** A text the splice inserts into has no region yet. */
  lemma NothingOutside(lines: seq<string>, cube: string, o: int)
    requires Inserts(lines, cube, o)
    ensures 0 <= o < |lines| && OpenAbove(lines, o + 1) && Outside(lines, cube) == lines
    ensures forall i :: 0 <= i < |lines| ==> !BeginOf(cube)(lines[i]) && !EndOf(cube)(lines[i])
  {
    hide BeginOf, EndOf, ServerOpen;
    assert lines[..o + 1][o] == lines[o];
  }

  // ---------- laws over texts ----------

  lemma SplicedLines(text: string, cube: string, domain: string)
    requires ValidCubeName(cube) && ValidDomain(domain)
    requires Splice(text, cube, domain).Spliced?
    ensures var lines := Split(text, '\n');
            && Spliceable(lines, cube)
            && Split(Splice(text, cube, domain).text, '\n') == SpliceLines(lines, cube, RenderBlock(cube, domain))
  {
    var lines := Split(text, '\n');
    var block := RenderBlock(cube, domain);
    var out := SpliceLines(lines, cube, block);
    RenderedHasNoNewline(cube, domain);
    SplitFields(text, '\n');
    RenderedIsCubeBlock(cube, domain);
    SplicedOneLineEach(lines, cube, block, out);
    SplitJoin(out, '\n');
  }

  lemma SplicedOneLineEach(lines: seq<string>, cube: string, block: seq<string>, out: seq<string>)
    requires OneLineEach(lines) && OneLineEach(block)
    requires Splices(lines, cube, block, out) && |block| == 6
    ensures OneLineEach(out) && |out| > 0
  {
    if o :| Inserts(lines, cube, o) && out == Patch(lines, o + 1, o + 1, block) {
      PatchIndexes(lines, o + 1, o + 1, block);
    } else {
      var b, e :| Replaces(lines, cube, b, e) && out == Patch(lines, b, e + 1, block);
      PatchIndexes(lines, b, e + 1, block);
    }
  }

  /** Absorption: the last splice wins, as if the earlier one had never happened. */
  lemma SpliceAbsorbs(text: string, cube: string, earlier: string, later: string)
    requires ValidCubeName(cube) && ValidDomain(earlier) && ValidDomain(later)
    requires Splice(text, cube, earlier).Spliced?
    ensures Splice(Splice(text, cube, earlier).text, cube, later) == Splice(text, cube, later)
  {
    SplicedLines(text, cube, earlier);
    var lines := Split(text, '\n');
    var out := SpliceLines(lines, cube, RenderBlock(cube, earlier));
    RenderedIsCubeBlock(cube, earlier);
    var b := SpliceLeavesBlock(lines, cube, RenderBlock(cube, earlier), out, RenderBlock(cube, later));
    AbsorbLines(lines, cube, out, b, RenderBlock(cube, later));
  }

  lemma AbsorbLines(lines: seq<string>, cube: string, out: seq<string>, b: int, block: seq<string>)
    requires Spliceable(lines, cube)
    requires b + 6 <= |out| && Replaces(out, cube, b, b + 5)
    requires Splices(lines, cube, block, Patch(out, b, b + 6, block))
    ensures Spliceable(out, cube)
    ensures SpliceLines(out, cube, block) == SpliceLines(lines, cube, block)
  {
    SpliceIsUnique(lines, cube, block);
    SpliceIsUnique(out, cube, block);
    assert Splices(out, cube, block, Patch(out, b, b + 6, block));
  }

  /** Whether a Corefile can be spliced does not depend on the domain, and two domains differ only
      in the block they leave. */
  lemma SuccessIgnoresDomain(text: string, cube: string, domain: string, other: string)
    requires ValidCubeName(cube) && ValidDomain(domain) && ValidDomain(other)
    ensures Splice(text, cube, domain).Spliced? <==> Splice(text, cube, other).Spliced?
    ensures Splice(text, cube, domain).Spliced? ==>
              Outside(Split(Splice(text, cube, domain).text, '\n'), cube) ==
              Outside(Split(Splice(text, cube, other).text, '\n'), cube)
  {
    if Splice(text, cube, domain).Spliced? {
      SplicePreserves(text, cube, domain);
      SplicePreserves(text, cube, other);
    }
  }

  /** Idempotence, byte for byte. */
  lemma SpliceIsIdempotent(text: string, cube: string, domain: string)
    requires ValidCubeName(cube) && ValidDomain(domain)
    requires Splice(text, cube, domain).Spliced?
    ensures Splice(Splice(text, cube, domain).text, cube, domain) == Splice(text, cube, domain)
  {
    SpliceAbsorbs(text, cube, domain, domain);
  }

  /** Everything outside this cube's region survives, in order, byte for byte, and the region
      is this cube's block as rendered, once, below a server-block opening line. */
  lemma SplicePreserves(text: string, cube: string, domain: string)
    requires ValidCubeName(cube) && ValidDomain(domain)
    requires Splice(text, cube, domain).Spliced?
    ensures var before, after := Split(text, '\n'), Split(Splice(text, cube, domain).text, '\n');
            && Outside(after, cube) == Outside(before, cube)
            && exists b :: BlockAtLine(after, cube, b, RenderBlock(cube, domain))
  {
    SplicedLines(text, cube, domain);
    RenderedIsCubeBlock(cube, domain);
    var lines := Split(text, '\n');
    var block := RenderBlock(cube, domain);
    var b := SpliceLeavesBlock(lines, cube, block, SpliceLines(lines, cube, block), block);
  }

  // ---------- foreign cubes ----------

  /** At line b of `lines` starts the cube's one region, and it is `body`. */
  ghost predicate RegionAt(lines: seq<string>, cube: string, b: int, body: seq<string>) {
    && Region(lines, cube, b, b + |body| - 1)
    && lines[b..b + |body|] == body
  }

  /** Another cube's region, lines b..e of `lines`, is in `out` as it was and still intact. */
  ghost predicate RegionKept(lines: seq<string>, out: seq<string>, other: string, b: int, e: int)
    requires Region(lines, other, b, e)
  {
    HasRegion(out, other, lines[b..e + 1])
  }

  ghost predicate HasRegion(lines: seq<string>, cube: string, body: seq<string>) {
    exists b :: RegionAt(lines, cube, b, body)
  }

  /** The range lo..hi is clear of lines b..e, or lies inside them and is overwritten with itself. */
  ghost predicate Spares(lines: seq<string>, lo: int, hi: int, block: seq<string>, b: int, e: int)
    requires 0 <= lo <= hi <= |lines|
  {
    hi <= b || e < lo || (b < lo && hi <= e && lines[lo..hi] == block)
  }

  lemma PatchSparesRegion(lines: seq<string>, lo: int, hi: int, block: seq<string>, other: string, b: int, e: int)
    requires 0 <= lo <= hi <= |lines|
    requires NoMarkers(block, other)
    requires Region(lines, other, b, e)
    ensures RegionKept(lines, Patch(lines, lo, hi, block), other, b, e) <==> Spares(lines, lo, hi, block, b, e)
  {
    hide BeginOf, EndOf, Patch, Only, Nowhere, NoMarkers, HasRegion, Region, Spares;
    PatchedMarkers(lines, lo, hi, block, other, b, e);
    SparesCases(lines, lo, hi, block, b, e);
    if hi <= b {
      PatchMovesRegion(lines, lo, hi, block, other, b, e, |block| - (hi - lo));
    } else if e < lo {
      PatchMovesRegion(lines, lo, hi, block, other, b, e, 0);
    } else if lo <= b || e < hi {
      PatchCutsRegion(Patch(lines, lo, hi, block), other, lines[b..e + 1]);
    } else {
      PatchInsideRegion(lines, lo, hi, block, other, b, e);
    }
  }

  lemma SparesCases(lines: seq<string>, lo: int, hi: int, block: seq<string>, b: int, e: int)
    requires 0 <= lo <= hi <= |lines| && b < e
    ensures hi <= b || e < lo ==> Spares(lines, lo, hi, block, b, e)
    ensures b < hi && lo <= e && (lo <= b || e < hi) ==> !Spares(lines, lo, hi, block, b, e)
    ensures b < lo && hi <= e ==> (Spares(lines, lo, hi, block, b, e) <==> lines[lo..hi] == block)
  {
  }

  /** What a patch does to a foreign pair of markers: it moves each, or overwrites it. */
  lemma PatchedMarkers(lines: seq<string>, lo: int, hi: int, block: seq<string>, other: string, b: int, e: int)
    requires 0 <= lo <= hi <= |lines|
    requires NoMarkers(block, other)
    requires Region(lines, other, b, e)
    ensures var out, shift := Patch(lines, lo, hi, block), |block| - (hi - lo);
            && 0 <= b < e < |lines|
            && (hi <= b ==> Region(out, other, b + shift, e + shift))
            && (e < lo ==> Region(out, other, b, e))
            && (b < lo && hi <= e ==> Only(out, BeginOf(other), b) && Only(out, EndOf(other), e + shift))
            && (lo <= b < hi ==> Nowhere(out, BeginOf(other)))
            && (lo <= e < hi ==> Nowhere(out, EndOf(other)))
  {
    PatchKeepsOnly(lines, lo, hi, block, BeginOf(other), b);
    PatchKeepsOnly(lines, lo, hi, block, EndOf(other), e);
    hide BeginOf, EndOf, Patch, Only, Nowhere;
  }

  lemma PatchMovesRegion(lines: seq<string>, lo: int, hi: int, block: seq<string>, other: string,
      b: int, e: int, shift: int)
    requires 0 <= lo <= hi <= |lines| && Region(lines, other, b, e)
    requires (hi <= b && shift == |block| - (hi - lo)) || (e < lo && shift == 0)
    requires Region(Patch(lines, lo, hi, block), other, b + shift, e + shift)
    ensures HasRegion(Patch(lines, lo, hi, block), other, lines[b..e + 1])
  {
    hide BeginOf, EndOf, Patch;
    var out, body := Patch(lines, lo, hi, block), lines[b..e + 1];
    assert 0 <= b < e < |lines| && 0 <= b + shift && e + shift < |out|;
    hide Region;
    PatchMovesSlice(lines, lo, hi, block, b, e, shift);
    assert RegionAt(out, other, b + shift, body);
  }

  lemma PatchMovesSlice(lines: seq<string>, lo: int, hi: int, block: seq<string>, b: int, e: int, shift: int)
    requires 0 <= lo <= hi <= |lines| && 0 <= b < e < |lines|
    requires (hi <= b && shift == |block| - (hi - lo)) || (e < lo && shift == 0)
    requires 0 <= b + shift && e + shift < |Patch(lines, lo, hi, block)|
    ensures Patch(lines, lo, hi, block)[b + shift..e + shift + 1] == lines[b..e + 1]
  {
    if hi <= b {
      assert Patch(lines, lo, hi, block)[lo + |block|..] == lines[hi..];
      SliceOfDrop(lines, hi, b, e + 1);
      SliceOfDrop(Patch(lines, lo, hi, block), lo + |block|, b + shift, e + shift + 1);
    } else {
      assert Patch(lines, lo, hi, block)[..lo] == lines[..lo];
      SliceOfTake(lines, lo, b, e + 1);
      SliceOfTake(Patch(lines, lo, hi, block), lo, b, e + 1);
    }
  }

  lemma SliceOfDrop(s: seq<string>, k: int, i: int, j: int)
    requires 0 <= k <= i <= j <= |s|
    ensures s[i..j] == s[k..][i - k..j - k]
  {
  }

  lemma SliceOfTake(s: seq<string>, k: int, i: int, j: int)
    requires 0 <= i <= j <= k <= |s|
    ensures s[i..j] == s[..k][i..j]
  {
  }

  lemma PatchCutsRegion(out: seq<string>, other: string, body: seq<string>)
    requires Nowhere(out, BeginOf(other)) || Nowhere(out, EndOf(other))
    ensures !HasRegion(out, other, body)
  {
    hide BeginOf, EndOf;
  }

  lemma PatchInsideRegion(lines: seq<string>, lo: int, hi: int, block: seq<string>, other: string, b: int, e: int)
    requires 0 <= b < lo <= hi <= e < |lines|
    requires Region(lines, other, b, e)
    requires Only(Patch(lines, lo, hi, block), BeginOf(other), b)
    requires Only(Patch(lines, lo, hi, block), EndOf(other), e + |block| - (hi - lo))
    ensures RegionKept(lines, Patch(lines, lo, hi, block), other, b, e) <==> lines[lo..hi] == block
  {
    hide BeginOf, EndOf;
    var out := Patch(lines, lo, hi, block);
    var body := lines[b..e + 1];
    if lines[lo..hi] == block {
      hide Only;
      assert out == lines;
      assert RegionAt(out, other, b, body);
    }
    if b' :| RegionAt(out, other, b', body) {
      OnlyOnce(out, BeginOf(other), b', b);
      OnlyOnce(out, EndOf(other), b' + |body| - 1, e + |block| - (hi - lo));
      hide Only;
      SamePatch(lines, lo, hi, block, b, e);
    }
  }

  lemma OnlyOnce(lines: seq<string>, p: string -> bool, i: int, j: int)
    requires Only(lines, p, i) && Only(lines, p, j)
    ensures i == j
  {
  }

  lemma SamePatch(lines: seq<string>, lo: int, hi: int, block: seq<string>, b: int, e: int)
    requires 0 <= b < lo <= hi <= e < |lines| && |block| == hi - lo
    requires Patch(lines, lo, hi, block)[b..e + 1] == lines[b..e + 1]
    ensures lines[lo..hi] == block
  {
    var out := Patch(lines, lo, hi, block);
    forall k | 0 <= k < |block| ensures block[k] == lines[lo + k] {
      assert out[b..e + 1][lo - b + k] == lines[b..e + 1][lo - b + k];
      assert out[lo + k] == block[k];
    }
  }

  /** When does a splice preserve a foreign cube's block? Exactly when the range it writes does
      not touch that block: an inserting splice keeps it unless the opening line is inside it,
      a replacing one unless the two regions overlap (or mine, nested in theirs, is rewritten
      to what it already was). */
  lemma ForeignBlockKept(text: string, cube: string, domain: string, other: string, b: int, e: int)
    requires ValidCubeName(cube) && ValidDomain(domain)
    requires Splice(text, cube, domain).Spliced?
    requires other != cube && Region(Split(text, '\n'), other, b, e)
    ensures var lines, block := Split(text, '\n'), RenderBlock(cube, domain);
            RegionKept(lines, Split(Splice(text, cube, domain).text, '\n'), other, b, e) <==>
            && (forall o :: Inserts(lines, cube, o) ==> o < b || e <= o)
            && (forall b', e' :: Replaces(lines, cube, b', e') ==> Spares(lines, b', e' + 1, block, b, e))
  {
    SplicedLines(text, cube, domain);
    RenderedIsCubeBlock(cube, domain);
    var block := RenderBlock(cube, domain);
    ForeignRegionKept(Split(text, '\n'), cube, block, other, b, e);
  }

  lemma ForeignRegionKept(lines: seq<string>, cube: string, block: seq<string>, other: string, b: int, e: int)
    requires CubeBlock(block, cube) && Spliceable(lines, cube)
    requires other != cube && Region(lines, other, b, e)
    ensures RegionKept(lines, SpliceLines(lines, cube, block), other, b, e) <==>
            Clear(lines, cube, block, b, e)
  {
    if o :| Inserts(lines, cube, o) {
      KeptByInsert(lines, cube, block, other, b, e, o);
    } else {
      var b', e' :| Replaces(lines, cube, b', e');
      KeptByReplace(lines, cube, block, other, b, e, b', e');
    }
  }

  lemma KeptByInsert(lines: seq<string>, cube: string, block: seq<string>, other: string, b: int, e: int, o: int)
    requires CubeBlock(block, cube) && Inserts(lines, cube, o)
    requires other != cube && Region(lines, other, b, e)
    ensures Spliceable(lines, cube)
    ensures RegionKept(lines, SpliceLines(lines, cube, block), other, b, e) <==> Clear(lines, cube, block, b, e)
  {
    hide CubeBlock, Region, SpliceLines, RegionKept, Inserts, Replaces, Patch, Clear, Only, Nowhere, NoMarkers, Spares;
    WithinLines(lines, cube, o, 0, 0);
    CubeBlockMarkers(block, cube, other);
    InsertResult(lines, cube, block, o);
    ClearOfInsert(lines, cube, block, b, e, o);
    PatchSparesRegion(lines, o + 1, o + 1, block, other, b, e);
  }

  lemma WithinLines(lines: seq<string>, cube: string, o: int, b: int, e: int)
    ensures Inserts(lines, cube, o) ==> 0 <= o < |lines|
    ensures Replaces(lines, cube, b, e) ==> 0 <= b < e < |lines|
  {
  }

  lemma KeptByReplace(lines: seq<string>, cube: string, block: seq<string>, other: string, b: int, e: int, b1: int,
      e1: int)
    requires CubeBlock(block, cube) && Replaces(lines, cube, b1, e1)
    requires other != cube && Region(lines, other, b, e)
    ensures Spliceable(lines, cube)
    ensures RegionKept(lines, SpliceLines(lines, cube, block), other, b, e) <==> Clear(lines, cube, block, b, e)
  {
    hide CubeBlock, Region, SpliceLines, RegionKept, Inserts, Replaces, Patch, Clear, Only, Nowhere, NoMarkers, Spares;
    WithinLines(lines, cube, 0, b1, e1);
    CubeBlockMarkers(block, cube, other);
    ReplaceResult(lines, cube, block, b1, e1);
    ClearOfReplace(lines, cube, block, b, e, b1, e1);
    PatchSparesRegion(lines, b1, e1 + 1, block, other, b, e);
  }

  /** Whichever range the splice writes, it stays clear of lines b..e. */
  ghost predicate Clear(lines: seq<string>, cube: string, block: seq<string>, b: int, e: int) {
    && (forall o :: Inserts(lines, cube, o) ==> o < b || e <= o)
    && (forall b', e' :: Replaces(lines, cube, b', e') ==> Spares(lines, b', e' + 1, block, b, e))
  }

  lemma ClearOfInsert(lines: seq<string>, cube: string, block: seq<string>, b: int, e: int, o: int)
    requires Inserts(lines, cube, o)
    requires forall o' :: Inserts(lines, cube, o') ==> o' == o
    requires forall b', e' :: !Replaces(lines, cube, b', e')
    requires 0 <= o < |lines| && block != []
    ensures Clear(lines, cube, block, b, e) <==> Spares(lines, o + 1, o + 1, block, b, e)
  {
    hide Inserts, Replaces;
  }

  lemma ClearOfReplace(lines: seq<string>, cube: string, block: seq<string>, b: int, e: int, b1: int, e1: int)
    requires Replaces(lines, cube, b1, e1)
    requires forall o :: !Inserts(lines, cube, o)
    requires forall b', e' :: Replaces(lines, cube, b', e') ==> b' == b1 && e' == e1
    ensures Clear(lines, cube, block, b, e) <==> Spares(lines, b1, e1 + 1, block, b, e)
  {
    hide Inserts, Replaces, Spares;
  }

  lemma InsertResult(lines: seq<string>, cube: string, block: seq<string>, o: int)
    requires Inserts(lines, cube, o)
    ensures Spliceable(lines, cube)
    ensures SpliceLines(lines, cube, block) == Patch(lines, o + 1, o + 1, block)
    ensures forall o' :: Inserts(lines, cube, o') ==> o' == o
    ensures forall b, e :: !Replaces(lines, cube, b, e)
  {
    SpliceIsUnique(lines, cube, block);
    assert Splices(lines, cube, block, Patch(lines, o + 1, o + 1, block));
  }

  lemma ReplaceResult(lines: seq<string>, cube: string, block: seq<string>, b: int, e: int)
    requires Replaces(lines, cube, b, e)
    ensures Spliceable(lines, cube)
    ensures SpliceLines(lines, cube, block) == Patch(lines, b, e + 1, block)
    ensures forall o :: !Inserts(lines, cube, o)
    ensures forall b', e' :: Replaces(lines, cube, b', e') ==> b' == b && e' == e
  {
    SpliceIsUnique(lines, cube, block);
    assert Splices(lines, cube, block, Patch(lines, b, e + 1, block));
  }

  // ---------- a nested block ----------

  /** A server block in which cube b's markers have come to lie between cube a's. */
  function NestedLines(a: string, b: string): seq<string> {
    [ ".:53 {",
      BLOCK_INDENT + MARKER_BEGIN + a,
      BLOCK_INDENT + MARKER_BEGIN + b,
      BLOCK_INDENT + MARKER_END + b,
      BLOCK_INDENT + MARKER_END + a,
      "}" ]
  }

  /** What its lines are to the code. */
  ghost predicate Nested(lines: seq<string>, a: string, b: string) {
    && |lines| == 6
    && ServerOpen()(lines[0]) && Unmarked(lines[0]) && Unmarked(lines[5])
    && TrimSpace(lines[1]) == MARKER_BEGIN + a && TrimSpace(lines[4]) == MARKER_END + a
    && TrimSpace(lines[2]) == MARKER_BEGIN + b && TrimSpace(lines[3]) == MARKER_END + b
  }

  ghost predicate Unmarked(line: string) {
    forall cube: string :: !BeginOf(cube)(line) && !EndOf(cube)(line)
  }

  lemma UnmarkedLine(line: string)
    requires line != [] && line[0] != '#' && Trimmed(line)
    ensures Unmarked(line) && TrimSpace(line) == line
  {
    TrimIndented("", line);
    assert "" + line == line;
    forall cube: string ensures !BeginOf(cube)(line) && !EndOf(cube)(line) {
      assert (MARKER_BEGIN + cube)[0] == '#' && (MARKER_END + cube)[0] == '#';
    }
  }

  lemma OpeningLine()
    ensures IsServerOpen(".:53 {")
  {
    var line := ".:53 {";
    UnmarkedLine(line);
    assert line[..4] == SERVER_TOKEN && line[5..] == "{" && line[4..5] == " ";
    assert TrimLeft(" ") == TrimLeft("") by { assert " "[1..] == ""; }
    assert TrimSpace(" ") == "";
  }

  lemma NestedIsNested(a: string, b: string)
    requires ValidCubeName(a) && ValidCubeName(b)
    ensures Nested(NestedLines(a, b), a, b)
  {
    hide ServerOpen, BeginOf, EndOf, TrimSpace, Unmarked;
    UnmarkedLine(".:53 {");
    UnmarkedLine("}");
    OpensServer();
    MarkerLine(MARKER_BEGIN, a);
    MarkerLine(MARKER_BEGIN, b);
    MarkerLine(MARKER_END, a);
    MarkerLine(MARKER_END, b);
  }

  lemma OpensServer()
    ensures ServerOpen()(".:53 {")
  {
    hide IsServerOpen;
    OpeningLine();
  }

  lemma OnlyOneTrimsTo(lines: seq<string>, want: string, i: nat)
    requires i < |lines|
    requires forall j :: 0 <= j < |lines| ==> (TrimSpace(lines[j]) == want <==> j == i)
    ensures Only(lines, TrimsTo(want), i)
  {
    hide TrimSpace;
  }

  lemma UnmarkedTrims(line: string, cube: string)
    requires Unmarked(line)
    ensures TrimSpace(line) != MARKER_BEGIN + cube && TrimSpace(line) != MARKER_END + cube
  {
    hide TrimSpace;
    assert !BeginOf(cube)(line) && !EndOf(cube)(line);
  }

  /** Cube c's markers are where they are, and nowhere else. */
  lemma NestedMarkers(lines: seq<string>, a: string, b: string)
    requires Nested(lines, a, b) && a != b
    ensures Only(lines, BeginOf(a), 1) && Only(lines, EndOf(a), 4)
    ensures Only(lines, BeginOf(b), 2) && Only(lines, EndOf(b), 3)
  {
    hide TrimSpace, Unmarked, Only, ServerOpen;
    MarkersDiffer(a, a);
    MarkersDiffer(a, b);
    MarkersDiffer(b, a);
    MarkersDiffer(b, b);
    UnmarkedTrims(lines[0], a);
    UnmarkedTrims(lines[5], a);
    UnmarkedTrims(lines[0], b);
    UnmarkedTrims(lines[5], b);
    var ba, ea, bb, eb := MARKER_BEGIN + a, MARKER_END + a, MARKER_BEGIN + b, MARKER_END + b;
    OnlyOneTrimsTo(lines, ba, 1);
    OnlyOneTrimsTo(lines, ea, 4);
    OnlyOneTrimsTo(lines, bb, 2);
    OnlyOneTrimsTo(lines, eb, 3);
  }

  lemma NestedRegions(lines: seq<string>, a: string, b: string)
    requires Nested(lines, a, b) && a != b
    ensures Region(lines, b, 2, 3) && Replaces(lines, a, 1, 4)
  {
    NestedMarkers(lines, a, b);
    hide TrimSpace, Unmarked, Only, BeginOf, EndOf;
    assert lines[..1][0] == lines[0];
  }

  /** The patch takes the range the other cube's markers are in. */
  lemma NestedPatched(lines: seq<string>, a: string, b: string, block: seq<string>)
    requires Nested(lines, a, b) && a != b && CubeBlock(block, a)
    ensures NoMarkers(Patch(lines, 1, 5, block), b)
  {
    hide TrimSpace, CubeBlock, Unmarked, Only, Patch, BeginOf, EndOf;
    CubeBlockMarkers(block, a, b);
    NestedMarkers(lines, a, b);
    PatchKeepsOnly(lines, 1, 5, block, BeginOf(b), 2);
    PatchKeepsOnly(lines, 1, 5, block, EndOf(b), 3);
  }

  lemma NestedHasNoNewline(a: string, b: string)
    requires ValidCubeName(a) && ValidCubeName(b)
    ensures OneLineEach(NestedLines(a, b))
  {
    NoNewlineAcross(BLOCK_INDENT + MARKER_BEGIN, a);
    NoNewlineAcross(BLOCK_INDENT + MARKER_BEGIN, b);
    NoNewlineAcross(BLOCK_INDENT + MARKER_END, a);
    NoNewlineAcross(BLOCK_INDENT + MARKER_END, b);
  }

  /** Splicing cube a into that Corefile succeeds, and leaves nothing of cube b's intact region. */
  lemma NestedBlockIsLost(a: string, b: string, domain: string)
    requires ValidCubeName(a) && ValidCubeName(b) && a != b && ValidDomain(domain)
    ensures var text := Join(NestedLines(a, b), '\n');
            && Region(Split(text, '\n'), b, 2, 3)
            && Splice(text, a, domain).Spliced?
            && NoMarkers(Split(Splice(text, a, domain).text, '\n'), b)
  {
    var lines, block := NestedLines(a, b), RenderBlock(a, domain);
    var text := Join(lines, '\n');
    hide Split, Join, NestedLines, Nested, Region, Replaces, Patch, NoMarkers, CubeBlock, SpliceLines, RenderBlock;
    NestedIsNested(a, b);
    NestedHasNoNewline(a, b);
    NestedNonempty(a, b);
    SplitJoin(lines, '\n');
    NestedRegions(lines, a, b);
    RenderedIsCubeBlock(a, domain);
    NestedPatched(lines, a, b, block);
    ReplaceResult(lines, a, block, 1, 4);
    SplicedLines(text, a, domain);
  }

  lemma NestedNonempty(a: string, b: string)
    ensures |NestedLines(a, b)| == 6
  {
  }
}
