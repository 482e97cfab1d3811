/** The Corefile splice: one cube's marker-delimited rewrite block, present
    exactly once inside the default server block of CoreDNS's Corefile.

    The first half states what a splice is, by naming the region it may touch;
    the second half is the code, line loops included, proved to compute it. */
module Corefile {
  import opened Text

  const MARKER_BEGIN := "# cube-idp:begin "
  const MARKER_END := "# cube-idp:end "
  const BLOCK_INDENT := "    "
  const RULE_INDENT := "        "
  const SERVER_TOKEN := ".:53"
  const SERVICE_FQDN := "gateway.gateway-system.svc.cluster.local."

  /** Every fault the splice cannot act on carries the one structural code, CUBE-GWY-004. */
  datatype SpliceResult = Spliced(text: string) | StructureError

  // ---------- vocabulary ----------

  predicate ValidCubeName(cube: string) {
    && 0 < |cube| <= 31
    && cube[0] != '-'
    && forall c <- cube :: 'a' <= c <= 'z' || '0' <= c <= '9' || c == '-'
  }

  predicate ValidDomain(domain: string) {
    && 0 < |domain|
    && forall c <- domain :: 'a' <= c <= 'z' || '0' <= c <= '9' || c == '-' || c == '.'
  }

  /** The lines findLines looks for. */
  function TrimsTo(want: string): string -> bool {
    (line: string) => TrimSpace(line) == want
  }

  function BeginOf(cube: string): string -> bool {
    TrimsTo(MARKER_BEGIN + cube)
  }

  function EndOf(cube: string): string -> bool {
    TrimsTo(MARKER_END + cube)
  }

  function ServerOpen(): string -> bool {
    (line: string) => IsServerOpen(line)
  }

  /** Does this line open the default server block? The brace spacing is free. */
  predicate IsServerOpen(line: string) {
    var t := TrimSpace(line);
    && HasPrefix(t, SERVER_TOKEN)
    && HasSuffix(t, "{")
    && assert t[3] == '3' && t[|t| - 1] == '{';
       TrimSpace(t[|SERVER_TOKEN|..|t| - 1]) == ""
  }

  /** regexp.QuoteMeta. */
  function QuoteMeta(s: string): string {
    if s == [] then []
    else (if s[0] in "\\.+*?()|[]{}^$" then ['\\', s[0]] else [s[0]]) + QuoteMeta(s[1..])
  }

  function RenderBlock(cube: string, domain: string): (block: seq<string>)
    ensures |block| == 6
  {
    [ BLOCK_INDENT + MARKER_BEGIN + cube,
      BLOCK_INDENT + "rewrite stop {",
      RULE_INDENT + "name regex (.*)\\." + QuoteMeta(domain) + "\\.$ " + SERVICE_FQDN,
      RULE_INDENT + "answer auto",
      BLOCK_INDENT + "}",
      BLOCK_INDENT + MARKER_END + cube ]
  }

  // ---------- what a splice is ----------

  ghost predicate Nowhere(lines: seq<string>, p: string -> bool) {
    forall i :: 0 <= i < |lines| ==> !p(lines[i])
  }

  ghost predicate Only(lines: seq<string>, p: string -> bool, i: int) {
    && 0 <= i < |lines|
    && p(lines[i])
    && forall j :: 0 <= j < |lines| && p(lines[j]) ==> j == i
  }

  ghost predicate NoMarkers(lines: seq<string>, cube: string) {
    Nowhere(lines, BeginOf(cube)) && Nowhere(lines, EndOf(cube))
  }

  /** Lines b..e, both included, are this cube's one intact marker region. */
  ghost predicate Region(lines: seq<string>, cube: string, b: int, e: int) {
    b < e && Only(lines, BeginOf(cube), b) && Only(lines, EndOf(cube), e)
  }

  ghost predicate OnlyOpen(lines: seq<string>, o: int) {
    Only(lines, ServerOpen(), o)
  }

  ghost predicate OpenAbove(lines: seq<string>, b: int)
    requires 0 <= b <= |lines|
  {
    !Nowhere(lines[..b], ServerOpen())
  }

  /** A first splice: no markers yet, and exactly one server block to go into. */
  ghost predicate Inserts(lines: seq<string>, cube: string, o: int) {
    NoMarkers(lines, cube) && OnlyOpen(lines, o)
  }

  /** A re-splice: one intact region, below some server-block opening line. */
  ghost predicate Replaces(lines: seq<string>, cube: string, b: int, e: int) {
    Region(lines, cube, b, e) && OpenAbove(lines, b)
  }

  /** The texts the splice accepts. */
  ghost predicate Spliceable(lines: seq<string>, cube: string) {
    || (exists o :: Inserts(lines, cube, o))
    || (exists b, e :: Replaces(lines, cube, b, e))
  }

  /** Lines lo up to but not including hi give way to the block. */
  function Patch(lines: seq<string>, lo: int, hi: int, block: seq<string>): seq<string>
    requires 0 <= lo <= hi <= |lines|
  {
    lines[..lo] + block + lines[hi..]
  }

  /** `out` is a splice of `block` into `lines`. */
  ghost predicate Splices(lines: seq<string>, cube: string, block: seq<string>, out: seq<string>) {
    || (exists o :: Inserts(lines, cube, o) && out == Patch(lines, o + 1, o + 1, block))
    || (exists b, e :: Replaces(lines, cube, b, e) && out == Patch(lines, b, e + 1, block))
  }

  lemma OneWay(lines: seq<string>, cube: string)
    ensures forall o, o' :: Inserts(lines, cube, o) && Inserts(lines, cube, o') ==> o == o'
    ensures forall b, e, b', e' :: Replaces(lines, cube, b, e) && Replaces(lines, cube, b', e') ==> b == b' && e == e'
    ensures forall o, b, e :: Inserts(lines, cube, o) ==> !Replaces(lines, cube, b, e)
  {
    hide BeginOf, EndOf, ServerOpen;
  }

  /** There is only one way to splice, and a way exactly when the text is spliceable. */
  lemma SpliceIsUnique(lines: seq<string>, cube: string, block: seq<string>)
    ensures forall out, out' :: Splices(lines, cube, block, out) && Splices(lines, cube, block, out') ==> out == out'
    ensures (exists out :: Splices(lines, cube, block, out)) <==> Spliceable(lines, cube)
  {
    OneWay(lines, cube);
    hide BeginOf, EndOf, ServerOpen, Patch;
    if o :| Inserts(lines, cube, o) {
      assert Splices(lines, cube, block, Patch(lines, o + 1, o + 1, block));
    }
    if b, e :| Replaces(lines, cube, b, e) {
      assert Splices(lines, cube, block, Patch(lines, b, e + 1, block));
    }
  }

  ghost function SpliceLines(lines: seq<string>, cube: string, block: seq<string>): (out: seq<string>)
    requires Spliceable(lines, cube)
    ensures Splices(lines, cube, block, out)
  {
    SpliceIsUnique(lines, cube, block);
    var out :| Splices(lines, cube, block, out);
    out
  }

  /** The splice as a function of the text. */
  ghost function Splice(text: string, cube: string, domain: string): SpliceResult {
    var lines := Split(text, '\n');
    if Spliceable(lines, cube) then
      Spliced(Join(SpliceLines(lines, cube, RenderBlock(cube, domain)), '\n'))
    else
      StructureError
  }

  // ---------- the code ----------

  /** Indexes of exactly the lines satisfying p, in order. */
  ghost predicate IndexesOf(found: seq<nat>, lines: seq<string>, p: string -> bool) {
    && (forall k :: 0 <= k < |found| ==> found[k] < |lines| && p(lines[found[k]]))
    && (forall j, k :: 0 <= j < k < |found| ==> found[j] < found[k])
    && (forall i :: 0 <= i < |lines| && p(lines[i]) ==> i in found)
  }

  lemma IndexesTell(found: seq<nat>, lines: seq<string>, p: string -> bool)
    requires IndexesOf(found, lines, p)
    ensures |found| == 0 <==> Nowhere(lines, p)
    ensures forall i :: Only(lines, p, i) <==> |found| == 1 && found[0] == i
  {
    if |found| > 0 {
      assert p(lines[found[0]]);
    }
    if |found| > 1 {
      assert p(lines[found[0]]) && p(lines[found[1]]);
    }
  }

  lemma IndexesNone(lines: seq<string>, p: string -> bool)
    ensures IndexesOf([], lines[..0], p)
  {
  }

  lemma IndexesNext(found: seq<nat>, lines: seq<string>, i: nat, p: string -> bool)
    requires i < |lines| && IndexesOf(found, lines[..i], p)
    ensures IndexesOf(if p(lines[i]) then found + [i] else found, lines[..i + 1], p)
  {
    var init, now := lines[..i], lines[..i + 1];
    var found' := if p(lines[i]) then found + [i] else found;
    assert now == init + [lines[i]];
    forall k | 0 <= k < |found'| ensures found'[k] < |now| && p(now[found'[k]]) {
      assert k < |found| ==> p(init[found[k]]);
    }
    forall j | 0 <= j < |now| && p(now[j]) ensures j in found' {
      assert j < i ==> p(init[j]) && j in found;
    }
  }

  /** findLines: the indexes of every line equal to `want` once trimmed. */
  method FindLines(lines: seq<string>, want: string) returns (found: seq<nat>)
    ensures IndexesOf(found, lines, TrimsTo(want))
  {
    found := [];
    hide IndexesOf;
    IndexesNone(lines, TrimsTo(want));
    for i := 0 to |lines|
      invariant IndexesOf(found, lines[..i], TrimsTo(want))
    {
      IndexesNext(found, lines, i, TrimsTo(want));
      if TrimSpace(lines[i]) == want {
        found := found + [i];
      }
    }
    assert lines[..|lines|] == lines;
  }

  datatype MarkerRange = NoBlock | BlockAt(begin: nat, end: nat) | Corrupted

  /** markerRange: this cube's marker block, its absence, or its corruption. */
  method FindMarkerRange(lines: seq<string>, cube: string) returns (r: MarkerRange)
    ensures r.NoBlock? <==> NoMarkers(lines, cube)
    ensures forall b, e :: Region(lines, cube, b, e) <==> r.BlockAt? && r.begin == b && r.end == e
  {
    var begins := FindLines(lines, MARKER_BEGIN + cube);
    var ends := FindLines(lines, MARKER_END + cube);
    IndexesTell(begins, lines, BeginOf(cube));
    IndexesTell(ends, lines, EndOf(cube));
    if |begins| == 0 && |ends| == 0 {
      return NoBlock;
    } else if |begins| > 1 || |ends| > 1 {
      return Corrupted;
    } else if |ends| == 0 {
      return Corrupted;
    } else if |begins| == 0 {
      return Corrupted;
    } else if ends[0] < begins[0] {
      return Corrupted;
    }
    MarkersDiffer(cube, cube);
    return BlockAt(begins[0], ends[0]);
  }

  /** A begin marker is never an end marker, and each names one cube. */
  lemma MarkersDiffer(cube: string, other: string)
    ensures MARKER_BEGIN + cube != MARKER_END + other
    ensures MARKER_BEGIN + cube == MARKER_BEGIN + other ==> cube == other
    ensures MARKER_END + cube == MARKER_END + other ==> cube == other
  {
    assert (MARKER_BEGIN + cube)[11] == 'b' && (MARKER_END + other)[11] == 'e';
    assert (MARKER_BEGIN + cube)[|MARKER_BEGIN|..] == cube && (MARKER_BEGIN + other)[|MARKER_BEGIN|..] == other;
    assert (MARKER_END + cube)[|MARKER_END|..] == cube && (MARKER_END + other)[|MARKER_END|..] == other;
  }

  /** requireServerBlockAbove. */
  method RequireServerBlockAbove(lines: seq<string>, begin: nat) returns (ok: bool)
    requires begin <= |lines|
    ensures ok <==> OpenAbove(lines, begin)
  {
    for i := 0 to begin
      invariant Nowhere(lines[..i], ServerOpen())
    {
      if IsServerOpen(lines[i]) {
        assert ServerOpen()(lines[..begin][i]);
        return true;
      }
    }
    return false;
  }

  datatype ServerLine = OpenAt(line: nat) | NoSingleServer

  /** defaultServerLine: the one opening line, or the fault that there is not exactly one. */
  method DefaultServerLine(lines: seq<string>) returns (r: ServerLine)
    ensures forall o: nat :: OnlyOpen(lines, o) <==> r == OpenAt(o)
  {
    var opens: seq<nat> := [];
    hide IndexesOf, IsServerOpen;
    IndexesNone(lines, ServerOpen());
    for i := 0 to |lines|
      invariant IndexesOf(opens, lines[..i], ServerOpen())
    {
      IndexesNext(opens, lines, i, ServerOpen());
      if IsServerOpen(lines[i]) {
        opens := opens + [i];
      }
    }
    assert lines[..|lines|] == lines;
    IndexesTell(opens, lines, ServerOpen());
    return if |opens| == 1 then OpenAt(opens[0]) else NoSingleServer;
  }

  /** spliceLines: rejoin the text around a freshly rendered block. */
  method RejoinLines(before: seq<string>, block: seq<string>, after: seq<string>) returns (text: string)
    ensures text == Join(before + block + after, '\n')
  {
    var out := [];
    out := out + before;
    out := out + block;
    out := out + after;
    assert out == before + block + after;
    return Join(out, '\n');
  }

  lemma RegionInside(lines: seq<string>, cube: string, b: int, e: int)
    requires Region(lines, cube, b, e)
    ensures 0 <= b < e < |lines| && !NoMarkers(lines, cube)
  {
  }

  lemma Replaced(lines: seq<string>, cube: string, b: int, e: int, block: seq<string>)
    requires Replaces(lines, cube, b, e)
    ensures Spliceable(lines, cube) && SpliceLines(lines, cube, block) == Patch(lines, b, e + 1, block)
  {
    SpliceIsUnique(lines, cube, block);
    hide OpenAbove, Patch, Only;
    RegionInside(lines, cube, b, e);
    assert Splices(lines, cube, block, Patch(lines, b, e + 1, block));
  }

  lemma Inserted(lines: seq<string>, cube: string, o: int, block: seq<string>)
    requires Inserts(lines, cube, o)
    ensures Spliceable(lines, cube) && SpliceLines(lines, cube, block) == Patch(lines, o + 1, o + 1, block)
  {
    SpliceIsUnique(lines, cube, block);
    hide Patch, NoMarkers;
    assert Splices(lines, cube, block, Patch(lines, o + 1, o + 1, block));
  }

  method SpliceInto(lines: seq<string>, cube: string, block: seq<string>) returns (r: SpliceResult)
    ensures r.Spliced? <==> Spliceable(lines, cube)
    ensures r.Spliced? ==> r.text == Join(SpliceLines(lines, cube, block), '\n')
  {
    hide Nowhere, Region, NoMarkers, OpenAbove, Splices, Join, BeginOf, EndOf, ServerOpen;
    var range := FindMarkerRange(lines, cube);
    match range
    case Corrupted =>
      return StructureError;
    case BlockAt(begin, end) =>
      RegionInside(lines, cube, begin, end);
      var above := RequireServerBlockAbove(lines, begin);
      if !above {
        return StructureError;
      }
      Replaced(lines, cube, begin, end, block);
      var text := RejoinLines(lines[..begin], block, lines[end + 1..]);
      return Spliced(text);
    case NoBlock =>
      var server := DefaultServerLine(lines);
      if server.NoSingleServer? {
        return StructureError;
      }
      var open := server.line;
      Inserted(lines, cube, open, block);
      var text := RejoinLines(lines[..open + 1], block, lines[open + 1..]);
      return Spliced(text);
  }

  method CorefileSplice(corefile: string, cube: string, domain: string) returns (r: SpliceResult)
    ensures r == Splice(corefile, cube, domain)
  {
    r := SpliceInto(Split(corefile, '\n'), cube, RenderBlock(cube, domain));
  }
}
