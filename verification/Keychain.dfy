/** Finding a certificate in what the macOS keychain tool prints. */
module Keychain {
  import opened Text
  import opened Wrappers

  const HASH_PREFIX := "SHA-256 hash: "
  const PEM_BEGIN := "-----BEGIN CERTIFICATE-----"
  const PEM_END := "-----END CERTIFICATE-----"

  datatype Cert = Cert(sha256: string, pem: string)

  // ---------- the parser ----------

  /** The certificates so far, the hash last announced, and the block being read. */
  datatype State = State(certs: seq<Cert>, current: Cert, block: Option<seq<string>>)

  const START := State([], Cert("", ""), None)

  function PemOf(block: seq<string>): string {
    Join(block, '\n') + "\n"
  }

  /** What one line does, once trimmed. */
  function Read(s: State, line: string): State {
    if HasPrefix(line, HASH_PREFIX) then s.(current := Cert(line[|HASH_PREFIX|..], ""))
    else if line == PEM_BEGIN then s.(block := Some([line]))
    else if s.block.None? then s
    else
      var block := s.block.value + [line];
      if line == PEM_END then
        var cert := s.current.(pem := PemOf(block));
        State(s.certs + [cert], cert, None)
      else s.(block := Some(block))
  }

  function ReadAll(s: State, lines: seq<string>): State {
    if lines == [] then s
    else
      var n := |lines| - 1;
      Read(ReadAll(s, lines[..n]), TrimSpace(lines[n]))
  }

  /** parseKeychainCerts. */
  method ParseKeychainCerts(stdout: string) returns (certs: seq<Cert>)
    ensures certs == ReadAll(START, Split(stdout, '\n')).certs
  {
    hide TrimSpace, PemOf;
    certs := [];
    var current := Cert("", "");
    var block: Option<seq<string>> := None;
    var lines := Split(stdout, '\n');
    for i := 0 to |lines|
      invariant State(certs, current, block) == ReadAll(START, lines[..i])
    {
      assert lines[..i + 1][..i] == lines[..i];
      var line := TrimSpace(lines[i]);
      if HasPrefix(line, HASH_PREFIX) {
        current := Cert(line[|HASH_PREFIX|..], "");
      } else if line == PEM_BEGIN {
        block := Some([line]);
      } else if block.Some? {
        block := Some(block.value + [line]);
        if line == PEM_END {
          current := current.(pem := PemOf(block.value));
          certs := certs + [current];
          block := None;
        }
      }
    }
    assert lines[..|lines|] == lines;
  }

  // ---------- what the tool prints ----------

  /** One certificate as printed: its hash, other lines (its SHA-1 hash among them), and its PEM
      block, of which only the body varies. */
  datatype Printed = Printed(hash: string, others: seq<string>, body: seq<string>)

  /** A line the parser passes over outside a block. */
  predicate Passed(line: string) {
    !HasPrefix(TrimSpace(line), HASH_PREFIX) && TrimSpace(line) != PEM_BEGIN
  }

  predicate BodyLine(line: string) {
    Passed(line) && TrimSpace(line) != PEM_END
  }

  ghost predicate Printable(p: Printed) {
    && p.hash != "" && Trimmed(p.hash) && '\n' !in p.hash
    && (forall l <- p.others :: Passed(l) && '\n' !in l)
    && forall l <- p.body :: BodyLine(l) && '\n' !in l
  }

  function Lines(p: Printed): seq<string> {
    ["SHA-256 hash: " + p.hash] + p.others
    + ["-----BEGIN CERTIFICATE-----"] + p.body + ["-----END CERTIFICATE-----"]
  }

  function AllLines(ps: seq<Printed>): seq<string> {
    if ps == [] then [] else AllLines(ps[..|ps| - 1]) + Lines(ps[|ps| - 1])
  }

  /** A text of these lines, each ended by a line break. */
  function Lined(lines: seq<string>): string {
    if lines == [] then "" else lines[0] + "\n" + Lined(lines[1..])
  }

  function Output(ps: seq<Printed>): string {
    Lined(AllLines(ps))
  }

  function TrimmedLines(lines: seq<string>): seq<string> {
    seq(|lines|, i requires 0 <= i < |lines| => TrimSpace(lines[i]))
  }

  function CertOf(p: Printed): Cert {
    Cert(p.hash, Lined(["-----BEGIN CERTIFICATE-----"] + TrimmedLines(p.body) + ["-----END CERTIFICATE-----"]))
  }

  function CertsOf(ps: seq<Printed>): seq<Cert> {
    seq(|ps|, i requires 0 <= i < |ps| => CertOf(ps[i]))
  }

  lemma {:induction false} JoinIsLined(lines: seq<string>)
    ensures lines != [] ==> Join(lines, '\n') + "\n" == Lined(lines)
    ensures Join(lines + [""], '\n') == Lined(lines)
  {
    if |lines| > 1 {
      JoinIsLined(lines[1..]);
      assert (lines + [""])[1..] == lines[1..] + [""];
      assert lines[0] + "\n" + (Join(lines[1..], '\n') + "\n") == (lines[0] + "\n" + Join(lines[1..], '\n')) + "\n";
    } else if |lines| == 1 {
      assert lines[1..] == [] && (lines + [""])[1..] == [""];
      assert Lined(lines) == lines[0] + "\n" + Lined([]);
    }
  }

  // ---------- reading back what was printed ----------

  lemma {:induction false} ReadConcat(s: State, a: seq<string>, b: seq<string>)
    ensures ReadAll(s, a + b) == ReadAll(ReadAll(s, a), b)
  {
    if b == [] {
      assert a + b == a;
    } else {
      assert (a + b)[..|a + b| - 1] == a + b[..|b| - 1];
      ReadConcat(s, a, b[..|b| - 1]);
    }
  }

  lemma ReadOne(s: State, line: string)
    ensures ReadAll(s, [line]) == Read(s, TrimSpace(line))
  {
    assert [line][..0] == [];
  }

  lemma {:induction false} PassedOver(s: State, lines: seq<string>)
    requires s.block.None? && forall l <- lines :: Passed(l)
    ensures ReadAll(s, lines) == s
  {
    hide TrimSpace;
    if lines != [] {
      PassedOver(s, lines[..|lines| - 1]);
      assert lines[|lines| - 1] in lines;
    }
  }

  lemma {:induction false} BodyRead(s: State, lines: seq<string>)
    requires s.block.Some? && forall l <- lines :: BodyLine(l)
    ensures ReadAll(s, lines) == s.(block := Some(s.block.value + TrimmedLines(lines)))
  {
    hide TrimSpace;
    if lines == [] {
      assert s.block.value + TrimmedLines(lines) == s.block.value;
    } else {
      var n := |lines| - 1;
      BodyRead(s, lines[..n]);
      assert lines[n] in lines;
      assert TrimmedLines(lines) == TrimmedLines(lines[..n]) + [TrimSpace(lines[n])];
      assert s.block.value + TrimmedLines(lines) == s.block.value + TrimmedLines(lines[..n]) + [TrimSpace(lines[n])];
    }
  }

  lemma TrimmedStays(line: string)
    requires Trimmed(line) && line != []
    ensures TrimSpace(line) == line
  {
    TrimIndented("", line);
    assert "" + line == line;
  }

  lemma MarkersStay(hash: string)
    requires hash != "" && Trimmed(hash)
    ensures TrimSpace(HASH_PREFIX + hash) == HASH_PREFIX + hash
    ensures TrimSpace(PEM_BEGIN) == PEM_BEGIN && TrimSpace(PEM_END) == PEM_END && TrimSpace("") == ""
  {
    var line := HASH_PREFIX + hash;
    assert line[|line| - 1] == hash[|hash| - 1] && line[0] == 'S';
    TrimmedStays(line);
    assert PEM_BEGIN[0] == '-' == PEM_BEGIN[|PEM_BEGIN| - 1];
    assert PEM_END[0] == '-' == PEM_END[|PEM_END| - 1];
    TrimmedStays(PEM_BEGIN);
    TrimmedStays(PEM_END);
  }

  lemma MarkersDiffer()
    ensures PEM_BEGIN != PEM_END && PEM_BEGIN[0] == '-' == PEM_END[0] && HASH_PREFIX[0] == 'S'
    ensures !HasPrefix(PEM_BEGIN, HASH_PREFIX) && !HasPrefix(PEM_END, HASH_PREFIX)
    ensures '\n' !in PEM_BEGIN && '\n' !in PEM_END && '\n' !in HASH_PREFIX
  {
    assert PEM_BEGIN[5] == 'B' && PEM_END[5] == 'E';
  }

  lemma HashRead(s: State, hash: string)
    requires hash != "" && Trimmed(hash)
    ensures ReadAll(s, [HASH_PREFIX + hash]) == s.(current := Cert(hash, ""))
  {
    MarkersStay(hash);
    ReadOne(s, HASH_PREFIX + hash);
    hide TrimSpace;
    assert (HASH_PREFIX + hash)[|HASH_PREFIX|..] == hash;
  }

  lemma BlockRead(s: State, body: seq<string>)
    requires s.block.None? && forall l <- body :: BodyLine(l)
    ensures var cert := s.current.(pem := PemOf([PEM_BEGIN] + TrimmedLines(body) + [PEM_END]));
            ReadAll(s, [PEM_BEGIN] + body + [PEM_END]) == State(s.certs + [cert], cert, None)
  {
    MarkersStay("x");
    MarkersDiffer();
    hide TrimSpace, PemOf, BodyLine, TrimmedLines, ReadAll;
    ReadConcat(s, [PEM_BEGIN] + body, [PEM_END]);
    ReadConcat(s, [PEM_BEGIN], body);
    ReadOne(s, PEM_BEGIN);
    BodyRead(s.(block := Some([PEM_BEGIN])), body);
    ReadOne(s.(block := Some([PEM_BEGIN] + TrimmedLines(body))), PEM_END);
  }

  lemma PrintedRead(s: State, p: Printed)
    requires s.block.None? && Printable(p)
    ensures ReadAll(s, Lines(p)) == State(s.certs + [CertOf(p)], CertOf(p), None)
  {
    var block := [PEM_BEGIN] + p.body + [PEM_END];
    hide ReadAll, BodyLine, Passed, TrimSpace, Join, Lined;
    assert Lines(p) == [HASH_PREFIX + p.hash] + p.others + block;
    JoinIsLined([PEM_BEGIN] + TrimmedLines(p.body) + [PEM_END]);
    ReadConcat(s, [HASH_PREFIX + p.hash] + p.others, block);
    ReadConcat(s, [HASH_PREFIX + p.hash], p.others);
    HashRead(s, p.hash);
    var t := s.(current := Cert(p.hash, ""));
    PassedOver(t, p.others);
    BlockRead(t, p.body);
  }

  lemma CertsOfMore(ps: seq<Printed>)
    requires ps != []
    ensures CertsOf(ps) == CertsOf(ps[..|ps| - 1]) + [CertOf(ps[|ps| - 1])]
  {
    hide CertOf;
  }

  lemma {:induction false} ReadMore(s: State, lines: seq<string>, p: Printed)
    requires ReadAll(s, lines).block.None? && Printable(p)
    ensures var t := ReadAll(s, lines + Lines(p)); t.block.None? && t.certs == ReadAll(s, lines).certs + [CertOf(p)]
  {
    hide ReadAll, Lines, Printable, CertOf;
    ReadConcat(s, lines, Lines(p));
    PrintedRead(ReadAll(s, lines), p);
  }

  lemma {:induction false} AllRead(ps: seq<Printed>)
    requires forall p <- ps :: Printable(p)
    ensures ReadAll(START, AllLines(ps)).certs == CertsOf(ps)
    ensures ReadAll(START, AllLines(ps)).block.None?
  {
    hide ReadAll, Lines, Printable, CertOf, CertsOf;
    if ps == [] {
      NothingRead();
    } else {
      var n := |ps| - 1;
      AllRead(ps[..n]);
      assert Printable(ps[n]);
      ReadMore(START, AllLines(ps[..n]), ps[n]);
      CertsOfMore(ps);
    }
  }

  lemma NothingRead()
    ensures ReadAll(START, []) == START && START.block.None? && START.certs == CertsOf([])
  {
  }

  lemma LinesUnbroken(p: Printed)
    requires Printable(p)
    ensures forall l <- Lines(p) :: '\n' !in l
  {
    hide Passed, BodyLine, TrimSpace, Trimmed;
    MarkersDiffer();
  }

  lemma {:induction false} NoBreaks(ps: seq<Printed>)
    requires forall p <- ps :: Printable(p)
    ensures forall l <- AllLines(ps) :: '\n' !in l
  {
    hide Printable, Lines;
    if ps != [] {
      var n := |ps| - 1;
      NoBreaks(ps[..n]);
      assert Printable(ps[n]);
      LinesUnbroken(ps[n]);
    }
  }

  lemma BlankPassed(s: State)
    requires s.block.None?
    ensures ReadAll(s, [""]) == s
  {
    MarkersStay("x");
    ReadOne(s, "");
  }

  /** Parsing what was printed gives the certificates back, each with its hash, in order. */
  lemma {:induction false} ParseInvertsPrint(ps: seq<Printed>)
    requires forall p <- ps :: Printable(p)
    ensures ReadAll(START, Split(Output(ps), '\n')).certs == CertsOf(ps)
  {
    hide Split, Join, Lined, ReadAll, AllLines, Printable, CertsOf;
    NoBreaks(ps);
    AllRead(ps);
    var lines := AllLines(ps);
    JoinIsLined(lines);
    SplitJoin(lines + [""], '\n');
    ReadConcat(START, lines, [""]);
    BlankPassed(ReadAll(START, lines));
  }

  // ---------- finding one ----------

  function FoldChar(c: char): char {
    if 'A' <= c <= 'Z' then (c as int + 32) as char else c
  }

  /** strings.EqualFold on hexadecimal text. */
  predicate EqualFold(a: string, b: string) {
    |a| == |b| && forall i :: 0 <= i < |a| ==> FoldChar(a[i]) == FoldChar(b[i])
  }

  /** The same text but for the case of its letters. */
  ghost predicate SameButCase(a: string, b: string) {
    && |a| == |b|
    && forall i :: 0 <= i < |a| ==> SameLetter(a[i], b[i])
  }

  ghost predicate SameLetter(x: char, y: char) {
    || x == y
    || ('a' <= x <= 'z' && y as int + ('a' as int - 'A' as int) == x as int)
    || ('a' <= y <= 'z' && x as int + ('a' as int - 'A' as int) == y as int)
  }

  lemma FoldIsCase(a: string, b: string)
    ensures EqualFold(a, b) <==> SameButCase(a, b)
  {
    forall x, y ensures FoldChar(x) == FoldChar(y) <==> SameLetter(x, y) {
    }
  }

  /** find, given what the tool printed: the first certificate of that fingerprint, if any. */
  method Find(stdout: string, fingerprint: string) returns (r: Option<Cert>)
    ensures r.None? <==> forall c <- ReadAll(START, Split(stdout, '\n')).certs :: !SameButCase(c.sha256, fingerprint)
    ensures r.Some? ==>
              var certs := ReadAll(START, Split(stdout, '\n')).certs;
              exists i :: 0 <= i < |certs| && certs[i] == r.value && SameButCase(certs[i].sha256, fingerprint)
                          && forall j :: 0 <= j < i ==> !SameButCase(certs[j].sha256, fingerprint)
  {
    hide ReadAll, Split, EqualFold, SameButCase;
    var certs := ParseKeychainCerts(stdout);
    for i := 0 to |certs|
      invariant forall j :: 0 <= j < i ==> !SameButCase(certs[j].sha256, fingerprint)
    {
      FoldIsCase(certs[i].sha256, fingerprint);
      if EqualFold(certs[i].sha256, fingerprint) {
        return Some(certs[i]);
      }
    }
    return None;
  }
}
