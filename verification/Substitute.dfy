/** `${NAME}` substitution in decoded objects: the scanner proved against the grammar it reads,
    and the walk over trees. */
module Substitute {
  import opened Json
  import opened Ordering
  import opened Finite
  import opened Text

  // ---------- the grammar ----------

  /** A piece of a scalar: one literal character, an escaped opening, or a reference. */
  datatype Token = Literal(c: char) | Escape | Reference(name: string)

  predicate IsVarChar(c: char, first: bool) {
    'a' <= c <= 'z' || 'A' <= c <= 'Z' || c == '_' || (!first && '0' <= c <= '9')
  }

  predicate IsVarName(name: string) {
    name != [] && forall i :: 0 <= i < |name| ==> IsVarChar(name[i], i == 0)
  }

  function TokenText(t: Token): (text: string)
    ensures |text| == match t { case Literal(_) => 1 case Escape => 3 case Reference(name) => |name| + 3 }
  {
    match t
    case Literal(c) => [c]
    case Escape => "$${"
    case Reference(name) => "${" + name + "}"
  }

  function Source(ts: seq<Token>): string {
    if ts == [] then [] else TokenText(ts[0]) + Source(ts[1..])
  }

  ghost predicate OpensReference(s: string) {
    exists name: string :: IsVarName(name) && HasPrefix(s, "${" + name + "}")
  }

  /** The string starts with this piece; a `$` is a literal only where it opens neither an escape
      nor a reference. */
  ghost predicate StartsWith(s: string, t: Token) {
    && HasPrefix(s, TokenText(t))
    && (t.Reference? ==> IsVarName(t.name))
    && (t == Literal('$') ==> !HasPrefix(s, "$${") && !OpensReference(s))
  }

  /** The pieces spell out the string. */
  ghost predicate Reads(ts: seq<Token>, s: string)
    decreases |ts|
  {
    if ts == [] then s == []
    else StartsWith(s, ts[0]) && Reads(ts[1..], s[|TokenText(ts[0])|..])
  }

  lemma {:induction false} ReadsIsSource(ts: seq<Token>, s: string)
    requires Reads(ts, s)
    ensures Source(ts) == s
  {
    hide TokenText, IsVarName, OpensReference, HasPrefix;
    if ts != [] {
      PrefixSplits(s, TokenText(ts[0]));
      ReadsIsSource(ts[1..], s[|TokenText(ts[0])|..]);
    }
  }

  lemma PrefixSplits(s: string, prefix: string)
    requires HasPrefix(s, prefix)
    ensures s == prefix + s[|prefix|..]
  {
  }

  lemma NameEnds(name: string)
    requires IsVarName(name)
    ensures '}' !in name && '{' !in name && '$' !in name
  {
  }

  lemma OneReference(s: string, a: string, b: string)
    requires IsVarName(a) && IsVarName(b)
    requires HasPrefix(s, "${" + a + "}") && HasPrefix(s, "${" + b + "}")
    ensures a == b
  {
    NameEnds(a);
    NameEnds(b);
    var x, y := "${" + a + "}", "${" + b + "}";
    assert s[2 + |a|] == x[2 + |a|] == '}';
    assert s[2 + |b|] == y[2 + |b|] == '}';
    assert a == x[2..2 + |a|] == s[2..2 + |a|];
    assert b == y[2..2 + |b|] == s[2..2 + |b|];
  }

  lemma Opening(t: Token)
    ensures t.Reference? ==> |TokenText(t)| > 2 && TokenText(t)[0] == '$' && TokenText(t)[1] == '{'
    ensures t == Escape ==> TokenText(t)[1] == '$'
  {
  }

  lemma FirstTokenIsForced(s: string, a: Token, b: Token)
    requires StartsWith(s, a) && StartsWith(s, b)
    ensures a == b
  {
    assert TokenText(a)[0] == s[0] == TokenText(b)[0];
    Opening(a);
    Opening(b);
    if a.Reference? && b.Reference? {
      OneReference(s, a.name, b.name);
    }
  }

  lemma ReadsNothing(s: string, ts: seq<Token>)
    requires Reads(ts, s)
    ensures ts == [] <==> s == []
  {
  }

  /** The grammar is unambiguous. */
  lemma {:induction false} ReadingIsUnique(s: string, ts: seq<Token>, us: seq<Token>)
    requires Reads(ts, s) && Reads(us, s)
    ensures ts == us
    decreases |s|
  {
    hide TokenText, IsVarName, OpensReference;
    if ts == [] || us == [] {
      ReadsNothing(s, ts);
      ReadsNothing(s, us);
    } else {
      FirstTokenIsForced(s, ts[0], us[0]);
      ReadingIsUnique(s[|TokenText(ts[0])|..], ts[1..], us[1..]);
      assert ts == [ts[0]] + ts[1..] && us == [us[0]] + us[1..];
    }
  }

  // ---------- meaning ----------

  function TokenValue(t: Token, vars: map<string, string>): string {
    match t
    case Literal(c) => [c]
    case Escape => "${"
    case Reference(name) => if name in vars then vars[name] else ""
  }

  /** Each piece is replaced once; what a variable holds is never read again. */
  function Value(ts: seq<Token>, vars: map<string, string>): string {
    if ts == [] then [] else TokenValue(ts[0], vars) + Value(ts[1..], vars)
  }

  // ---------- the scanner ----------

  datatype Match = NoMatch | Match(name: string, width: nat)

  method CheckVarName(name: string) returns (ok: bool)
    ensures ok <==> IsVarName(name)
  {
    if name == "" {
      return false;
    }
    for i := 0 to |name|
      invariant forall j :: 0 <= j < i ==> IsVarChar(name[j], j == 0)
    {
      var c := name[i];
      if ('a' <= c <= 'z') || ('A' <= c <= 'Z') || c == '_' {
      } else if i > 0 && '0' <= c <= '9' {
      } else {
        assert !IsVarChar(name[i], i == 0);
        return false;
      }
    }
    return true;
  }

  method IndexOf(s: string, c: char) returns (at: int)
    ensures at == -1 <==> c !in s
    ensures at != -1 ==> 0 <= at < |s| && s[at] == c && c !in s[..at]
  {
    for i := 0 to |s|
      invariant c !in s[..i]
    {
      if s[i] == c {
        return i;
      }
      assert s[..i + 1] == s[..i] + [s[i]];
    }
    assert s[..|s|] == s;
    return -1;
  }

  lemma BracesSpelled(s: string, end: nat)
    requires 2 <= end < |s| && s[0] == '$' && s[1] == '{' && s[end] == '}'
    ensures HasPrefix(s, "${" + s[2..end] + "}")
  {
    assert s[..2] == "${" && s[end..end + 1] == "}";
    assert s[..end + 1] == s[..2] + s[2..end] + s[end..end + 1];
  }

  /** reference: a leading `${NAME}`, if there is one. */
  method LeadingReference(s: string) returns (m: Match)
    ensures m.Match? <==> OpensReference(s)
    ensures m.Match? ==> IsVarName(m.name) && HasPrefix(s, "${" + m.name + "}") && m.width == |m.name| + 3
  {
    if !HasPrefix(s, "${") {
      forall name: string ensures !HasPrefix(s, "${" + name + "}") {
        assert "${" <= "${" + name + "}";
      }
      return NoMatch;
    }
    var end := IndexOf(s, '}');
    forall name: string | IsVarName(name) && HasPrefix(s, "${" + name + "}")
      ensures end >= 2 && name == s[2..end]
    {
      NameEnds(name);
      var x := "${" + name + "}";
      assert s[2 + |name|] == x[2 + |name|] == '}';
      assert forall i :: 0 <= i < 2 + |name| ==> s[i] == x[i];
      assert forall i :: 2 <= i < 2 + |name| ==> x[i] == name[i - 2];
      assert end == 2 + |name|;
      assert name == x[2..end];
    }
    if end < 0 {
      return NoMatch;
    }
    assert s[0] == '$' && s[1] == '{';
    var name := s[2..end];
    var ok := CheckVarName(name);
    if !ok {
      return NoMatch;
    }
    BracesSpelled(s, end);
    return Match(name, end + 1);
  }

  lemma {:induction false} ReadsOneMore(t: Token, ts: seq<Token>, s: string)
    requires StartsWith(s, t) && Reads(ts, s[|TokenText(t)|..])
    ensures Reads([t] + ts, s)
  {
    hide TokenText, StartsWith;
    assert ([t] + ts)[1..] == ts;
  }

  lemma StartsSomehow(s: string)
    requires s != []
    ensures exists t :: StartsWith(s, t)
  {
    if HasPrefix(s, "$${") {
      assert StartsWith(s, Escape);
    } else if OpensReference(s) {
      var name: string :| IsVarName(name) && HasPrefix(s, "${" + name + "}");
      assert StartsWith(s, Reference(name));
    } else {
      assert StartsWith(s, Literal(s[0]));
    }
  }

  /** The reading of s, as a fact to prove things by. */
  ghost function TokensOf(s: string): (ts: seq<Token>)
    ensures Reads(ts, s)
    decreases |s|
  {
    if s == [] then []
    else
      StartsSomehow(s);
      var t :| StartsWith(s, t);
      var rest := TokensOf(s[|TokenText(t)|..]);
      ReadsOneMore(t, rest, s);
      [t] + rest
  }

  lemma TokensOfNext(s: string, t: Token)
    requires StartsWith(s, t)
    ensures TokensOf(s) == [t] + TokensOf(s[|TokenText(t)|..])
  {
    hide TokensOf;
    ReadsOneMore(t, TokensOf(s[|TokenText(t)|..]), s);
    ReadingIsUnique(s, [t] + TokensOf(s[|TokenText(t)|..]), TokensOf(s));
  }

  lemma TokensOfEscape(s: string)
    requires HasPrefix(s, "$${")
    ensures TokensOf(s) == [Escape] + TokensOf(s[3..])
  {
    hide TokensOf, Reads;
    TokensOfNext(s, Escape);
  }

  lemma TokensOfReference(s: string, name: string)
    requires IsVarName(name) && HasPrefix(s, "${" + name + "}")
    ensures TokensOf(s) == [Reference(name)] + TokensOf(s[|name| + 3..])
  {
    hide TokensOf, Reads;
    TokensOfNext(s, Reference(name));
  }

  lemma TokensOfLiteral(s: string)
    requires s != [] && !HasPrefix(s, "$${") && !OpensReference(s)
    ensures TokensOf(s) == [Literal(s[0])] + TokensOf(s[1..])
  {
    hide TokensOf, Reads;
    TokensOfNext(s, Literal(s[0]));
  }

  lemma NotAnOpening(s: string)
    requires s != [] && s[0] != '$'
    ensures !HasPrefix(s, "$${") && !OpensReference(s)
  {
    forall name: string ensures !HasPrefix(s, "${" + name + "}") {
      assert ("${" + name + "}")[0] == '$';
    }
  }

  ghost predicate Unbound(ts: seq<Token>, vars: map<string, string>, name: string) {
    Reference(name) in ts && name !in vars
  }

  /** What expand finds at the head of what is left to scan. */
  method NextToken(s: string) returns (t: Token, width: nat)
    requires s != []
    ensures 0 < width <= |s| && TokensOf(s) == [t] + TokensOf(s[width..])
  {
    hide TokensOf, Reads, OpensReference;
    if s[0] != '$' {
      NotAnOpening(s);
      TokensOfLiteral(s);
      return Literal(s[0]), 1;
    }
    if HasPrefix(s, "$${") {
      TokensOfEscape(s);
      return Escape, 3;
    }
    var m := LeadingReference(s);
    if m.NoMatch? {
      TokensOfLiteral(s);
      return Literal(s[0]), 1;
    }
    TokensOfReference(s, m.name);
    return Reference(m.name), m.width;
  }

  /** expand: the value of the one reading of s; the names it did not find join `missing`. */
  method Expand(s: string, vars: map<string, string>, missing: set<string>) returns (r: string, missing': set<string>)
    ensures r == Value(TokensOf(s), vars)
    ensures forall name :: name in missing' <==> name in missing || Unbound(TokensOf(s), vars, name)
  {
    r := "";
    missing' := missing;
    var i := 0;
    hide Value, Unbound, TokensOf, Scanned, TokenValue, Reads;
    NothingScanned(s, vars, missing);
    while i < |s|
      invariant 0 <= i <= |s| && Scanned(s, vars, missing, i, r, missing')
    {
      var t, width := NextToken(s[i..]);
      assert s[i..][width..] == s[i + width..];
      Advance(s, vars, missing, i, r, missing', t, width);
      var text := TokenValue(t, vars);
      if t.Reference? && t.name !in vars {
        missing' := missing' + {t.name};
      }
      r := r + text;
      i := i + width;
    }
    AllScanned(s, vars, missing, r, missing');
  }

  /** Partway through: what is written and missed so far, with what is left, make the whole. */
  ghost predicate Scanned(s: string, vars: map<string, string>, missing: set<string>, i: nat, r: string,
      missing': set<string>)
    requires i <= |s|
  {
    && r + Value(TokensOf(s[i..]), vars) == Value(TokensOf(s), vars)
    && forall name :: name in missing' || Unbound(TokensOf(s[i..]), vars, name) <==>
                      name in missing || Unbound(TokensOf(s), vars, name)
  }

  lemma NothingScanned(s: string, vars: map<string, string>, missing: set<string>)
    ensures Scanned(s, vars, missing, 0, "", missing)
  {
    hide TokensOf, Value, Unbound;
    assert s[0..] == s;
    assert [] + Value(TokensOf(s), vars) == Value(TokensOf(s), vars);
  }

  lemma AllScanned(s: string, vars: map<string, string>, missing: set<string>, r: string, missing': set<string>)
    requires Scanned(s, vars, missing, |s|, r, missing')
    ensures r == Value(TokensOf(s), vars)
    ensures forall name :: name in missing' <==> name in missing || Unbound(TokensOf(s), vars, name)
  {
    assert s[|s|..] == [] && TokensOf([]) == [] && Value([], vars) == [];
    assert forall name :: !Unbound([], vars, name);
    hide TokensOf, Value, Unbound;
  }

  lemma Advance(s: string, vars: map<string, string>, missing: set<string>, i: nat, r: string, missing': set<string>,
      t: Token, width: nat)
    requires i + width <= |s| && Scanned(s, vars, missing, i, r, missing')
    requires TokensOf(s[i..]) == [t] + TokensOf(s[i + width..])
    ensures Scanned(s, vars, missing, i + width, r + TokenValue(t, vars),
                    if t.Reference? && t.name !in vars then missing' + {t.name} else missing')
  {
    hide TokensOf, TokenValue, Value, Unbound, Reads;
    var rest := TokensOf(s[i + width..]);
    ValueOfHead(t, rest, vars);
    UnboundInHead(t, rest, vars);
    assert r + (TokenValue(t, vars) + Value(rest, vars)) == r + TokenValue(t, vars) + Value(rest, vars);
  }

  lemma ValueOfHead(t: Token, rest: seq<Token>, vars: map<string, string>)
    ensures Value([t] + rest, vars) == TokenValue(t, vars) + Value(rest, vars)
  {
    assert ([t] + rest)[1..] == rest;
  }

  lemma UnboundInHead(t: Token, rest: seq<Token>, vars: map<string, string>)
    ensures forall name :: Unbound([t] + rest, vars, name) <==>
                           Unbound(rest, vars, name) || (t == Reference(name) && name !in vars)
  {
  }

  // ---------- escaping ----------

  /** strings.ReplaceAll(s, "${", "$${"). */
  function Escaped(s: string): string {
    if HasPrefix(s, "${") then "$${" + Escaped(s[2..])
    else if s == [] then []
    else [s[0]] + Escaped(s[1..])
  }

  /** How an escaped string reads. */
  function EscapedTokens(s: string): seq<Token> {
    if HasPrefix(s, "${") then [Escape] + EscapedTokens(s[2..])
    else if s == [] then []
    else [Literal(s[0])] + EscapedTokens(s[1..])
  }

  lemma EscapedStart(s: string)
    ensures s != [] ==> Escaped(s) != [] && Escaped(s)[0] == s[0]
    ensures !HasPrefix(Escaped(s), "${")
    decreases |s|
  {
    StartsOpening(Escaped(s));
    if s != [] && !HasPrefix(s, "${") {
      EscapedStart(s[1..]);
      assert Escaped(s)[1..] == Escaped(s[1..]);
      StartsOpening(s);
      if |s| > 1 {
        assert Escaped(s)[1] == Escaped(s[1..])[0] == s[1];
      } else {
        assert s[1..] == [];
      }
    }
  }

  lemma StartsOpening(s: string)
    ensures HasPrefix(s, "${") <==> |s| >= 2 && s[0] == '$' && s[1] == '{'
  {
    var opening := "${";
    assert |s| >= 2 && s[0] == '$' && s[1] == '{' ==> s[..2] == opening;
  }

  lemma {:induction false} EscapedReads(s: string)
    ensures Reads(EscapedTokens(s), Escaped(s))
    decreases |s|
  {
    if HasPrefix(s, "${") {
      EscapedReads(s[2..]);
      assert Escaped(s)[3..] == Escaped(s[2..]);
      assert EscapedTokens(s)[1..] == EscapedTokens(s[2..]);
    } else if s != [] {
      EscapedReads(s[1..]);
      assert Escaped(s)[1..] == Escaped(s[1..]);
      assert EscapedTokens(s)[1..] == EscapedTokens(s[1..]);
      EscapedStart(s);
      EscapedStart(s[1..]);
      EscapedOpensNothing(s);
    }
  }

  lemma EscapedOpensNothing(s: string)
    requires s != [] && !HasPrefix(s, "${")
    ensures !HasPrefix(Escaped(s), "$${") && !OpensReference(Escaped(s))
  {
    EscapedStart(s);
    EscapedStart(s[1..]);
    var e := Escaped(s);
    assert e[1..] == Escaped(s[1..]);
    assert "$${"[1..] == "${";
    forall name: string ensures !HasPrefix(e, "${" + name + "}") {
      assert "${" <= "${" + name + "}";
    }
  }

  lemma {:induction false} EscapedValue(s: string, vars: map<string, string>)
    ensures Value(EscapedTokens(s), vars) == s
    ensures forall name :: Reference(name) !in EscapedTokens(s)
    decreases |s|
  {
    hide Value, TokenValue;
    if HasPrefix(s, "${") {
      EscapedValue(s[2..], vars);
      ValueOfHead(Escape, EscapedTokens(s[2..]), vars);
      TokenValues(vars);
      PrefixSplits(s, "${");
    } else if s != [] {
      EscapedValue(s[1..], vars);
      ValueOfHead(Literal(s[0]), EscapedTokens(s[1..]), vars);
      TokenValues(vars);
    } else {
      ValueOfNone(vars);
    }
  }

  lemma ValueOfNone(vars: map<string, string>)
    ensures Value([], vars) == []
  {
  }

  lemma TokenValues(vars: map<string, string>)
    ensures TokenValue(Escape, vars) == "${"
    ensures forall c :: TokenValue(Literal(c), vars) == [c]
  {
  }

  /** Escaping every opening makes any string a constant: it expands to itself, whatever the
      variables hold, and misses none. */
  lemma {:induction false} EscapingRoundTrips(s: string, vars: map<string, string>)
    ensures Value(TokensOf(Escaped(s)), vars) == s
    ensures forall name :: !Unbound(TokensOf(Escaped(s)), vars, name)
  {
    EscapedReads(s);
    ReadingIsUnique(Escaped(s), EscapedTokens(s), TokensOf(Escaped(s)));
    EscapedValue(s, vars);
  }

  // ---------- trees ----------

  /** Some string in the value refers to this name. */
  ghost predicate Mentions(v: Json.Value, name: string)
    decreases v
  {
    match v
    case Str(s) => Reference(name) in TokensOf(s)
    case List(items) => exists i :: 0 <= i < |items| && Mentions(items[i], name)
    case Obj(fields) => exists key :: key in fields && Mentions(fields[key], name)
    case _ => false
  }

  /** The value with its strings expanded and everything else as it was. */
  ghost function Expanded(v: Json.Value, vars: map<string, string>): Json.Value
    decreases v
  {
    match v
    case Str(s) => Str(Value(TokensOf(s), vars))
    case List(items) => List(seq(|items|, i requires 0 <= i < |items| => Expanded(items[i], vars)))
    case Obj(fields) => Obj(map key | key in fields :: Expanded(fields[key], vars))
    case _ => v
  }

  /** The same keys, the same lengths, the same leaves but for what strings say. */
  ghost predicate SameShape(a: Json.Value, b: Json.Value)
    decreases a
  {
    match a
    case Str(_) => b.Str?
    case List(items) => b.List? && |b.items| == |items| && forall i :: 0 <= i < |items| ==>
        SameShape(items[i], b.items[i])
    case Obj(fields) => b.Obj? && b.fields.Keys == fields.Keys
        && forall key <- fields :: SameShape(fields[key], b.fields[key])
    case _ => b == a
  }

  lemma {:induction false} ExpandingKeepsShape(v: Json.Value, vars: map<string, string>)
    ensures SameShape(v, Expanded(v, vars))
    decreases v
  {
    match v
    case List(items) =>
      forall i | 0 <= i < |items| ensures SameShape(items[i], Expanded(items[i], vars)) {
        ExpandingKeepsShape(items[i], vars);
      }
    case Obj(fields) =>
      forall key | key in fields ensures SameShape(fields[key], Expanded(fields[key], vars)) {
        ExpandingKeepsShape(fields[key], vars);
      }
    case _ =>
  }

  /** Every string anywhere in a value is expanded where it stands. */
  lemma {:induction false} EveryStringExpanded(v: Json.Value, s: string, vars: map<string, string>)
    requires Json.Within(v, Str(s))
    ensures Json.Within(Expanded(v, vars), Str(Value(TokensOf(s), vars)))
    decreases v
  {
    hide Value, TokensOf;
    match v
    case Str(_) =>
    case List(items) =>
      var i :| 0 <= i < |items| && Json.Within(items[i], Str(s));
      EveryStringExpanded(items[i], s, vars);
      assert Expanded(v, vars).items[i] == Expanded(items[i], vars);
    case Obj(fields) =>
      var key :| key in fields && Json.Within(fields[key], Str(s));
      EveryStringExpanded(fields[key], s, vars);
      assert Expanded(v, vars).fields[key] == Expanded(fields[key], vars);
    case _ =>
  }

  /** And a value mentions what its strings mention. */
  lemma {:induction false} MentionsIff(v: Json.Value, name: string)
    ensures Mentions(v, name) <==> exists s :: Json.Within(v, Str(s)) && Reference(name) in TokensOf(s)
    decreases v
  {
    hide TokensOf;
    match v
    case Str(s) =>
      assert Json.Within(v, Str(s));
    case List(items) =>
      forall i | 0 <= i < |items|
        ensures Mentions(items[i], name) <==>
                exists s :: Json.Within(items[i], Str(s)) && Reference(name) in TokensOf(s)
      {
        MentionsIff(items[i], name);
      }
    case Obj(fields) =>
      forall key | key in fields
        ensures Mentions(fields[key], name) <==>
                exists s :: Json.Within(fields[key], Str(s)) && Reference(name) in TokensOf(s)
      {
        MentionsIff(fields[key], name);
      }
    case _ =>
  }

  /** The name has one value in both, or none in either. */
  predicate Alike(vars: map<string, string>, others: map<string, string>, name: string) {
    (name in vars <==> name in others) && (name in vars ==> vars[name] == others[name])
  }

  /** Variables the value does not mention change nothing. */
  lemma {:induction false} OnlyMentionedMatter(v: Json.Value, vars: map<string, string>, others: map<string, string>)
    requires forall name :: Mentions(v, name) ==> Alike(vars, others, name)
    ensures Expanded(v, vars) == Expanded(v, others)
    decreases v
  {
    hide Alike, Value, TokensOf;
    match v
    case Str(s) =>
      SameValue(TokensOf(s), vars, others);
    case List(items) =>
      forall i | 0 <= i < |items| ensures Expanded(items[i], vars) == Expanded(items[i], others) {
        OnlyMentionedMatter(items[i], vars, others);
      }
      assert Expanded(v, vars).items == Expanded(v, others).items;
    case Obj(fields) =>
      forall key | key in fields ensures Expanded(fields[key], vars) == Expanded(fields[key], others) {
        OnlyMentionedMatter(fields[key], vars, others);
      }
      assert Expanded(v, vars).fields == Expanded(v, others).fields;
    case _ =>
  }

  lemma {:induction false} SameValue(ts: seq<Token>, vars: map<string, string>, others: map<string, string>)
    requires forall name :: Reference(name) in ts ==> Alike(vars, others, name)
    ensures Value(ts, vars) == Value(ts, others)
  {
    if ts != [] {
      assert TokenValue(ts[0], vars) == TokenValue(ts[0], others) by {
        assert ts[0] in ts;
      }
      hide TokenValue, Alike;
      SameValue(ts[1..], vars, others);
    }
  }

  /** expandValue: what was missing before and what this value misses; a mapping in any order. */
  method ExpandValue(v: Json.Value, vars: map<string, string>, missing: set<string>)
    returns (r: Json.Value, missing': set<string>)
    ensures r == Expanded(v, vars)
    ensures forall name :: name in missing' <==> name in missing || (Mentions(v, name) && name !in vars)
    decreases v, 1
  {
    match v
    case Obj(fields) =>
      r, missing' := ExpandFields(v, vars, missing);
    case List(items) =>
      r, missing' := ExpandItems(v, vars, missing);
    case Str(s) =>
      var text;
      text, missing' := Expand(s, vars, missing);
      r := Str(text);
    case _ =>
      r, missing' := v, missing;
  }

  ghost predicate MentionedIn(fields: map<string, Json.Value>, keys: set<string>, name: string) {
    exists key <- keys :: key in fields && Mentions(fields[key], name)
  }

  lemma OneMoreKey(fields: map<string, Json.Value>, left: set<string>, key: string)
    requires left <= fields.Keys && key in left
    ensures forall name :: MentionedIn(fields, fields.Keys - (left - {key}), name) <==>
                           MentionedIn(fields, fields.Keys - left, name) || Mentions(fields[key], name)
  {
    hide Mentions;
    forall name | Mentions(fields[key], name) ensures MentionedIn(fields, fields.Keys - (left - {key}), name) {
      assert key in fields.Keys - (left - {key});
    }
  }

  lemma ExpandedFields(v: Json.Value, vars: map<string, string>, out: map<string, Json.Value>)
    requires v.Obj? && out.Keys == v.fields.Keys && forall key <- v.fields :: out[key] == Expanded(v.fields[key], vars)
    ensures Obj(out) == Expanded(v, vars)
    ensures forall name :: Mentions(v, name) <==> MentionedIn(v.fields, v.fields.Keys - {}, name)
  {
    assert out == Expanded(v, vars).fields;
    forall name ensures Mentions(v, name) <==> MentionedIn(v.fields, v.fields.Keys - {}, name) {
      if Mentions(v, name) {
        var key :| key in v.fields && Mentions(v.fields[key], name);
        assert key in v.fields.Keys - {};
      }
    }
  }

  method ExpandFields(v: Json.Value, vars: map<string, string>, missing: set<string>)
    returns (r: Json.Value, missing': set<string>)
    requires v.Obj?
    ensures r == Expanded(v, vars)
    ensures forall name :: name in missing' <==> name in missing || (Mentions(v, name) && name !in vars)
    decreases v, 0
  {
    hide Mentions, Expanded, MentionedIn;
    var fields := v.fields;
    var typed, left := fields, fields.Keys;
    missing' := missing;
    NothingMentioned(fields);
    while left != {}
      invariant left <= fields.Keys == typed.Keys
      invariant forall key <- fields :: typed[key] == if key in left then fields[key] else Expanded(fields[key], vars)
      invariant forall name :: name in missing' <==>
                  name in missing || (MentionedIn(fields, fields.Keys - left, name) && name !in vars)
      decreases |left|
    {
      var key :| key in left;
      OneMoreKey(fields, left, key);
      left := left - {key};
      assert typed[key] == fields[key] && fields[key] < v;
      var nested;
      nested, missing' := ExpandValue(typed[key], vars, missing');
      typed := typed[key := nested];
    }
    ExpandedFields(v, vars, typed);
    r := Obj(typed);
  }

  lemma NothingMentioned(fields: map<string, Json.Value>)
    ensures forall name :: !MentionedIn(fields, fields.Keys - fields.Keys, name)
  {
  }

  ghost predicate MentionedBefore(items: seq<Json.Value>, i: nat, name: string)
    requires i <= |items|
  {
    exists j :: 0 <= j < i && Mentions(items[j], name)
  }

  lemma OneMoreItem(items: seq<Json.Value>, i: nat)
    requires i < |items|
    ensures forall name :: (
              MentionedBefore(items, i + 1, name) <==>
              MentionedBefore(items, i, name) || Mentions(items[i], name))
    ensures forall name :: !MentionedBefore(items, 0, name)
  {
    hide Mentions;
  }

  lemma ExpandedItems(v: Json.Value, vars: map<string, string>, out: seq<Json.Value>)
    requires v.List? && |out| == |v.items| && forall i :: 0 <= i < |out| ==> out[i] == Expanded(v.items[i], vars)
    ensures List(out) == Expanded(v, vars)
    ensures forall name :: Mentions(v, name) <==> MentionedBefore(v.items, |v.items|, name)
  {
    assert out == Expanded(v, vars).items;
  }

  method ExpandItems(v: Json.Value, vars: map<string, string>, missing: set<string>)
    returns (r: Json.Value, missing': set<string>)
    requires v.List?
    ensures r == Expanded(v, vars)
    ensures forall name :: name in missing' <==> name in missing || (Mentions(v, name) && name !in vars)
    decreases v, 0
  {
    var items := v.items;
    var typed := items;
    missing' := missing;
    assert forall name :: !MentionedBefore(items, 0, name);
    hide Mentions, Expanded, MentionedBefore;
    for i := 0 to |items|
      invariant |typed| == |items|
      invariant forall j :: 0 <= j < |items| ==> typed[j] == if j < i then Expanded(items[j], vars) else items[j]
      invariant forall name :: name in missing' <==>
                  name in missing || (MentionedBefore(items, i, name) && name !in vars)
    {
      OneMoreItem(items, i);
      assert typed[i] == items[i] && items[i] < v;
      var nested;
      nested, missing' := ExpandValue(typed[i], vars, missing');
      typed := typed[i := nested];
    }
    ExpandedItems(v, vars, typed);
    r := List(typed);
  }

  // ---------- the objects of a pack ----------

  datatype Substituted = Done | MissingNames(names: seq<string>)

  ghost predicate MissesOne(objs: seq<Json.Value>, vars: map<string, string>, name: string) {
    name !in vars && MentionedBefore(objs, |objs|, name)
  }

  /** substitute: every object expanded; the failure names every name any of them misses, once
      each, in order. */
  method SubstituteAll(objs: seq<Json.Value>, vars: map<string, string>)
    returns (out: seq<Json.Value>, outcome: Substituted)
    ensures |out| == |objs| && forall i :: 0 <= i < |objs| ==> out[i] == Expanded(objs[i], vars)
    ensures outcome.Done? <==> forall name :: !MissesOne(objs, vars, name)
    ensures outcome.MissingNames? ==>
              SortedNames(outcome.names) && forall name :: name in outcome.names <==> MissesOne(objs, vars, name)
  {
    var missing: set<string> := {};
    out := objs;
    assert forall name :: !MentionedBefore(objs, 0, name);
    for i := 0 to |objs|
      invariant |out| == |objs|
      invariant forall j :: 0 <= j < |objs| ==> out[j] == if j < i then Expanded(objs[j], vars) else objs[j]
      invariant forall name :: name in missing <==> MentionedBefore(objs, i, name) && name !in vars
    {
      hide Mentions, Expanded, MentionedBefore;
      OneMoreItem(objs, i);
      var obj;
      obj, missing := ExpandValue(out[i], vars, missing);
      out := out[i := obj];
    }
    hide Mentions, Expanded, MentionedBefore;
    if |missing| == 0 {
      return out, Done;
    }
    var some :| some in missing;
    assert MissesOne(objs, vars, some);
    var names := SortedKeys(missing);
    assert forall name :: name in names <==> name in Elements(names);
    return out, MissingNames(names);
  }

  // ---------- flat values ----------

  datatype Flat = Strings(vars: map<string, string>) | NotFlat(name: string)

  /** flatStringValues: only strings, or the first name, in order, that is not one. */
  method FlatStringValues(values: map<string, Json.Value>) returns (r: Flat)
    ensures r.Strings? <==> forall name <- values :: values[name].Str?
    ensures r.Strings? ==> r.vars.Keys == values.Keys && forall name <- values :: values[name] == Str(r.vars[name])
    ensures r.NotFlat? ==>
              && r.name in values && !values[r.name].Str?
              && forall name <- values :: !values[name].Str? ==> Precedes(r.name, name)
  {
    var out: map<string, string> := map[];
    var names := SortedKeys(values.Keys);
    assert forall name :: name in values <==> name in Elements(names);
    for i := 0 to |names|
      invariant out.Keys == Elements(names[..i])
      invariant forall j :: 0 <= j < i ==> names[j] in out && values[names[j]] == Str(out[names[j]])
    {
      var name := names[i];
      assert name in Elements(names);
      assert names[..i + 1] == names[..i] + [name];
      if !values[name].Str? {
        forall other <- values | !values[other].Str? ensures Precedes(name, other) {
          assert other in Elements(names);
          var k :| 0 <= k < |names| && names[k] == other;
          PrecedesRefl(name);
        }
        return NotFlat(name);
      }
      out := out[name := values[name].s];
    }
    assert names[..|names|] == names;
    forall name <- values ensures name in out && values[name] == Str(out[name]) {
      assert name in Elements(names);
      var k :| 0 <= k < |names| && names[k] == name;
    }
    return Strings(out);
  }
}
