/** How a pack instance's values are assembled: inline values as a JSON merge patch over a base,
    with whole numbers read as integers. */
module MergePatch {
  import opened Json
  import opened Wrappers

  // ---------- RFC 7386 ----------

  /** A member of the target, where a missing one is no object. */
  function Member(target: map<string, Value>, name: string): Value {
    if name in target then target[name] else Null
  }

  function Fields(v: Value): map<string, Value> {
    if v.Obj? then v.fields else map[]
  }

  /** Section 2 of RFC 7386, in no order. */
  function Merged(target: Value, patch: Value): Value
    decreases patch
  {
    if !patch.Obj? then patch
    else
      var t := Fields(target);
      Obj(map name | name in t.Keys + patch.fields.Keys && (name in patch.fields ==> patch.fields[name] != Null) ::
            if name in patch.fields then Merged(Member(t, name), patch.fields[name]) else t[name])
  }

  /** The target with only these names of the patch applied. */
  ghost function AppliedOver(base: map<string, Value>, patch: map<string, Value>, names: set<string>)
    : map<string, Value>
    requires names <= patch.Keys
  {
    map name | name in base.Keys + names && (name in names ==> patch[name] != Null) ::
      if name in names then Merged(Member(base, name), patch[name]) else base[name]
  }

  lemma OneMoreName(base: map<string, Value>, patch: map<string, Value>, names: set<string>, name: string)
    requires names <= patch.Keys && name in patch && name !in names
    ensures var before, now := AppliedOver(base, patch, names), AppliedOver(base, patch, names + {name});
            && (name in before <==> name in base)
            && (name in base ==> before[name] == base[name])
            && now == if patch[name] == Null then before - {name}
                      else before[name := Merged(Member(base, name), patch[name])]
  {
    hide Merged;
  }

  /** mergePatch. Go's map iteration order is arbitrary; so is the choice here. */
  method MergeInto(base: map<string, Value>, patch: map<string, Value>) returns (merged: map<string, Value>)
    ensures Obj(merged) == Merged(Obj(base), Obj(patch))
    decreases Obj(patch)
  {
    hide Merged, AppliedOver;
    merged := base;
    var left := patch.Keys;
    NoNameYet(base, patch);
    while left != {}
      invariant left <= patch.Keys && merged == AppliedOver(base, patch, patch.Keys - left)
      decreases |left|
    {
      var name :| name in left;
      OneMoreName(base, patch, patch.Keys - left, name);
      assert patch.Keys - left + {name} == patch.Keys - (left - {name});
      left := left - {name};
      var value := patch[name];
      match value
      case Null =>
        merged := merged - {name};
      case Obj(fields) =>
        var sub := if name in merged && merged[name].Obj? then merged[name].fields else map[];
        var part := MergeInto(sub, fields);
        FieldsOnly(Member(base, name), value);
        merged := merged[name := Obj(part)];
      case _ =>
        ReplacedWhole(Member(base, name), value);
        merged := merged[name := value];
    }
    EveryName(base, patch);
  }

  lemma NoNameYet(base: map<string, Value>, patch: map<string, Value>)
    ensures AppliedOver(base, patch, patch.Keys - patch.Keys) == base
  {
  }

  lemma EveryName(base: map<string, Value>, patch: map<string, Value>)
    ensures Obj(AppliedOver(base, patch, patch.Keys - {})) == Merged(Obj(base), Obj(patch))
  {
    assert AppliedOver(base, patch, patch.Keys - {}) == Merged(Obj(base), Obj(patch)).fields;
  }

  lemma ReplacedWhole(target: Value, patch: Value)
    requires !patch.Obj?
    ensures Merged(target, patch) == patch
  {
  }

  lemma FieldsOnly(target: Value, patch: Value)
    requires patch.Obj?
    ensures Merged(target, patch) == Merged(Obj(Fields(target)), patch)
  {
    assert Fields(Obj(Fields(target))) == Fields(target);
  }

  // ---------- what a patch decides ----------

  lemma {:induction false} MergeIdempotent(target: Value, patch: Value)
    ensures Merged(Merged(target, patch), patch) == Merged(target, patch)
    decreases patch
  {
    if patch.Obj? {
      var once, twice := Merged(target, patch), Merged(Merged(target, patch), patch);
      assert twice.fields.Keys == once.fields.Keys;
      forall name | name in once.fields ensures twice.fields[name] == once.fields[name] {
        if name in patch.fields {
          MergeIdempotent(Member(Fields(target), name), patch.fields[name]);
        }
      }
    }
  }

  /** The patch says nothing about this path: somewhere along it a mapping leaves it out. */
  predicate Silent(patch: Value, path: seq<string>) {
    && path != []
    && patch.Obj?
    && (path[0] in patch.fields ==> Silent(patch.fields[path[0]], path[1..]))
  }

  lemma {:induction false} SilentPathsKept(target: Value, patch: Value, path: seq<string>)
    requires Silent(patch, path)
    ensures At(Merged(target, patch), path) == At(target, path)
    decreases path
  {
    var name := path[0];
    if name in patch.fields {
      SilentPathsKept(Member(Fields(target), name), patch.fields[name], path[1..]);
      assert path[1..] != [];
    }
  }

  /** A path the patch names is decided by the patch alone: null removes it, and any other value
      but a mapping, a list included, replaces what was there. */
  lemma {:induction false} NamedPathsDecided(target: Value, patch: Value, path: seq<string>)
    requires path != [] && patch.Obj? && At(patch, path).Some? && !At(patch, path).value.Obj?
    ensures At(Merged(target, patch), path) == if At(patch, path).value == Null then None else At(patch, path)
    decreases path
  {
    var name := path[0];
    if |path| > 1 {
      NamedPathsDecided(Member(Fields(target), name), patch.fields[name], path[1..]);
    } else {
      assert path[1..] == [];
    }
  }

  /** Every path is one or the other, or leads the patch into a mapping, or runs on below a value
      that replaces what was there. */
  lemma {:induction false} PathsClassified(patch: Value, path: seq<string>)
    requires patch.Obj?
    ensures Silent(patch, path) || At(patch, path).Some?
            || exists n :: 0 < n < |path| && At(patch, path[..n]).Some? && !At(patch, path[..n]).value.Obj?
    decreases path
  {
    if path != [] && path[0] in patch.fields {
      var sub, rest := patch.fields[path[0]], path[1..];
      if sub.Obj? {
        PathsClassified(sub, rest);
        if n :| 0 < n < |rest| && At(sub, rest[..n]).Some? && !At(sub, rest[..n]).value.Obj? {
          assert path[..n + 1][1..] == rest[..n];
          assert At(patch, path[..n + 1]) == At(sub, rest[..n]);
        }
      } else if rest != [] {
        assert path[..1][1..] == [];
        assert At(patch, path[..1]) == Some(sub);
      }
    }
  }

  lemma {:induction false} BelowReplacedIsGone(target: Value, patch: Value, path: seq<string>, n: nat)
    requires patch.Obj? && 0 < n < |path|
    requires At(patch, path[..n]).Some? && !At(patch, path[..n]).value.Obj?
    ensures At(Merged(target, patch), path) == None
    decreases path
  {
    var name := path[0];
    assert path[..n][1..] == path[1..][..n - 1];
    if n > 1 {
      BelowReplacedIsGone(Member(Fields(target), name), patch.fields[name], path[1..], n - 1);
    } else {
      assert path[..1][1..] == [];
      assert path[1..] != [];
    }
  }

  // ---------- whole numbers ----------

  const MAX_EXACT_INT := 0x20_0000_0000_0000

  predicate WholeAndExact(x: real) {
    x == x.Floor as real && -MAX_EXACT_INT <= x.Floor <= MAX_EXACT_INT
  }

  function Normalized(value: Value): Value
    decreases value
  {
    match value
    case Obj(fields) => Obj(map name | name in fields :: Normalized(fields[name]))
    case List(items) => List(seq(|items|, i requires 0 <= i < |items| => Normalized(items[i])))
    case Num(x) => if WholeAndExact(x) then Int(x.Floor) else value
    case _ => value
  }

  function Trunc(x: real): int {
    if x >= 0.0 then x.Floor else -(-x).Floor
  }

  function Abs(x: real): real {
    if x < 0.0 then -x else x
  }

  lemma FloorOfWhole(n: int)
    ensures (n as real).Floor == n
  {
  }

  lemma TruncWhole(x: real)
    ensures x == Trunc(x) as real <==> x == x.Floor as real
    ensures x == x.Floor as real ==> Trunc(x) == x.Floor
  {
    if x < 0.0 {
      if x == x.Floor as real {
        assert -x == (-x.Floor) as real;
        FloorOfWhole(-x.Floor);
      }
      if x == Trunc(x) as real { FloorOfWhole(Trunc(x)); }
    }
  }

  lemma NormalizedNumber(x: real)
    ensures x == Trunc(x) as real && Abs(x) <= MAX_EXACT_INT as real <==> WholeAndExact(x)
    ensures WholeAndExact(x) ==> Trunc(x) == x.Floor
  {
    TruncWhole(x);
    hide Trunc;
    var max := MAX_EXACT_INT;
    var n := x.Floor;
    assert x == n as real ==> (Abs(x) <= max as real <==> -max <= n <= max);
  }

  lemma NormalizedFields(fields: map<string, Value>, v: map<string, Value>)
    requires v.Keys == fields.Keys && forall name <- fields :: v[name] == Normalized(fields[name])
    ensures Obj(v) == Normalized(Obj(fields))
  {
    assert v == Normalized(Obj(fields)).fields;
  }

  lemma NormalizedItems(items: seq<Value>, v: seq<Value>)
    requires |v| == |items| && forall i :: 0 <= i < |items| ==> v[i] == Normalized(items[i])
    ensures List(v) == Normalized(List(items))
  {
    assert v == Normalized(List(items)).items;
  }

  /** normalizeNumbers, a mapping's entries in any order. */
  method NormalizeNumbers(value: Value) returns (r: Value)
    ensures r == Normalized(value)
    decreases value, 1
  {
    match value
    case Obj(fields) =>
      r := NormalizeFields(fields, value);
    case List(items) =>
      r := NormalizeItems(items, value);
    case Num(x) =>
      NormalizedNumber(x);
      if x == Trunc(x) as real && Abs(x) <= MAX_EXACT_INT as real {
        return Int(Trunc(x));
      }
      return value;
    case _ =>
      return value;
  }

  method NormalizeFields(fields: map<string, Value>, ghost whole: Value) returns (r: Value)
    requires whole == Obj(fields)
    ensures r == Normalized(whole)
    decreases whole, 0
  {
    hide Normalized;
    var v, left := fields, fields.Keys;
    while left != {}
      invariant left <= fields.Keys && v.Keys == fields.Keys
      invariant forall name <- fields :: v[name] == if name in left then fields[name] else Normalized(fields[name])
      decreases |left|
    {
      var name :| name in left;
      left := left - {name};
      assert v[name] == fields[name] && fields[name] < whole;
      var item := NormalizeNumbers(v[name]);
      v := v[name := item];
    }
    NormalizedFields(fields, v);
    r := Obj(v);
  }

  method NormalizeItems(items: seq<Value>, ghost whole: Value) returns (r: Value)
    requires whole == List(items)
    ensures r == Normalized(whole)
    decreases whole, 0
  {
    hide Normalized;
    var v := items;
    for i := 0 to |items|
      invariant |v| == |items|
      invariant forall j :: 0 <= j < |v| ==> v[j] == if j < i then Normalized(items[j]) else items[j]
    {
      assert v[i] == items[i] && items[i] < whole;
      var item := NormalizeNumbers(v[i]);
      v := v[i := item];
    }
    NormalizedItems(items, v);
    r := List(v);
  }

  /** The value with every integer read as a number again. */
  function AsNumbers(value: Value): Value
    decreases value
  {
    match value
    case Obj(fields) => Obj(map name | name in fields :: AsNumbers(fields[name]))
    case List(items) => List(seq(|items|, i requires 0 <= i < |items| => AsNumbers(items[i])))
    case Int(i) => Num(i as real)
    case _ => value
  }

  /** Normalising changes how a number is held, never which number it is. */
  lemma {:induction false} NormalizingIsExact(value: Value)
    ensures AsNumbers(Normalized(value)) == AsNumbers(value)
    decreases value
  {
    match value
    case Obj(fields) =>
      forall name | name in fields ensures AsNumbers(Normalized(fields[name])) == AsNumbers(fields[name]) {
        NormalizingIsExact(fields[name]);
      }
      assert AsNumbers(Normalized(value)).fields == AsNumbers(value).fields;
    case List(items) =>
      forall i | 0 <= i < |items| ensures AsNumbers(Normalized(items[i])) == AsNumbers(items[i]) {
        NormalizingIsExact(items[i]);
      }
      assert AsNumbers(Normalized(value)).items == AsNumbers(value).items;
    case _ =>
  }

  /** No number anywhere that should be an integer. */
  ghost predicate Settled(value: Value)
    decreases value
  {
    match value
    case Obj(fields) => forall name <- fields :: Settled(fields[name])
    case List(items) => forall i :: 0 <= i < |items| ==> Settled(items[i])
    case Num(x) => !WholeAndExact(x)
    case _ => true
  }

  lemma {:induction false} NormalizedIsSettled(value: Value)
    ensures Settled(Normalized(value))
    decreases value
  {
    match value
    case Obj(fields) =>
      forall name | name in fields ensures Settled(Normalized(fields[name])) {
        NormalizedIsSettled(fields[name]);
      }
    case List(items) =>
      forall i | 0 <= i < |items| ensures Settled(Normalized(items[i])) {
        NormalizedIsSettled(items[i]);
      }
    case _ =>
  }

  lemma {:induction false} SettledIffUnchanged(value: Value)
    ensures Settled(value) <==> Normalized(value) == value
    decreases value
  {
    match value
    case Obj(fields) =>
      forall name | name in fields ensures Settled(fields[name]) <==> Normalized(fields[name]) == fields[name] {
        SettledIffUnchanged(fields[name]);
      }
      if Settled(value) { assert Normalized(value).fields == fields; }
      if Normalized(value) == value {
        forall name | name in fields ensures Settled(fields[name]) {
          assert Normalized(value).fields[name] == Normalized(fields[name]);
        }
      }
    case List(items) =>
      forall i | 0 <= i < |items| ensures Settled(items[i]) <==> Normalized(items[i]) == items[i] {
        SettledIffUnchanged(items[i]);
      }
      if Settled(value) { assert Normalized(value).items == items; }
      if Normalized(value) == value {
        forall i | 0 <= i < |items| ensures Settled(items[i]) {
          assert Normalized(value).items[i] == Normalized(items[i]);
        }
      }
    case _ =>
  }

  lemma {:induction false} NormalizingIsIdempotent(value: Value)
    ensures Normalized(Normalized(value)) == Normalized(value)
  {
    NormalizedIsSettled(value);
    SettledIffUnchanged(Normalized(value));
  }

  lemma {:induction false} NormalizedMember(v: Value, name: string)
    ensures Fields(Normalized(v)).Keys == Fields(v).Keys
    ensures Normalized(Member(Fields(v), name)) == Member(Fields(Normalized(v)), name)
    ensures Normalized(v) == Null <==> v == Null
  {
  }

  /** Normalising the merged values is merging the normalised ones. */
  lemma {:induction false} NormalizingCommutes(target: Value, patch: Value)
    ensures Normalized(Merged(target, patch)) == Merged(Normalized(target), Normalized(patch))
    decreases patch
  {
    if patch.Obj? {
      var t, p := Fields(target), patch.fields;
      forall name | name in p
        ensures Normalized(Merged(Member(t, name), p[name])) == Merged(Normalized(Member(t, name)), Normalized(p[name]))
      {
        NormalizingCommutes(Member(t, name), p[name]);
      }
      CommutesByMember(target, patch);
    }
  }

  lemma {:induction false} CommutesByMember(target: Value, patch: Value)
    requires patch.Obj?
    requires var t, p := Fields(target), patch.fields;
             forall name <- p ::
               Normalized(Merged(Member(t, name), p[name])) == Merged(Normalized(Member(t, name)), Normalized(p[name]))
    ensures Normalized(Merged(target, patch)) == Merged(Normalized(target), Normalized(patch))
  {
    hide Normalized, Merged, Member;
    BothMappings(target, patch);
    var l, r := Normalized(Merged(target, patch)).fields, Merged(Normalized(target), Normalized(patch)).fields;
    forall name ensures name in l <==> name in r {
      SameNames(target, patch, name);
    }
    forall name | name in l ensures l[name] == r[name] {
      SameEntry(target, patch, name);
    }
    assert l == r;
  }

  lemma BothMappings(target: Value, patch: Value)
    requires patch.Obj?
    ensures Normalized(Merged(target, patch)).Obj? && Merged(Normalized(target), Normalized(patch)).Obj?
  {
  }

  lemma {:induction false} SameEntry(target: Value, patch: Value, name: string)
    requires patch.Obj? && name in Normalized(Merged(target, patch)).fields
    requires name in Merged(Normalized(target), Normalized(patch)).fields
    requires var t, p := Fields(target), patch.fields;
             name in p ==>
               Normalized(Merged(Member(t, name), p[name])) == Merged(Normalized(Member(t, name)), Normalized(p[name]))
    ensures Normalized(Merged(target, patch)).fields[name] == Merged(Normalized(target), Normalized(patch)).fields[name]
  {
    NormalizedMember(target, name);
  }

  lemma {:induction false} SameNames(target: Value, patch: Value, name: string)
    requires patch.Obj?
    ensures name in Normalized(Merged(target, patch)).fields
        <==> name in Merged(Normalized(target), Normalized(patch)).fields
  {
    hide Merged, Normalized;
    NormalizedKeys(patch);
    NormalizedKeys(Merged(target, patch));
    NormalizedMember(target, name);
    MergedNames(target, patch, name);
    MergedNames(Normalized(target), Normalized(patch), name);
    if name in patch.fields { NormalizedMember(patch.fields[name], name); }
  }

  lemma MergedNames(target: Value, patch: Value, name: string)
    requires patch.Obj?
    ensures Merged(target, patch).Obj?
    ensures name in Merged(target, patch).fields <==>
            if name in patch.fields then patch.fields[name] != Null else name in Fields(target)
  {
  }

  lemma NormalizedKeys(v: Value)
    ensures v.Obj? <==> Normalized(v).Obj?
    ensures v.Obj? ==> Normalized(v).fields.Keys == v.fields.Keys
    ensures v.Obj? ==> forall name <- v.fields :: Normalized(v).fields[name] == Normalized(v.fields[name])
  {
  }

  /** Which numbers become integers: the whole ones of magnitude up to 2^53. */
  lemma WholeNumbersConvert(x: real, n: int)
    ensures Normalized(Num(x)) == Int(n) <==> x == n as real && -9007199254740992 <= n <= 9007199254740992
  {
    FloorOfWhole(n);
  }

  /** And none of those is left anywhere in a settled value. */
  lemma {:induction false} NoneIsLeft(v: Value, x: real, n: int)
    requires Settled(v) && Within(v, Num(x)) && x == n as real
    ensures n < -9007199254740992 || 9007199254740992 < n
    decreases v
  {
    hide WholeAndExact;
    match v
    case Num(_) =>
      WholeNumbersConvert(x, n);
    case List(items) =>
      var i :| 0 <= i < |items| && Within(items[i], Num(x));
      NoneIsLeft(items[i], x, n);
    case Obj(fields) =>
      var key :| key in fields && Within(fields[key], Num(x));
      NoneIsLeft(fields[key], x, n);
    case _ =>
  }

  // ---------- instanceValues ----------

  datatype Values = Nil | Mapping(fields: map<string, Value>)

  /** No values at all, or a mapping. A missing patch is not an empty one, but either changes
      nothing that is there. */
  method InstanceValues(base: Values, patch: Values) returns (values: Values)
    ensures values.Nil? <==> base.Nil? && patch.Nil?
    ensures values.Mapping? ==>
              Obj(values.fields) == Merged(Normalized(Obj(Entries(base))), Normalized(Obj(Entries(patch))))
    ensures values.Mapping? ==> Settled(Obj(values.fields))
  {
    var merged := base;
    if patch.Mapping? {
      var fields := MergeInto(Entries(base), patch.fields);
      merged := Mapping(fields);
    } else {
      EmptyPatch(Entries(base));
    }
    if merged.Nil? {
      return Nil;
    }
    var normal := NormalizeNumbers(Obj(merged.fields));
    NormalizedIsSettled(Obj(merged.fields));
    NormalizingCommutes(Obj(Entries(base)), Obj(Entries(patch)));
    return Mapping(normal.fields);
  }

  function Entries(v: Values): map<string, Value> {
    if v.Nil? then map[] else v.fields
  }

  lemma EmptyPatch(base: map<string, Value>)
    ensures Merged(Obj(base), Obj(map[])) == Obj(base)
  {
    assert Merged(Obj(base), Obj(map[])).fields == base;
  }
}
