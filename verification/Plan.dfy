/** Assembling a render plan: the pack's own objects, its namespace, substitution, and the external
    manifests declared beside it. */
module Plan {
  import opened Json
  import opened Scopes
  import opened Wrappers
  import Text
  import Substitute

  datatype Plan = Plan(prerequisites: seq<Object>, objects: seq<Object>)

  datatype Failure =
    | NamespaceConflict(at: nat)
    | BadExternal(at: nat)
    | ValuesNotFlat(name: string)
    | Unresolved(names: seq<string>)

  // ---------- external manifests ----------

  /** Where an entry's object comes from, already fetched and decoded. */
  datatype Origin =
    | Inline(obj: Object)
    | Documents(docs: seq<Object>)
    | Undecodable
    | Unfetched

  datatype External = External(pre: bool, origin: Origin)

  predicate IsKubernetesObject(doc: Object) {
    VersionOf(doc) != "" && KindOf(doc) != ""
  }

  datatype Carried = Carries(obj: Object) | Nothing

  /** externalObject: an inline manifest as it is; a reference must hold exactly one object. */
  function ExternalObject(entry: External): Carried {
    match entry.origin
    case Inline(obj) => Carries(obj)
    case Documents(docs) => if |docs| == 1 && IsKubernetesObject(docs[0]) then Carries(docs[0]) else Nothing
    case _ => Nothing
  }

  /** What an entry has to be to hold an object: inline, or a reference to a single document that
      says its apiVersion and its kind. */
  lemma CarriesIff(entry: External, obj: Object)
    ensures ExternalObject(entry) == Carries(obj) <==>
            || entry.origin == Inline(obj)
            || (entry.origin == Documents([obj])
                && (exists v, k: string :: v != "" && k != ""
                      && At(Obj(obj), ["apiVersion"]) == Some(Str(v)) && At(Obj(obj), ["kind"]) == Some(Str(k))))
  {
    match entry.origin
    case Documents(docs) =>
      if |docs| == 1 { assert docs == [docs[0]]; }
    case _ =>
  }

  /** The objects of the entries that are, or are not, prerequisites, in declaration order. */
  function Group(entries: seq<External>, pre: bool): seq<Object> {
    if entries == [] then []
    else
      var n := |entries| - 1;
      Group(entries[..n], pre)
      + if entries[n].pre == pre && ExternalObject(entries[n]).Carries? then [ExternalObject(entries[n]).obj] else []
  }

  /** Each group holds the objects of the entries of its lifecycle. */
  lemma {:induction false} GroupMembers(entries: seq<External>, pre: bool, obj: Object)
    ensures obj in Group(entries, pre) <==>
            exists e :: e in entries && e.pre == pre && ExternalObject(e) == Carries(obj)
  {
    hide ExternalObject;
    if entries != [] {
      var n := |entries| - 1;
      GroupMembers(entries[..n], pre, obj);
      assert entries == entries[..n] + [entries[n]];
    }
  }

  datatype Groups = Groups(pre: seq<Object>, with: seq<Object>)

  method ResolveExternalManifests(entries: seq<External>) returns (r: Result<Groups, Failure>)
    ensures r.Ok? <==> forall i :: 0 <= i < |entries| ==> ExternalObject(entries[i]).Carries?
    ensures r.Ok? ==> r.value == Groups(Group(entries, true), Group(entries, false))
    ensures r.Err? ==>
              && r.error.BadExternal? && r.error.at < |entries| && ExternalObject(entries[r.error.at]).Nothing?
              && forall j :: 0 <= j < r.error.at ==> ExternalObject(entries[j]).Carries?
  {
    hide ExternalObject;
    var pre: seq<Object>, with: seq<Object> := [], [];
    for i := 0 to |entries|
      invariant pre == Group(entries[..i], true) && with == Group(entries[..i], false)
      invariant forall j :: 0 <= j < i ==> ExternalObject(entries[j]).Carries?
    {
      assert entries[..i + 1][..i] == entries[..i];
      var carried := ExternalObject(entries[i]);
      if carried.Nothing? {
        return Err(BadExternal(i));
      }
      if entries[i].pre {
        pre := pre + [carried.obj];
        continue;
      }
      with := with + [carried.obj];
    }
    assert entries[..|entries|] == entries;
    return Ok(Groups(pre, with));
  }

  /** Splitting by lifecycle keeps declaration order in each group: it goes piece by piece. */
  lemma {:induction false} GroupConcat(a: seq<External>, b: seq<External>, pre: bool)
    ensures Group(a + b, pre) == Group(a, pre) + Group(b, pre)
  {
    hide ExternalObject;
    if b == [] {
      assert a + b == a;
    } else {
      assert (a + b)[..|a + b| - 1] == a + b[..|b| - 1];
      GroupConcat(a, b[..|b| - 1], pre);
    }
  }

  function Objects(entries: seq<External>): seq<Object>
    requires forall e <- entries :: ExternalObject(e).Carries?
  {
    seq(|entries|, i requires 0 <= i < |entries| => ExternalObject(entries[i]).obj)
  }

  lemma OneMore(a: seq<Object>, b: seq<Object>, all: seq<Object>, obj: Object)
    requires multiset(a) + multiset(b) == multiset(all)
    ensures multiset(a + [obj]) + multiset(b) == multiset(all + [obj])
    ensures multiset(a) + multiset(b + [obj]) == multiset(all + [obj])
  {
  }

  /** Nothing is lost and nothing is doubled. */
  lemma {:induction false} GroupsPartition(entries: seq<External>)
    requires forall e <- entries :: ExternalObject(e).Carries?
    ensures multiset(Group(entries, true)) + multiset(Group(entries, false)) == multiset(Objects(entries))
  {
    hide ExternalObject;
    if entries == [] {
      assert Group(entries, true) == [] && Group(entries, false) == [];
    } else {
      var n := |entries| - 1;
      assert entries[n] in entries;
      hide Group;
      GroupsPartition(entries[..n]);
      var obj := ExternalObject(entries[n]).obj;
      var pre, with := Group(entries[..n], true), Group(entries[..n], false);
      OneMore(pre, with, Objects(entries[..n]), obj);
      assert Objects(entries) == Objects(entries[..n]) + [obj];
      LastGroup(entries);
    }
  }

  lemma LastGroup(entries: seq<External>)
    requires entries != [] && ExternalObject(entries[|entries| - 1]).Carries?
    ensures var n := |entries| - 1; var last := [ExternalObject(entries[n]).obj];
            && Group(entries, entries[n].pre) == Group(entries[..n], entries[n].pre) + last
            && Group(entries, !entries[n].pre) == Group(entries[..n], !entries[n].pre)
  {
    hide ExternalObject;
    var n := |entries| - 1;
    assert Group(entries[..n], !entries[n].pre) + [] == Group(entries[..n], !entries[n].pre);
  }

  // ---------- raw packs ----------

  ghost predicate NoConflict(scopes: Index, ns: string, objs: seq<Object>) {
    forall i :: 0 <= i < |objs| ==> !Conflicts(scopes, ns, objs[i])
  }

  method PlanRaw(objs: seq<Object>, ns: string) returns (r: Result<seq<Object>, Failure>)
    ensures r.Ok? <==> NoConflict(IndexOf(objs), ns, objs)
    ensures r.Ok? ==> r.value == PlacedAll(IndexOf(objs), ns, objs)
  {
    var scopes := IndexCRDScopes(objs);
    var placed, outcome := ApplyNamespace(objs, ns, scopes);
    if outcome.Conflict? {
      return Err(NamespaceConflict(outcome.at));
    }
    return Ok(placed);
  }

  /** attachExternal: the groups are placed by the index of the plan's own objects. */
  method AttachExternal(objects: seq<Object>, entries: seq<External>, ns: string) returns (r: Result<Plan, Failure>)
    ensures var scopes, pre, with := IndexOf(objects), Group(entries, true), Group(entries, false);
            && (r.Ok? <==>
                  && (forall i :: 0 <= i < |entries| ==> ExternalObject(entries[i]).Carries?)
                  && NoConflict(scopes, ns, pre) && NoConflict(scopes, ns, with))
            && (r.Ok? ==> r.value == Plan(PlacedAll(scopes, ns, pre), objects + PlacedAll(scopes, ns, with)))
  {
    hide ExternalObject, IndexOf, Conflicts, Placed, Group;
    var groups := ResolveExternalManifests(entries);
    if groups.Err? {
      return Err(groups.error);
    }
    var scopes := IndexCRDScopes(objects);
    var pre, preOutcome := ApplyNamespace(groups.value.pre, ns, scopes);
    if preOutcome.Conflict? {
      return Err(NamespaceConflict(preOutcome.at));
    }
    var with, withOutcome := ApplyNamespace(groups.value.with, ns, scopes);
    if withOutcome.Conflict? {
      return Err(NamespaceConflict(withOutcome.at));
    }
    return Ok(Plan(pre, objects + with));
  }

  /** A raw instance succeeds exactly when every external entry holds its object and nothing, own
      or external, conflicts under the one index of the pack's own objects; and everything in the
      plan is then placed by that index, own objects first. The index attachExternal rebuilds from
      the placed objects is that same one. */
  method RenderRawInstance(objs: seq<Object>, entries: seq<External>, ns: string) returns (r: Result<Plan, Failure>)
    ensures var scopes, pre, with := IndexOf(objs), Group(entries, true), Group(entries, false);
            && (r.Ok? <==>
                  && (forall i :: 0 <= i < |entries| ==> ExternalObject(entries[i]).Carries?)
                  && NoConflict(scopes, ns, objs) && NoConflict(scopes, ns, pre) && NoConflict(scopes, ns, with))
            && (r.Ok? ==>
                  && r.value.prerequisites == PlacedAll(scopes, ns, pre)
                  && r.value.objects == PlacedAll(scopes, ns, objs) + PlacedAll(scopes, ns, with))
  {
    hide ExternalObject, IndexOf, Conflicts, Placed, Group, NoConflict;
    var own := PlanRaw(objs, ns);
    if own.Err? {
      return Err(own.error);
    }
    PlacedKeepsIndex(IndexOf(objs), ns, objs);
    r := AttachExternal(own.value, entries, ns);
  }

  // ---------- kustomize packs ----------

  ghost function ExpandedObject(o: Object, vars: map<string, string>): Object {
    Substitute.Expanded(Obj(o), vars).fields
  }

  /** The variables the pack's values name. */
  function VarsOf(values: map<string, Value>): map<string, string> {
    map name | name in values && values[name].Str? :: values[name].s
  }

  function Wrapped(objs: seq<Object>): seq<Value> {
    seq(|objs|, i requires 0 <= i < |objs| => Obj(objs[i]))
  }

  /** Every object placed, then expanded. */
  ghost function KustomizeObjects(objs: seq<Object>, ns: string, vars: map<string, string>): seq<Object> {
    seq(|objs|, i requires 0 <= i < |objs| => ExpandedObject(Placed(IndexOf(objs), ns, objs[i]), vars))
  }

  ghost predicate Flat(values: map<string, Value>) {
    forall name <- values :: values[name].Str?
  }

  ghost predicate Missing(objs: seq<Object>, ns: string, vars: map<string, string>, name: string) {
    Substitute.MissesOne(Wrapped(PlacedAll(IndexOf(objs), ns, objs)), vars, name)
  }

  /** A kustomize pack renders: its values are strings, no object conflicts, no name is unbound. */
  ghost predicate Renders(objs: seq<Object>, ns: string, values: map<string, Value>) {
    && Flat(values)
    && NoConflict(IndexOf(objs), ns, objs)
    && forall name :: !Missing(objs, ns, VarsOf(values), name)
  }

  method PlanKustomize(objs: seq<Object>, ns: string, values: map<string, Value>)
    returns (r: Result<seq<Object>, Failure>)
    ensures r.Ok? <==> Renders(objs, ns, values)
    ensures r.Ok? ==> r.value == KustomizeObjects(objs, ns, VarsOf(values))
    ensures r.Err? && r.error.Unresolved? ==>
              forall name :: name in r.error.names <==> Missing(objs, ns, VarsOf(values), name)
  {
    hide Substitute.Expanded, Substitute.Mentions, Substitute.MissesOne, IndexOf, Placed, Conflicts;
    var flat := Substitute.FlatStringValues(values);
    if flat.NotFlat? {
      return Err(ValuesNotFlat(flat.name));
    }
    var vars := flat.vars;
    assert vars == VarsOf(values);
    var scopes := IndexCRDScopes(objs);
    var placed, outcome := ApplyNamespace(objs, ns, scopes);
    if outcome.Conflict? {
      return Err(NamespaceConflict(outcome.at));
    }
    var out, done := Substitute.SubstituteAll(Wrapped(placed), vars);
    if done.MissingNames? {
      ghost var name :| Substitute.MissesOne(Wrapped(placed), vars, name);
      assert Missing(objs, ns, vars, name);
      return Err(Unresolved(done.names));
    }
    var own := Unwrapped(placed, vars, out);
    KustomizeByObject(objs, ns, vars, own);
    return Ok(own);
  }

  method Unwrapped(objs: seq<Object>, vars: map<string, string>, values: seq<Value>) returns (out: seq<Object>)
    requires |values| == |objs|
    requires forall i :: 0 <= i < |objs| ==> values[i] == Substitute.Expanded(Wrapped(objs)[i], vars)
    ensures |out| == |objs|
    ensures forall i :: 0 <= i < |objs| ==> out[i] == ExpandedObject(objs[i], vars)
  {
    out := [];
    for i := 0 to |objs|
      invariant |out| == i && forall j :: 0 <= j < i ==> out[j] == ExpandedObject(objs[j], vars)
    {
      assert values[i] == Substitute.Expanded(Obj(objs[i]), vars);
      out := out + [values[i].fields];
    }
  }

  lemma KustomizeByObject(objs: seq<Object>, ns: string, vars: map<string, string>, own: seq<Object>)
    requires |own| == |objs|
    requires forall i :: 0 <= i < |objs| ==> own[i] == ExpandedObject(PlacedAll(IndexOf(objs), ns, objs)[i], vars)
    ensures own == KustomizeObjects(objs, ns, vars)
  {
    hide ExpandedObject, Placed, IndexOf;
  }

  method RenderKustomizeInstance(objs: seq<Object>, entries: seq<External>, ns: string, values: map<string, Value>)
    returns (r: Result<Plan, Failure>)
    ensures var own := KustomizeObjects(objs, ns, VarsOf(values));
            var pre, with := Group(entries, true), Group(entries, false);
            && (r.Ok? <==>
                  && Renders(objs, ns, values)
                  && (forall i :: 0 <= i < |entries| ==> ExternalObject(entries[i]).Carries?)
                  && NoConflict(IndexOf(own), ns, pre) && NoConflict(IndexOf(own), ns, with))
            && (r.Ok? ==>
                  && r.value.prerequisites == PlacedAll(IndexOf(own), ns, pre)
                  && r.value.objects == own + PlacedAll(IndexOf(own), ns, with))
  {
    hide ExternalObject, IndexOf, Conflicts, Placed, Group, NoConflict, KustomizeObjects, VarsOf, Renders;
    var own := PlanKustomize(objs, ns, values);
    if own.Err? {
      return Err(own.error);
    }
    r := AttachExternal(own.value, entries, ns);
  }

  // ---------- is it the same index? ----------

  lemma {:induction false} LiteralExpands(s: string, vars: map<string, string>)
    requires '$' !in s
    ensures Substitute.Value(Substitute.TokensOf(s), vars) == s
  {
    if s != [] {
      Substitute.NotAnOpening(s);
      Substitute.TokensOfLiteral(s);
      LiteralExpands(s[1..], vars);
      var rest := Substitute.TokensOf(s[1..]);
      Substitute.ValueOfHead(Substitute.Literal(s[0]), rest, vars);
      assert s == [s[0]] + s[1..];
    }
  }

  lemma {:induction false} ExpandedAt(v: Value, vars: map<string, string>, path: seq<string>)
    ensures At(Substitute.Expanded(v, vars), path) ==
              match At(v, path) { case None => None case Some(x) => Some(Substitute.Expanded(x, vars)) }
    decreases |path|
  {
    if path != [] && v.Obj? && path[0] in v.fields {
      ExpandedAt(v.fields[path[0]], vars, path[1..]);
    }
  }

  lemma ExpandedText(o: Object, vars: map<string, string>, path: seq<string>)
    ensures NestedString(ExpandedObject(o, vars), path) ==
              Substitute.Value(Substitute.TokensOf(NestedString(o, path)), vars)
  {
    ExpandedAt(Obj(o), vars, path);
    assert Obj(ExpandedObject(o, vars)) == Substitute.Expanded(Obj(o), vars);
    assert Substitute.TokensOf("") == [];
    hide At, Substitute.TokensOf;
  }

  ghost function ExpandedString(s: string, vars: map<string, string>): string {
    Substitute.Value(Substitute.TokensOf(s), vars)
  }

  /** What the object defines after substitution, read off its five identity texts before it. */
  ghost function ExpandedDefinition(o: Object, vars: map<string, string>): Definition {
    Defined(ExpandedString(KindOf(o), vars), ExpandedString(VersionOf(o), vars),
            ExpandedString(NestedString(o, GROUP_PATH), vars),
            ExpandedString(NestedString(o, KIND_PATH), vars),
            ExpandedString(NestedString(o, SCOPE_PATH), vars))
  }

  ghost function ExpandedIndex(objs: seq<Object>, vars: map<string, string>): Index {
    IndexOfAll(seq(|objs|, i requires 0 <= i < |objs| => ExpandedDefinition(objs[i], vars)))
  }

  lemma PlacedExpands(scopes: Index, ns: string, o: Object, vars: map<string, string>)
    ensures DefinitionOf(ExpandedObject(Placed(scopes, ns, o), vars)) == ExpandedDefinition(o, vars)
  {
    hide NestedString, ExpandedObject, Placed, Defined, Substitute.Value, Substitute.TokensOf;
    var p := Placed(scopes, ns, o);
    PlacedKeepsTexts(scopes, ns, o);
    ExpandedText(p, vars, [KIND]);
    ExpandedText(p, vars, [API_VERSION]);
    ExpandedText(p, vars, GROUP_PATH);
    ExpandedText(p, vars, KIND_PATH);
    ExpandedText(p, vars, SCOPE_PATH);
  }

  /** The index attachExternal rebuilds, from what is known before the call. */
  lemma RebuiltIndex(objs: seq<Object>, ns: string, vars: map<string, string>)
    ensures IndexOf(KustomizeObjects(objs, ns, vars)) == ExpandedIndex(objs, vars)
  {
    hide DefinitionOf, ExpandedDefinition, ExpandedObject, Placed, IndexOfAll;
    var own := KustomizeObjects(objs, ns, vars);
    forall i | 0 <= i < |objs| ensures DefinitionsOf(own)[i] == ExpandedDefinition(objs[i], vars) {
      PlacedExpands(IndexOf(objs), ns, objs[i], vars);
    }
    assert DefinitionsOf(own) == seq(|objs|, i requires 0 <= i < |objs| => ExpandedDefinition(objs[i], vars));
  }

  // ---------- do two indexes judge alike? ----------

  /** They put every object there could be on the same side. */
  ghost predicate JudgeAlike(a: Index, b: Index) {
    forall o: Object :: ClusterScoped(a, o) == ClusterScoped(b, o)
  }

  predicate Declares(scopes: Index, key: Key) {
    key in scopes && scopes[key]
  }

  /** Some object's apiVersion and kind lead to this entry, and no built-in kind forestalls it. */
  predicate Consulted(key: Key) {
    '/' !in key.group && !BuiltInClusterScoped(key.kind)
  }

  /** The entries that are consulted at all agree on what is cluster-scoped. */
  predicate SameEntries(a: Index, b: Index) {
    forall key <- a.Keys + b.Keys :: Consulted(key) ==> Declares(a, key) == Declares(b, key)
  }

  /** An object of that group and kind. */
  function Instance(key: Key): Object {
    map[KIND := Str(key.kind), API_VERSION := Str(key.group + "/v1")]
  }

  lemma InstanceReads(key: Key)
    requires '/' !in key.group
    ensures var o := Instance(key); KindOf(o) == key.kind && ApiGroup(VersionOf(o)) == key.group
    ensures NamespaceOf(Instance(key)) == "" && Settable(Instance(key))
  {
    var o := Instance(key);
    var version := key.group + "/v1";
    PathsAvoidMetadata();
    assert KIND[0] == 'k' && API_VERSION[0] == 'a';
    assert [KIND][1..] == [] && [API_VERSION][1..] == [];
    assert At(Obj(o), [KIND]) == At(Str(key.kind), []);
    assert At(Obj(o), [API_VERSION]) == At(Str(version), []);
    assert version == key.group + ['/'] + "v1" && '/' in version;
    Text.SplitField(key.group, "v1", '/');
    NamespaceRead(o);
  }

  lemma GroupHasNoSlash(version: string)
    ensures '/' !in ApiGroup(version)
  {
    Text.SplitFields(version, '/');
  }

  lemma JudgeAlikeIff(a: Index, b: Index)
    ensures JudgeAlike(a, b) <==> SameEntries(a, b)
  {
    hide BuiltInClusterScoped, KindOf, VersionOf, ApiGroup;
    if SameEntries(a, b) {
      forall o: Object ensures ClusterScoped(a, o) == ClusterScoped(b, o) {
        var key := Key(ApiGroup(VersionOf(o)), KindOf(o));
        GroupHasNoSlash(VersionOf(o));
        assert key in a.Keys + b.Keys ==> Consulted(key) ==> Declares(a, key) == Declares(b, key);
      }
    }
    if JudgeAlike(a, b) {
      forall key <- a.Keys + b.Keys | Consulted(key) ensures Declares(a, key) == Declares(b, key) {
        InstanceReads(key);
        assert ClusterScoped(a, Instance(key)) == ClusterScoped(b, Instance(key));
      }
    }
  }

  /** The comment on attachExternal says the rebuilt index gives the answer the own objects got. For
      a kustomize pack it does, for every object there could be, exactly when the definitions the
      pack's identity texts spell before and after substitution agree on the entries consulted. */
  lemma KustomizeJudgesAlikeIff(objs: seq<Object>, ns: string, vars: map<string, string>)
    ensures JudgeAlike(IndexOf(objs), IndexOf(KustomizeObjects(objs, ns, vars)))
            <==> SameEntries(IndexOf(objs), ExpandedIndex(objs, vars))
  {
    hide JudgeAlike, SameEntries, IndexOf, ExpandedIndex, KustomizeObjects;
    RebuiltIndex(objs, ns, vars);
    JudgeAlikeIff(IndexOf(objs), ExpandedIndex(objs, vars));
  }

  /** In particular it is the same index when substitution changes no definition. */
  lemma KustomizeIndexKept(objs: seq<Object>, ns: string, vars: map<string, string>)
    requires forall o <- objs :: ExpandedDefinition(o, vars) == DefinitionOf(o)
    ensures IndexOf(KustomizeObjects(objs, ns, vars)) == IndexOf(objs)
  {
    hide DefinitionOf, ExpandedDefinition, KustomizeObjects, IndexOfAll;
    RebuiltIndex(objs, ns, vars);
    assert DefinitionsOf(objs) == seq(|objs|, i requires 0 <= i < |objs| => ExpandedDefinition(objs[i], vars));
  }

  lemma TextKept(o: Object, vars: map<string, string>, path: seq<string>)
    requires '$' !in NestedString(o, path)
    ensures NestedString(ExpandedObject(o, vars), path) == NestedString(o, path)
  {
    hide NestedString, ExpandedObject;
    ExpandedText(o, vars, path);
    LiteralExpands(NestedString(o, path), vars);
  }

  /** The own objects that were put in the namespace are still in it after substitution. */
  lemma KustomizeStaysPlaced(objs: seq<Object>, ns: string, vars: map<string, string>, i: nat)
    requires i < |objs| && ns != "" && '$' !in ns && Settable(objs[i])
    requires !ClusterScoped(IndexOf(objs), objs[i]) && !Conflicts(IndexOf(objs), ns, objs[i])
    ensures NamespaceOf(KustomizeObjects(objs, ns, vars)[i]) == ns
  {
    var p := Placed(IndexOf(objs), ns, objs[i]);
    InNamespaceIff(IndexOf(objs), ns, objs[i]);
    assert KustomizeObjects(objs, ns, vars)[i] == ExpandedObject(p, vars);
    hide Placed, ExpandedObject, NestedString, Settable, ClusterScoped;
    TextKept(p, vars, [METADATA, NAMESPACE]);
  }

  function DefinitionWith(kind: Value, version: Value, group: Value, defines: Value, scope: Value): Object {
    map[KIND := kind, API_VERSION := version,
        SPEC := Obj(map["group" := group, "names" := Obj(map[KIND := defines]), "scope" := scope])]
  }

  /** A definition whose scope may be left to a variable. */
  function Deferred(scope: string): Object {
    DefinitionWith(Str(CRD_KIND), Str(CRD_GROUP + "/v1"), Str("g"), Str("K"), Str(scope))
  }

  lemma DeferredReads(scope: string)
    ensures var o := Deferred(scope);
            && KindOf(o) == CRD_KIND && VersionOf(o) == CRD_GROUP + "/v1"
            && NestedString(o, GROUP_PATH) == "g" && NestedString(o, KIND_PATH) == "K"
            && NestedString(o, SCOPE_PATH) == scope
  {
    var o := Deferred(scope);
    PathsAvoidMetadata();
    assert KIND != API_VERSION && KIND != SPEC && API_VERSION != SPEC by {
      assert |KIND| == 4 && |API_VERSION| == 10 && SPEC[0] == 's' && KIND[0] == 'k';
    }
    var spec := o[SPEC];
    assert "group" != "scope" && "names" != "scope" && "group" != "names" by {
      assert "group"[0] == 'g' && "scope"[0] == 's' && "names"[0] == 'n';
    }
    assert [KIND][1..] == [] && [API_VERSION][1..] == [];
    assert GROUP_PATH[1..] == ["group"] && SCOPE_PATH[1..] == ["scope"] && KIND_PATH[1..] == ["names", KIND];
    assert ["group"][1..] == [] && ["scope"][1..] == [] && ["names", KIND][1..] == [KIND];
    assert At(Obj(o), [KIND]) == At(Str(CRD_KIND), []);
    assert At(Obj(o), [API_VERSION]) == At(Str(CRD_GROUP + "/v1"), []);
    assert At(spec, ["group"]) == At(Str("g"), []);
    assert At(spec, ["scope"]) == At(Str(scope), []);
    var names := spec.fields["names"];
    assert At(names, [KIND]) == At(Str("K"), []);
    assert At(spec, ["names", KIND]) == At(names, [KIND]);
  }

  lemma CrdGroupReads()
    ensures ApiGroup(CRD_GROUP + "/v1") == CRD_GROUP
  {
    var version := CRD_GROUP + "/v1";
    assert version == CRD_GROUP + ['/'] + "v1" && '/' in version;
    Text.SplitField(CRD_GROUP, "v1", '/');
  }

  lemma ReferenceExpands(name: string, value: string)
    requires Substitute.IsVarName(name)
    ensures Substitute.Value(Substitute.TokensOf("${" + name + "}"), map[name := value]) == value
  {
    var s := "${" + name + "}";
    Substitute.TokensOfReference(s, name);
    assert s[|name| + 3..] == [];
    assert Substitute.TokensOf([]) == [];
    Substitute.ValueOfHead(Substitute.Reference(name), [], map[name := value]);
  }

  lemma DeferredDefines(scope: string)
    ensures DefinitionOf(Deferred(scope)) == Defined(CRD_KIND, CRD_GROUP + "/v1", "g", "K", scope)
    ensures BuiltInClusterScoped(KindOf(Deferred(scope)))
  {
    hide NestedString, Deferred, Defined;
    DeferredReads(scope);
  }

  lemma DeferredExpands(scope: string, vars: map<string, string>)
    ensures ExpandedDefinition(Deferred(scope), vars) ==
            Defined(CRD_KIND, CRD_GROUP + "/v1", "g", "K", ExpandedString(scope, vars))
  {
    hide NestedString, Deferred, Defined, ExpandedString;
    DeferredReads(scope);
    DeferredLiterals(vars);
  }

  lemma DeferredLiterals(vars: map<string, string>)
    ensures ExpandedString(CRD_KIND, vars) == CRD_KIND
    ensures ExpandedString(CRD_GROUP + "/v1", vars) == CRD_GROUP + "/v1"
    ensures ExpandedString("g", vars) == "g" && ExpandedString("K", vars) == "K"
  {
    hide Substitute.TokensOf, Substitute.Value;
    LiteralExpands(CRD_KIND, vars);
    LiteralExpands(CRD_GROUP + "/v1", vars);
    LiteralExpands("g", vars);
    LiteralExpands("K", vars);
  }

  lemma ScopeDecides(scope: string)
    ensures Defined(CRD_KIND, CRD_GROUP + "/v1", "g", "K", SCOPE_CLUSTER) == Defines(CUSTOM, true)
    ensures scope != [] && scope[0] == '$' ==> Defined(CRD_KIND, CRD_GROUP + "/v1", "g", "K", scope) == NotOne
  {
    hide ApiGroup;
    CrdGroupReads();
    assert SCOPE_CLUSTER[0] == 'C' && SCOPE_NAMESPACED[0] == 'N';
  }

  lemma {:induction false} LiteralMentionsNothing(s: string)
    requires '$' !in s
    ensures forall name :: Substitute.Reference(name) !in Substitute.TokensOf(s)
  {
    if s == [] {
      assert Substitute.TokensOf(s) == [];
    } else {
      Substitute.NotAnOpening(s);
      Substitute.TokensOfLiteral(s);
      LiteralMentionsNothing(s[1..]);
    }
  }

  lemma FieldsSilent(a: string, x: Value, b: string, y: Value, c: string, z: Value, name: string)
    requires !Substitute.Mentions(x, name) && !Substitute.Mentions(y, name) && !Substitute.Mentions(z, name)
    ensures !Substitute.Mentions(Obj(map[a := x, b := y, c := z]), name)
    ensures !Substitute.Mentions(Obj(map[a := x]), name)
  {
  }

  lemma LiteralIsSilent(s: string, name: string)
    requires '$' !in s
    ensures !Substitute.Mentions(Str(s), name)
  {
    LiteralMentionsNothing(s);
  }

  lemma LiteralsSilent(name: string)
    ensures !Substitute.Mentions(Str(CRD_KIND), name) && !Substitute.Mentions(Str(CRD_GROUP + "/v1"), name)
    ensures !Substitute.Mentions(Str("g"), name) && !Substitute.Mentions(Str("K"), name)
  {
    hide Substitute.Mentions;
    LiteralIsSilent(CRD_KIND, name);
    LiteralIsSilent(CRD_GROUP + "/v1", name);
    LiteralIsSilent("g", name);
    LiteralIsSilent("K", name);
  }

  lemma DefinitionSilent(kind: Value, version: Value, group: Value, defines: Value, scope: Value, name: string)
    requires !Substitute.Mentions(kind, name) && !Substitute.Mentions(version, name)
        && !Substitute.Mentions(group, name)
    requires !Substitute.Mentions(defines, name) && !Substitute.Mentions(scope, name)
    ensures !Substitute.Mentions(Obj(DefinitionWith(kind, version, group, defines, scope)), name)
  {
    hide Substitute.Mentions;
    var names := Obj(map[KIND := defines]);
    FieldsSilent(KIND, defines, "", defines, "", defines, name);
    var spec := Obj(map["group" := group, "names" := names, "scope" := scope]);
    FieldsSilent("group", group, "names", names, "scope", scope, name);
    FieldsSilent(KIND, kind, API_VERSION, version, SPEC, spec, name);
  }

  lemma DeferredMentions(scope: string, name: string)
    requires Substitute.Reference(name) !in Substitute.TokensOf(scope)
    ensures !Substitute.Mentions(Obj(Deferred(scope)), name)
  {
    assert !Substitute.Mentions(Str(scope), name);
    hide Substitute.Mentions, Substitute.TokensOf, DefinitionWith;
    LiteralsSilent(name);
    DefinitionSilent(Str(CRD_KIND), Str(CRD_GROUP + "/v1"), Str("g"), Str("K"), Str(scope), name);
  }

  /** The group and kind the definition is of. */
  const CUSTOM := Key("g", "K")

  /** The one-object pack of such a definition renders, whatever namespace it forces. */
  lemma DeferredMissesNothing(name: string, ns: string, other: string)
    requires Substitute.IsVarName(name)
    ensures !Missing([Deferred("${" + name + "}")], ns, VarsOf(map[name := Str(SCOPE_CLUSTER)]), other)
  {
    var scope := "${" + name + "}";
    var o := Deferred(scope);
    hide Deferred, Substitute.TokensOf, Substitute.Mentions, IndexOf, BuiltInClusterScoped, KindOf,
        Substitute.IsVarName;
    DeferredDefines(scope);
    assert Placed(IndexOf([o]), ns, o) == o;
    assert PlacedAll(IndexOf([o]), ns, [o]) == [o];
    assert Wrapped([o]) == [Obj(o)];
    if other != name {
      OnlyReference(name, other);
      DeferredMentions(scope, other);
    }
  }

  /** The one-object pack of such a definition renders, whatever namespace it forces. */
  lemma DeferredRenders(name: string, ns: string)
    requires Substitute.IsVarName(name)
    ensures Renders([Deferred("${" + name + "}")], ns, map[name := Str(SCOPE_CLUSTER)])
  {
    hide Deferred, IndexOf, BuiltInClusterScoped, KindOf, Substitute.IsVarName, Missing, VarsOf;
    DeferredDefines("${" + name + "}");
    forall other ensures !Missing([Deferred("${" + name + "}")], ns, VarsOf(map[name := Str(SCOPE_CLUSTER)]), other) {
      DeferredMissesNothing(name, ns, other);
    }
  }

  lemma OnlyReference(name: string, other: string)
    requires Substitute.IsVarName(name) && other != name
    ensures Substitute.Reference(other) !in Substitute.TokensOf("${" + name + "}")
  {
    var s := "${" + name + "}";
    Substitute.TokensOfReference(s, name);
    assert s[|name| + 3..] == [];
    assert Substitute.TokensOf([]) == [];
  }

  lemma OneDefinition(d: Definition)
    ensures IndexOfAll([d]) == match d { case NotOne => map[] case Defines(key, cluster) => map[key := cluster] }
  {
    assert [d][..0] == [];
  }

  lemma DeferredIndexes(name: string, ns: string)
    requires Substitute.IsVarName(name)
    ensures var objs := [Deferred("${" + name + "}")];
            && IndexOf(objs) == map[]
            && IndexOf(KustomizeObjects(objs, ns, map[name := SCOPE_CLUSTER])) == map[CUSTOM := true]
  {
    var scope := "${" + name + "}";
    var objs, vars := [Deferred(scope)], map[name := SCOPE_CLUSTER];
    assert scope[0] == '$';
    hide Deferred, Defined, DefinitionOf, ExpandedDefinition, IndexOfAll, KustomizeObjects, Substitute.IsVarName,
         Substitute.TokensOf, Substitute.Value;
    ScopeDecides(scope);
    DeferredDefines(scope);
    assert DefinitionsOf(objs) == [DefinitionOf(objs[0])];
    OneDefinition(DefinitionOf(objs[0]));
    RebuiltIndex(objs, ns, vars);
    DeferredExpands(scope, vars);
    ReferenceExpands(name, SCOPE_CLUSTER);
    assert seq(|objs|, i requires 0 <= i < |objs| => ExpandedDefinition(objs[i], vars))
        == [ExpandedDefinition(objs[0], vars)];
    OneDefinition(ExpandedDefinition(objs[0], vars));
  }

  lemma OneVariable(name: string, text: string)
    ensures VarsOf(map[name := Str(text)]) == map[name := text]
  {
  }

  lemma CustomIsNoBuiltIn()
    ensures !BuiltInClusterScoped("K")
  {
    assert |"K"| == 1;
  }

  /** They do not always agree. A pack whose definition leaves its scope to a variable renders; by
      the index of its own objects an external manifest of that kind belongs in the namespace, by
      the rebuilt index it does not, and attachExternal leaves it out. */
  lemma SubstitutedScopeDiffers(name: string, ns: string)
    requires Substitute.IsVarName(name) && ns != ""
    ensures var objs, values := [Deferred("${" + name + "}")], map[name := Str(SCOPE_CLUSTER)];
            var own := KustomizeObjects(objs, ns, VarsOf(values));
            var external := Instance(CUSTOM);
            && Renders(objs, ns, values)
            && NamespaceOf(Placed(IndexOf(objs), ns, external)) == ns
            && NamespaceOf(Placed(IndexOf(own), ns, external)) == ""
  {
    hide Deferred, Renders, VarsOf, Instance, IndexOf, KustomizeObjects, NamespaceOf, WithNamespace,
         BuiltInClusterScoped, KindOf, VersionOf, ApiGroup, Substitute.IsVarName;
    var objs, values := [Deferred("${" + name + "}")], map[name := Str(SCOPE_CLUSTER)];
    var external := Instance(CUSTOM);
    OneVariable(name, SCOPE_CLUSTER);
    CustomIsNoBuiltIn();
    DeferredRenders(name, ns);
    DeferredIndexes(name, ns);
    InstanceReads(CUSTOM);
    NamespaceSet(external, ns);
  }
}
