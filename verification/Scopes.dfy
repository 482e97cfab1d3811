/** Which objects of a pack live in a namespace, and forcing the pack's namespace on them. */
module Scopes {
  import opened Json
  import opened Wrappers
  import opened Text

  type Object = map<string, Value>

  // ---------- reading and writing an object ----------

  /** unstructured.NestedString, and the accessors built on it: anything but a string is "". */
  function NestedString(o: Object, path: seq<string>): string {
    match At(Obj(o), path)
    case Some(Str(s)) => s
    case _ => ""
  }

  const API_VERSION := "apiVersion"
  const KIND := "kind"
  const METADATA := "metadata"
  const NAMESPACE := "namespace"
  const SPEC := "spec"

  function KindOf(o: Object): string { NestedString(o, [KIND]) }

  function VersionOf(o: Object): string { NestedString(o, [API_VERSION]) }

  function NamespaceOf(o: Object): string { NestedString(o, [METADATA, NAMESPACE]) }

  /** There is a metadata mapping to write into, or room for one. */
  predicate Settable(o: Object) {
    METADATA in o ==> o[METADATA].Obj?
  }

  /** unstructured.SetNamespace; its failure, when metadata is something else, goes unreported. */
  function WithNamespace(o: Object, ns: string): Object {
    if !Settable(o) then o
    else
      var metadata := if METADATA in o then o[METADATA].fields else map[];
      o[METADATA := Obj(metadata[NAMESPACE := Str(ns)])]
  }

  lemma NamespaceRead(o: Object)
    ensures NamespaceOf(o) ==
              if METADATA in o && o[METADATA].Obj? && NAMESPACE in o[METADATA].fields
                  && o[METADATA].fields[NAMESPACE].Str?
              then o[METADATA].fields[NAMESPACE].s else ""
  {
    var path := [METADATA, NAMESPACE];
    assert path[1..] == [NAMESPACE] && [NAMESPACE][1..] == [];
    if METADATA in o {
      assert At(Obj(o), path) == At(o[METADATA], [NAMESPACE]);
      if o[METADATA].Obj? && NAMESPACE in o[METADATA].fields {
        assert At(o[METADATA], [NAMESPACE]) == At(o[METADATA].fields[NAMESPACE], []);
      }
    }
  }

  lemma NamespaceSet(o: Object, ns: string)
    ensures NamespaceOf(WithNamespace(o, ns)) == if Settable(o) then ns else ""
    ensures WithNamespace(WithNamespace(o, ns), ns) == WithNamespace(o, ns)
  {
    NamespaceRead(WithNamespace(o, ns));
    hide NamespaceOf;
    if Settable(o) {
      var metadata := if METADATA in o then o[METADATA].fields else map[];
      var once := WithNamespace(o, ns);
      assert once[METADATA].fields[NAMESPACE := Str(ns)] == once[METADATA].fields;
      assert WithNamespace(once, ns) == once;
    }
  }

  /** Nothing is written but metadata.namespace: not the rest of the metadata, nor anything else. */
  lemma OnlyTheNamespace(o: Object, ns: string, path: seq<string>)
    requires path != [] && (path[0] != "metadata" || (|path| > 1 && path[1] != "namespace"))
    ensures At(Obj(WithNamespace(o, ns)), path) == At(Obj(o), path)
  {
    var r := WithNamespace(o, ns);
    if path[0] == "metadata" && "metadata" in r && r["metadata"].Obj? {
      assert At(Obj(r), path) == At(r["metadata"], path[1..]);
      if "metadata" in o { assert At(Obj(o), path) == At(o["metadata"], path[1..]); }
    }
  }

  /** Only the metadata is written to. */
  lemma OnlyMetadata(o: Object, ns: string, path: seq<string>)
    requires path != [] && path[0] != METADATA
    ensures NestedString(WithNamespace(o, ns), path) == NestedString(o, path)
  {
  }

  // ---------- the definitions a pack bundles ----------

  const CRD_KIND := "CustomResourceDefinition"
  const CRD_GROUP := "apiextensions.k8s.io"
  const SCOPE_CLUSTER := "Cluster"
  const SCOPE_NAMESPACED := "Namespaced"

  const GROUP_PATH: seq<string> := [SPEC, "group"]
  const KIND_PATH: seq<string> := [SPEC, "names", KIND]
  const SCOPE_PATH: seq<string> := [SPEC, "scope"]

  datatype Key = Key(group: string, kind: string)

  datatype Definition = NotOne | Defines(key: Key, cluster: bool)

  /** The group half of an apiVersion. */
  function ApiGroup(version: string): string {
    if '/' in version then Split(version, '/')[0] else ""
  }

  /** What an object's identity says it defines. */
  function Defined(kind: string, version: string, group: string, defines: string, scope: string): Definition {
    if kind != CRD_KIND || ApiGroup(version) != CRD_GROUP then NotOne
    else if defines == "" || (scope != SCOPE_CLUSTER && scope != SCOPE_NAMESPACED) then NotOne
    else Defines(Key(group, defines), scope == SCOPE_CLUSTER)
  }

  function DefinitionOf(o: Object): Definition {
    Defined(KindOf(o), VersionOf(o),
            NestedString(o, GROUP_PATH), NestedString(o, KIND_PATH), NestedString(o, SCOPE_PATH))
  }

  /** The definitions: a CustomResourceDefinition of its API group, in any version, that names a kind
      and says one of the two scopes. */
  lemma DefinesIff(o: Object, group: string, kind: string, cluster: bool)
    ensures DefinitionOf(o) == Defines(Key(group, kind), cluster) <==>
            && NestedString(o, ["kind"]) == "CustomResourceDefinition"
            && (exists v: string :: NestedString(o, ["apiVersion"]) == "apiextensions.k8s.io/" + v)
            && NestedString(o, ["spec", "group"]) == group
            && NestedString(o, ["spec", "names", "kind"]) == kind != ""
            && NestedString(o, ["spec", "scope"]) == if cluster then "Cluster" else "Namespaced"
  {
    hide NestedString, ApiGroup;
    GroupIff(VersionOf(o), CRD_GROUP);
    GroupText();
    ScopesDiffer();
  }

  lemma ScopesDiffer()
    ensures SCOPE_CLUSTER != SCOPE_NAMESPACED
  {
    assert SCOPE_CLUSTER[0] == 'C' && SCOPE_NAMESPACED[0] == 'N';
  }

  lemma GroupText()
    ensures forall v: string :: CRD_GROUP + "/" + v == "apiextensions.k8s.io/" + v
    ensures '/' !in CRD_GROUP && CRD_GROUP != ""
  {
    assert CRD_GROUP + "/" == "apiextensions.k8s.io/";
    forall v: string ensures CRD_GROUP + "/" + v == "apiextensions.k8s.io/" + v {
    }
  }

  /** The group half of an apiVersion is what precedes its first slash. */
  lemma GroupIff(version: string, group: string)
    requires '/' !in group && group != ""
    ensures ApiGroup(version) == group <==> exists v: string :: version == group + "/" + v
  {
    if '/' in version {
      JoinSplit(version, '/');
      SplitFields(version, '/');
      var v := FirstSlash(version);
      assert version == ApiGroup(version) + "/" + v;
    }
    if v: string :| version == group + "/" + v {
      assert version == group + ['/'] + v && version[|group|] == '/';
      SplitField(group, v, '/');
    }
  }

  lemma {:induction false} FirstSlash(s: string) returns (rest: string)
    requires '/' in s
    ensures s == Split(s, '/')[0] + "/" + rest
  {
    if s[0] == '/' {
      rest := s[1..];
      assert s == "" + "/" + rest;
    } else {
      rest := FirstSlash(s[1..]);
      assert s == [s[0]] + s[1..];
    }
  }

  type Index = map<Key, bool>

  /** Of two definitions of one kind, the later one counts. */
  function IndexOfAll(definitions: seq<Definition>): Index {
    if definitions == [] then map[]
    else
      var n := |definitions| - 1;
      match definitions[n]
      case NotOne => IndexOfAll(definitions[..n])
      case Defines(key, cluster) => IndexOfAll(definitions[..n])[key := cluster]
  }

  function DefinitionsOf(objs: seq<Object>): seq<Definition> {
    seq(|objs|, i requires 0 <= i < |objs| => DefinitionOf(objs[i]))
  }

  function IndexOf(objs: seq<Object>): Index {
    IndexOfAll(DefinitionsOf(objs))
  }

  lemma IndexNext(objs: seq<Object>, i: nat)
    requires i < |objs|
    ensures IndexOf(objs[..i + 1]) ==
              match DefinitionOf(objs[i])
              case NotOne => IndexOf(objs[..i])
              case Defines(key, cluster) => IndexOf(objs[..i])[key := cluster]
  {
    hide DefinitionOf;
    var ds := DefinitionsOf(objs[..i + 1]);
    assert ds[..i] == DefinitionsOf(objs[..i]) && ds[i] == DefinitionOf(objs[i]);
  }

  method IndexCRDScopes(objs: seq<Object>) returns (scopes: Index)
    ensures scopes == IndexOf(objs)
  {
    hide NestedString, ApiGroup, IndexOf;
    scopes := map[];
    NoIndexYet(objs);
    for i := 0 to |objs|
      invariant scopes == IndexOf(objs[..i])
    {
      IndexNext(objs, i);
      var obj := objs[i];
      if KindOf(obj) != CRD_KIND || ApiGroup(VersionOf(obj)) != CRD_GROUP {
        continue;
      }
      var group, kind := NestedString(obj, GROUP_PATH), NestedString(obj, KIND_PATH);
      var scope := NestedString(obj, SCOPE_PATH);
      if kind == "" || (scope != SCOPE_CLUSTER && scope != SCOPE_NAMESPACED) {
        continue;
      }
      scopes := scopes[Key(group, kind) := scope == SCOPE_CLUSTER];
    }
    assert objs[..|objs|] == objs;
  }

  lemma NoIndexYet(objs: seq<Object>)
    ensures IndexOf(objs[..0]) == map[]
  {
  }

  ghost predicate LastDefines(definitions: seq<Definition>, i: nat, key: Key, cluster: bool) {
    && i < |definitions|
    && definitions[i] == Defines(key, cluster)
    && forall j :: i < j < |definitions| ==> !definitions[j].Defines? || definitions[j].key != key
  }

  /** The index knows exactly the kinds some object defines, each by its last definition. */
  lemma {:induction false} IndexIsLastDefinition(definitions: seq<Definition>, key: Key, cluster: bool)
    ensures key in IndexOfAll(definitions) && IndexOfAll(definitions)[key] == cluster
            <==> exists i :: LastDefines(definitions, i, key, cluster)
  {
    if definitions != [] {
      var n := |definitions| - 1;
      var last, before := definitions[n], definitions[..n];
      IndexIsLastDefinition(before, key, cluster);
      if last.Defines? && last.key == key {
        if last.cluster == cluster { assert LastDefines(definitions, n, key, cluster); }
      } else {
        if i :| LastDefines(before, i, key, cluster) { assert LastDefines(definitions, i, key, cluster); }
        if i :| LastDefines(definitions, i, key, cluster) { assert LastDefines(before, i, key, cluster); }
      }
    }
  }

  lemma SameDefinitionsSameIndex(objs: seq<Object>, others: seq<Object>)
    requires |objs| == |others|
    requires forall i :: 0 <= i < |objs| ==> DefinitionOf(objs[i]) == DefinitionOf(others[i])
    ensures IndexOf(objs) == IndexOf(others)
  {
    hide DefinitionOf;
    assert DefinitionsOf(objs) == DefinitionsOf(others);
  }

  // ---------- who lives in a namespace ----------

  predicate BuiltInClusterScoped(kind: string) {
    kind in {
      "APIService", "CSIDriver", "CSINode", "CertificateSigningRequest", "ClusterRole", "ClusterRoleBinding",
      "ComponentStatus", "CustomResourceDefinition", "FlowSchema", "IngressClass", "MutatingWebhookConfiguration",
      "Namespace", "Node", "PersistentVolume", "PriorityClass", "PriorityLevelConfiguration", "RuntimeClass",
      "SelfSubjectAccessReview", "SelfSubjectRulesReview", "StorageClass", "SubjectAccessReview", "TokenReview",
      "ValidatingAdmissionPolicy", "ValidatingAdmissionPolicyBinding", "ValidatingWebhookConfiguration",
      "VolumeAttachment"}
  }

  /** The built-in kinds first, then the pack's own definitions, then the guess. */
  predicate ClusterScoped(scopes: Index, o: Object) {
    if BuiltInClusterScoped(KindOf(o)) then true
    else
      var key := Key(ApiGroup(VersionOf(o)), KindOf(o));
      key in scopes && scopes[key]
  }

  /** Of any other kind, an object is outside every namespace exactly when the last definition of its
      kind says so. */
  lemma ScopedByLastDefinition(objs: seq<Object>, o: Object, group: string)
    requires !BuiltInClusterScoped(KindOf(o)) && '/' !in group
    requires if group == "" then '/' !in VersionOf(o) else exists v: string :: VersionOf(o) == group + "/" + v
    ensures ClusterScoped(IndexOf(objs), o)
            <==> exists i :: LastDefines(DefinitionsOf(objs), i, Key(group, KindOf(o)), true)
  {
    hide BuiltInClusterScoped, KindOf, VersionOf, DefinitionsOf, IndexOfAll, LastDefines;
    if group != "" { GroupIff(VersionOf(o), group); }
    IndexIsLastDefinition(DefinitionsOf(objs), Key(group, KindOf(o)), true);
  }

  /** Kubernetes' own kinds that live outside namespaces, whatever a pack defines. */
  lemma KubernetesClusterKinds(o: Object, scopes: Index)
    ensures KindOf(o) in [
              "APIService", "CSIDriver", "CSINode", "CertificateSigningRequest", "ClusterRole", "ClusterRoleBinding",
              "ComponentStatus", "CustomResourceDefinition", "FlowSchema", "IngressClass",
              "MutatingWebhookConfiguration", "Namespace", "Node", "PersistentVolume", "PriorityClass",
              "PriorityLevelConfiguration", "RuntimeClass", "SelfSubjectAccessReview", "SelfSubjectRulesReview",
              "StorageClass", "SubjectAccessReview", "TokenReview", "ValidatingAdmissionPolicy",
              "ValidatingAdmissionPolicyBinding", "ValidatingWebhookConfiguration", "VolumeAttachment"] ==>
              ClusterScoped(scopes, o)
  {
    hide KindOf, VersionOf;
  }

  /** And some that live inside them, unless it defines such a kind. */
  lemma KubernetesNamespacedKinds(o: Object)
    ensures KindOf(o) in ["Pod", "Job", "Role", "Secret", "Service", "ConfigMap", "Deployment"] ==>
              !ClusterScoped(map[], o)
  {
    hide KindOf, VersionOf;
  }

  predicate Conflicts(scopes: Index, ns: string, o: Object) {
    ns != "" && !ClusterScoped(scopes, o) && NamespaceOf(o) != "" && NamespaceOf(o) != ns
  }

  /** A conflict is exactly where forcing the namespace would overwrite another one. */
  lemma ConflictIff(scopes: Index, ns: string, o: Object)
    ensures Conflicts(scopes, ns, o) <==> NamespaceOf(o) != "" && NamespaceOf(Placed(scopes, ns, o)) != NamespaceOf(o)
  {
    NamespaceSet(o, ns);
    NamespaceRead(o);
    hide NamespaceOf, ClusterScoped, WithNamespace;
  }

  function Placed(scopes: Index, ns: string, o: Object): Object {
    if ns == "" || ClusterScoped(scopes, o) then o else WithNamespace(o, ns)
  }

  function PlacedAll(scopes: Index, ns: string, objs: seq<Object>): seq<Object> {
    seq(|objs|, i requires 0 <= i < |objs| => Placed(scopes, ns, objs[i]))
  }

  datatype Outcome = Done | Conflict(at: nat)

  /** applyNamespace: every object in turn, stopping at the first conflict. */
  method ApplyNamespace(objs: seq<Object>, ns: string, scopes: Index) returns (r: seq<Object>, outcome: Outcome)
    ensures outcome.Done? <==> forall i :: 0 <= i < |objs| ==> !Conflicts(scopes, ns, objs[i])
    ensures outcome.Done? ==> r == PlacedAll(scopes, ns, objs)
    ensures outcome.Conflict? ==>
              && outcome.at < |objs| && Conflicts(scopes, ns, objs[outcome.at])
              && (forall j :: 0 <= j < outcome.at ==> !Conflicts(scopes, ns, objs[j]))
              && r == PlacedAll(scopes, ns, objs[..outcome.at]) + objs[outcome.at..]
  {
    r := objs;
    NothingPlaced(scopes, ns, objs);
    if ns == "" {
      return r, Done;
    }
    hide ClusterScoped, BuiltInClusterScoped, WithNamespace, NamespaceOf, PlacedUpTo;
    for i := 0 to |objs|
      invariant |r| == |objs| && PlacedUpTo(scopes, ns, objs, i, r)
    {
      PlacedNext(scopes, ns, objs, i, r);
      var obj := r[i];
      if ClusterScoped(scopes, obj) {
        assert r == r[i := obj];
        continue;
      }
      var got := NamespaceOf(obj);
      if got != "" && got != ns {
        StoppedAt(scopes, ns, objs, i, r);
        return r, Conflict(i);
      }
      r := r[i := WithNamespace(obj, ns)];
    }
    StoppedAt(scopes, ns, objs, |objs|, r);
    return r, Done;
  }

  /** The first i objects placed, and none of them a conflict. */
  ghost predicate PlacedUpTo(scopes: Index, ns: string, objs: seq<Object>, i: nat, r: seq<Object>)
    requires i <= |objs|
  {
    && |r| == |objs|
    && (forall j :: 0 <= j < |r| ==> r[j] == if j < i then Placed(scopes, ns, objs[j]) else objs[j])
    && forall j :: 0 <= j < i ==> !Conflicts(scopes, ns, objs[j])
  }

  lemma NothingPlaced(scopes: Index, ns: string, objs: seq<Object>)
    ensures PlacedUpTo(scopes, ns, objs, 0, objs)
    ensures ns == "" ==> PlacedAll(scopes, ns, objs) == objs
  {
    hide ClusterScoped, WithNamespace;
  }

  lemma PlacedNext(scopes: Index, ns: string, objs: seq<Object>, i: nat, r: seq<Object>)
    requires i < |objs| && PlacedUpTo(scopes, ns, objs, i, r)
    ensures |r| == |objs| && r[i] == objs[i]
    ensures !Conflicts(scopes, ns, objs[i]) ==> PlacedUpTo(scopes, ns, objs, i + 1, r[i := Placed(scopes, ns, objs[i])])
  {
    hide Placed, Conflicts;
  }

  lemma StoppedAt(scopes: Index, ns: string, objs: seq<Object>, i: nat, r: seq<Object>)
    requires i <= |objs| && PlacedUpTo(scopes, ns, objs, i, r)
    ensures r == PlacedAll(scopes, ns, objs[..i]) + objs[i..]
    ensures i == |objs| ==> r == PlacedAll(scopes, ns, objs)
    ensures forall j :: 0 <= j < i ==> !Conflicts(scopes, ns, objs[j])
  {
    hide Placed, Conflicts;
  }

  lemma PathsAvoidMetadata()
    ensures KIND != METADATA && API_VERSION != METADATA && SPEC != METADATA
    ensures GROUP_PATH[0] == KIND_PATH[0] == SCOPE_PATH[0] == SPEC
  {
    assert KIND[0] == 'k' && API_VERSION[0] == 'a' && SPEC[0] == 's' && METADATA[0] == 'm';
  }

  lemma PlacedKeepsTexts(scopes: Index, ns: string, o: Object)
    ensures var p := Placed(scopes, ns, o);
            && KindOf(p) == KindOf(o) && VersionOf(p) == VersionOf(o)
            && NestedString(p, GROUP_PATH) == NestedString(o, GROUP_PATH)
            && NestedString(p, KIND_PATH) == NestedString(o, KIND_PATH)
            && NestedString(p, SCOPE_PATH) == NestedString(o, SCOPE_PATH)
  {
    PathsAvoidMetadata();
    hide NestedString, WithNamespace, ClusterScoped;
    OnlyMetadata(o, ns, [KIND]);
    OnlyMetadata(o, ns, [API_VERSION]);
    OnlyMetadata(o, ns, GROUP_PATH);
    OnlyMetadata(o, ns, KIND_PATH);
    OnlyMetadata(o, ns, SCOPE_PATH);
  }

  /** Forcing a namespace changes neither what an object is nor what it defines. */
  lemma PlacedKeepsIdentity(scopes: Index, ns: string, o: Object)
    ensures var p := Placed(scopes, ns, o);
            && DefinitionOf(p) == DefinitionOf(o)
            && KindOf(p) == KindOf(o) && VersionOf(p) == VersionOf(o)
            && forall others: Index :: ClusterScoped(others, p) == ClusterScoped(others, o)
  {
    hide NestedString, Placed, BuiltInClusterScoped, ApiGroup, Defined;
    PlacedKeepsTexts(scopes, ns, o);
  }

  lemma PlacedKeepsIndex(scopes: Index, ns: string, objs: seq<Object>)
    ensures IndexOf(PlacedAll(scopes, ns, objs)) == IndexOf(objs)
  {
    var r := PlacedAll(scopes, ns, objs);
    forall i | 0 <= i < |objs| ensures DefinitionOf(r[i]) == DefinitionOf(objs[i]) {
      PlacedKeepsIdentity(scopes, ns, objs[i]);
    }
    SameDefinitionsSameIndex(r, objs);
  }

  /** Forcing the namespace again changes nothing. */
  lemma PlacingIsIdempotent(scopes: Index, ns: string, o: Object)
    ensures Placed(scopes, ns, Placed(scopes, ns, o)) == Placed(scopes, ns, o)
    ensures !Conflicts(scopes, ns, o) ==> !Conflicts(scopes, ns, Placed(scopes, ns, o))
  {
    PlacedKeepsIdentity(scopes, ns, o);
    NamespaceSet(o, ns);
    hide ClusterScoped, NamespaceOf, WithNamespace;
  }

  /** What applyNamespace is for: a namespaced object it let pass is then in the namespace. The
      code has that for exactly the objects whose metadata, if they have any, is a mapping; on any
      other the write fails without a word, and the object stays in no namespace. */
  lemma InNamespaceIff(scopes: Index, ns: string, o: Object)
    requires ns != "" && !ClusterScoped(scopes, o) && !Conflicts(scopes, ns, o)
    ensures NamespaceOf(Placed(scopes, ns, o)) == ns <==> Settable(o)
  {
    NamespaceSet(o, ns);
  }

  /** Such an object: its metadata is a string, applyNamespace lets it pass, and it is nowhere. */
  lemma StringMetadataPasses(ns: string)
    requires ns != ""
    ensures var o := map[KIND := Str("ConfigMap"), METADATA := Str("app")];
            && !ClusterScoped(map[], o) && !Conflicts(map[], ns, o)
            && Placed(map[], ns, o) == o && NamespaceOf(o) == ""
  {
    var o := map[KIND := Str("ConfigMap"), METADATA := Str("app")];
    PathsAvoidMetadata();
    assert [KIND][1..] == [];
    assert At(Obj(o), [KIND]) == At(Str("ConfigMap"), []);
    assert KindOf(o) == "ConfigMap";
    assert !BuiltInClusterScoped("ConfigMap") by { assert "ConfigMap"[3] == 'f'; }
    NamespaceRead(o);
    hide BuiltInClusterScoped, NestedString;
  }
}
