/** Installing a cube's entries in a user's kubeconfig, and removing them again, on decoded files. */
module Kubeconfig {
  import opened Json
  import opened Wrappers

  // ---------- files ----------

  /** A file's content: nothing at all, or a mapping (a null document holds no keys). */
  datatype File = Blank | Mapping(fields: map<string, Value>)

  function Field(fields: map<string, Value>, key: string): Option<Value> {
    if key in fields then Some(fields[key]) else None
  }

  /** A key that is missing, or holds something else, is an empty list to the code. */
  function ListOf(fields: map<string, Value>, key: string): seq<Value> {
    if key in fields && fields[key].List? then fields[key].items else []
  }

  function StringOf(fields: map<string, Value>, key: string): string {
    if key in fields && fields[key].Str? then fields[key].s else ""
  }

  function EntryName(e: Value): string {
    if e.Obj? then StringOf(e.fields, "name") else ""
  }

  const LIST_KEYS: seq<string> := ["clusters", "contexts", "users"]
  const CURRENT := "current-context"

  lemma ExtensionallyEqual(a: map<string, Value>, b: map<string, Value>)
    requires forall key :: Field(a, key) == Field(b, key)
    ensures a == b
  {
    forall key ensures key in a <==> key in b {
      assert Field(a, key) == Field(b, key);
    }
    forall key | key in a ensures a[key] == b[key] {
      assert Field(a, key) == Field(b, key);
    }
  }

  // ---------- the rebranded config ----------

  datatype NamedEntry = NamedEntry(name: string, cluster: Option<Value>, user: Option<Value>)
  datatype Context = Context(cluster: string, user: string, namespace: string, extensions: Option<Value>)
  datatype ContextEntry = ContextEntry(name: string, context: Context)

  datatype Config = Config(
    apiVersion: string,
    kind: string,
    preferences: Option<Value>,
    clusters: seq<NamedEntry>,
    contexts: seq<ContextEntry>,
    users: seq<NamedEntry>,
    current: string,
    extensions: Option<Value>)

  datatype Rebranded = Branded(config: Config) | NotSingle

  method Rebrand(raw: Config, name: string, namespace: string) returns (r: Rebranded)
    ensures r.Branded? <==> |raw.clusters| == 1 && |raw.contexts| == 1 && |raw.users| == 1
    ensures r.Branded? ==>
              && r.config.clusters == [raw.clusters[0].(name := name)]
              && r.config.users == [raw.users[0].(name := name)]
              && |r.config.contexts| == 1 && r.config.contexts[0].name == name
              && r.config.contexts[0].context.cluster == name && r.config.contexts[0].context.user == name
              && r.config.contexts[0].context.extensions == raw.contexts[0].context.extensions
              && r.config.contexts[0].context.namespace ==
                   (if namespace != "" then namespace else raw.contexts[0].context.namespace)
              && r.config == raw.(clusters := r.config.clusters, contexts := r.config.contexts,
                                  users := r.config.users, current := name)
    ensures r.Branded? && name != "" ==> IsBranded(Rendered(r.config), name)
  {
    if |raw.clusters| != 1 || |raw.contexts| != 1 || |raw.users| != 1 {
      return NotSingle;
    }
    var kc := raw;
    kc := kc.(clusters := kc.clusters[0 := kc.clusters[0].(name := name)]);
    kc := kc.(users := kc.users[0 := kc.users[0].(name := name)]);
    var entry := kc.contexts[0].(name := name);
    entry := entry.(context := entry.context.(cluster := name));
    entry := entry.(context := entry.context.(user := name));
    if namespace != "" {
      entry := entry.(context := entry.context.(namespace := namespace));
    }
    kc := kc.(contexts := kc.contexts[0 := entry]);
    kc := kc.(current := name);
    if name != "" {
      RenderedIsBranded(kc, name);
    }
    return Branded(kc);
  }

  /** Fields left empty are left out. */
  function WithText(fields: map<string, Value>, key: string, text: string): map<string, Value> {
    if text == "" then fields else fields[key := Str(text)]
  }

  function WithRaw(fields: map<string, Value>, key: string, raw: Option<Value>): map<string, Value> {
    if raw.None? then fields else fields[key := raw.value]
  }

  function WithList(fields: map<string, Value>, key: string, items: seq<Value>): map<string, Value> {
    if items == [] then fields else fields[key := List(items)]
  }

  function RenderedEntry(e: NamedEntry): Value {
    Obj(WithRaw(WithRaw(map["name" := Str(e.name)], "cluster", e.cluster), "user", e.user))
  }

  function RenderedContext(e: ContextEntry): Value {
    var c := e.context;
    var body := WithRaw(WithText(map["cluster" := Str(c.cluster), "user" := Str(c.user)], "namespace", c.namespace),
                        "extensions", c.extensions);
    Obj(map["name" := Str(e.name), "context" := Obj(body)])
  }

  function RenderedEntries(es: seq<NamedEntry>): seq<Value> {
    seq(|es|, i requires 0 <= i < |es| => RenderedEntry(es[i]))
  }

  function RenderedContexts(es: seq<ContextEntry>): seq<Value> {
    seq(|es|, i requires 0 <= i < |es| => RenderedContext(es[i]))
  }

  function Rendered(kc: Config): map<string, Value> {
    var a := WithText(WithText(map[], "apiVersion", kc.apiVersion), "kind", kc.kind);
    var b := WithRaw(WithRaw(a, "preferences", kc.preferences), "extensions", kc.extensions);
    var c := WithText(b, CURRENT, kc.current);
    var d := WithList(c, "clusters", RenderedEntries(kc.clusters));
    WithList(WithList(d, "contexts", RenderedContexts(kc.contexts)), "users", RenderedEntries(kc.users))
  }

  /** What Merge is given: one entry of that name in each list, and the name as current-context. */
  ghost predicate IsBranded(src: map<string, Value>, c: string) {
    && c != ""
    && StringOf(src, CURRENT) == c
    && forall key <- LIST_KEYS :: |ListOf(src, key)| == 1 && EntryName(ListOf(src, key)[0]) == c
  }

  lemma RenderedIsBranded(kc: Config, c: string)
    requires c != "" && kc.current == c
    requires |kc.clusters| == 1 && |kc.contexts| == 1 && |kc.users| == 1
    requires kc.clusters[0].name == c && kc.contexts[0].name == c && kc.users[0].name == c
    ensures IsBranded(Rendered(kc), c)
  {
    hide EntryName, RenderedEntry, RenderedContext, Rendered, ListOf, StringOf;
    RenderedLists(kc);
    RenderedNames(kc.clusters[0], kc.contexts[0]);
    RenderedNames(kc.users[0], kc.contexts[0]);
  }

  lemma RenderedLists(kc: Config)
    requires kc.clusters != [] && kc.contexts != [] && kc.users != []
    ensures var r := Rendered(kc);
            && StringOf(r, CURRENT) == kc.current
            && ListOf(r, "clusters") == RenderedEntries(kc.clusters)
            && ListOf(r, "contexts") == RenderedContexts(kc.contexts)
            && ListOf(r, "users") == RenderedEntries(kc.users)
  {
    var a := WithText(WithText(map[], "apiVersion", kc.apiVersion), "kind", kc.kind);
    var b := WithRaw(WithRaw(a, "preferences", kc.preferences), "extensions", kc.extensions);
    assert CURRENT !in b;
    hide RenderedEntries, RenderedContexts;
  }

  /** What the rendered config says besides its entries; what was not given is not said. */
  lemma RenderedHeader(kc: Config)
    ensures Field(Rendered(kc), "apiVersion") == if kc.apiVersion == "" then None else Some(Str(kc.apiVersion))
    ensures Field(Rendered(kc), "kind") == if kc.kind == "" then None else Some(Str(kc.kind))
  {
    hide RenderedEntries, RenderedContexts;
  }

  lemma RenderedExtras(kc: Config)
    ensures Field(Rendered(kc), "preferences") == kc.preferences
    ensures Field(Rendered(kc), "extensions") == kc.extensions
  {
    hide RenderedEntries, RenderedContexts;
  }

  lemma RenderedNames(e: NamedEntry, f: ContextEntry)
    ensures EntryName(RenderedEntry(e)) == e.name && EntryName(RenderedContext(f)) == f.name
  {
  }

  // ---------- upsert ----------

  /** Where the first entry of that name is; the length if there is none. */
  function FirstNamed(entries: seq<Value>, name: string): (i: nat)
    ensures i <= |entries|
    ensures i < |entries| ==> EntryName(entries[i]) == name
    ensures forall j :: 0 <= j < i ==> EntryName(entries[j]) != name
  {
    if entries == [] then 0
    else if EntryName(entries[0]) == name then 0
    else 1 + FirstNamed(entries[1..], name)
  }

  lemma FirstNamedIs(entries: seq<Value>, name: string, i: nat)
    requires i <= |entries| && (i < |entries| ==> EntryName(entries[i]) == name)
    requires forall j :: 0 <= j < i ==> EntryName(entries[j]) != name
    ensures FirstNamed(entries, name) == i
  {
  }

  /** In the place of the first entry of its name, or at the end. */
  function UpsertOne(dst: seq<Value>, s: Value): seq<Value> {
    var i := FirstNamed(dst, EntryName(s));
    if i < |dst| then dst[i := s] else dst + [s]
  }

  lemma UpsertAt(dst: seq<Value>, s: Value, i: nat)
    requires i <= |dst| && (i < |dst| ==> EntryName(dst[i]) == EntryName(s))
    requires forall j :: 0 <= j < i ==> EntryName(dst[j]) != EntryName(s)
    ensures UpsertOne(dst, s) == if i < |dst| then dst[i := s] else dst + [s]
  {
    FirstNamedIs(dst, EntryName(s), i);
  }

  function Upserted(dst: seq<Value>, src: seq<Value>): seq<Value> {
    if src == [] then dst else UpsertOne(Upserted(dst, src[..|src| - 1]), src[|src| - 1])
  }

  method Upsert(dst: seq<Value>, src: seq<Value>) returns (r: seq<Value>)
    ensures r == Upserted(dst, src)
  {
    r := dst;
    hide UpsertOne, FirstNamed, EntryName;
    for k := 0 to |src|
      invariant r == Upserted(dst, src[..k])
    {
      var s := src[k];
      ghost var before := r;
      var replaced := false;
      var i := 0;
      while i < |r| && !replaced
        invariant 0 <= i <= |r| && |r| == |before|
        invariant !replaced ==> r == before && forall j :: 0 <= j < i ==> EntryName(r[j]) != EntryName(s)
        invariant replaced ==> r == UpsertOne(before, s)
        decreases |r| - i, !replaced
      {
        if EntryName(r[i]) == EntryName(s) {
          UpsertAt(before, s, i);
          r, replaced := r[i := s], true;
        } else {
          i := i + 1;
        }
      }
      if !replaced {
        UpsertAt(before, s, |before|);
        r := r + [s];
      }
      assert src[..k + 1][..k] == src[..k];
    }
    assert src[..|src|] == src;
  }

  /** The entries not of that name, in order. */
  function Without(entries: seq<Value>, name: string): seq<Value> {
    if entries == [] then []
    else
      var n := |entries| - 1;
      Without(entries[..n], name) + if EntryName(entries[n]) != name then [entries[n]] else []
  }

  lemma {:induction false} WithoutConcat(a: seq<Value>, b: seq<Value>, name: string)
    ensures Without(a + b, name) == Without(a, name) + Without(b, name)
  {
    if b == [] {
      assert a + b == a;
    } else {
      assert (a + b)[..|a + b| - 1] == a + b[..|b| - 1];
      WithoutConcat(a, b[..|b| - 1], name);
    }
  }

  lemma WithoutSingle(e: Value, name: string)
    ensures Without([e], name) == if EntryName(e) != name then [e] else []
  {
    assert [e][..0] == [];
  }

  /** Only entries of the upserted entry's own name are displaced. */
  lemma {:induction false} UpsertKeepsOthers(dst: seq<Value>, s: Value)
    ensures Without(UpsertOne(dst, s), EntryName(s)) == Without(dst, EntryName(s))
  {
    var c := EntryName(s);
    var i := FirstNamed(dst, c);
    hide Without, FirstNamed;
    WithoutSingle(s, c);
    if i < |dst| {
      WithoutSingle(dst[i], c);
      assert dst == dst[..i] + [dst[i]] + dst[i + 1..];
      assert UpsertOne(dst, s) == dst[..i] + [s] + dst[i + 1..];
      WithoutConcat(dst[..i] + [dst[i]], dst[i + 1..], c);
      WithoutConcat(dst[..i] + [s], dst[i + 1..], c);
      WithoutConcat(dst[..i], [dst[i]], c);
      WithoutConcat(dst[..i], [s], c);
    } else {
      WithoutConcat(dst, [s], c);
      assert Without(dst, c) + [] == Without(dst, c);
    }
  }

  lemma {:induction false} UpsertTwice(dst: seq<Value>, s: Value)
    ensures UpsertOne(UpsertOne(dst, s), s) == UpsertOne(dst, s)
  {
    var c := EntryName(s);
    var i, once := FirstNamed(dst, c), UpsertOne(dst, s);
    assert once[i] == s;
    assert forall j :: 0 <= j < i ==> once[j] == dst[j];
    FirstNamedIs(once, c, i);
  }

  lemma UpsertSingle(dst: seq<Value>, s: Value)
    ensures Upserted(dst, [s]) == UpsertOne(dst, s)
  {
    assert [s][..0] == [];
  }

  lemma {:induction false} WithoutLast(entries: seq<Value>, name: string)
    requires entries != []
    ensures var init, e := entries[..|entries| - 1], entries[|entries| - 1];
            && entries == init + [e]
            && Without(entries, name) == Without(init, name) + if EntryName(e) != name then [e] else []
  {
  }

  lemma WithoutNothing(name: string)
    ensures Without([], name) == []
  {
  }

  lemma {:induction false} WithoutMembers(entries: seq<Value>, name: string)
    ensures forall e :: e in Without(entries, name) <==> e in entries && EntryName(e) != name
  {
    hide EntryName, Without;
    if entries == [] {
      WithoutNothing(name);
    } else {
      WithoutLast(entries, name);
      WithoutMembers(entries[..|entries| - 1], name);
    }
  }

  lemma {:induction false} WithoutSize(entries: seq<Value>, name: string)
    ensures |Without(entries, name)| <= |entries|
    ensures |Without(entries, name)| == |entries| ==> Without(entries, name) == entries
  {
    hide EntryName, Without;
    if entries == [] {
      WithoutNothing(name);
    } else {
      WithoutLast(entries, name);
      WithoutSize(entries[..|entries| - 1], name);
    }
  }

  lemma {:induction false} WithoutNone(entries: seq<Value>, name: string)
    requires forall e <- entries :: EntryName(e) != name
    ensures Without(entries, name) == entries
  {
    hide EntryName, Without;
    if entries == [] {
      WithoutNothing(name);
    } else {
      var init, e := entries[..|entries| - 1], entries[|entries| - 1];
      WithoutLast(entries, name);
      assert e in entries;
      WithoutNone(init, name);
    }
  }

  lemma WithoutLength(entries: seq<Value>, name: string)
    ensures |Without(entries, name)| <= |entries|
    ensures |Without(entries, name)| == |entries| <==> forall e <- entries :: EntryName(e) != name
    ensures |Without(entries, name)| == |entries| ==> Without(entries, name) == entries
    ensures forall e <- Without(entries, name) :: e in entries && EntryName(e) != name
  {
    hide EntryName, Without;
    WithoutSize(entries, name);
    WithoutMembers(entries, name);
    if forall e <- entries :: EntryName(e) != name {
      WithoutNone(entries, name);
    }
  }

  // ---------- Merge ----------

  /** What Merge leaves under each key. */
  function MergedField(dst: map<string, Value>, src: map<string, Value>, key: string): Option<Value> {
    if key in LIST_KEYS then
      var merged := Upserted(ListOf(dst, key), ListOf(src, key));
      if merged != [] then Some(List(merged)) else Field(dst, key)
    else if key == CURRENT then
      if StringOf(src, CURRENT) != "" then Field(src, CURRENT) else Field(dst, CURRENT)
    else if key == "apiVersion" || key == "kind" then
      if StringOf(dst, "apiVersion") != "" then Field(dst, key) else Some(if key in src then src[key] else Null)
    else Field(dst, key)
  }

  ghost predicate IsMerge(r: map<string, Value>, dst: map<string, Value>, src: map<string, Value>) {
    forall key :: Field(r, key) == MergedField(dst, src, key)
  }

  /** What Merge makes of a file; an empty one becomes the incoming config. */
  ghost predicate IsInstall(r: map<string, Value>, existing: File, src: map<string, Value>) {
    match existing
    case Blank => r == src
    case Mapping(dst) => IsMerge(r, dst, src)
  }

  method Merge(existing: File, incoming: map<string, Value>) returns (r: map<string, Value>)
    ensures IsInstall(r, existing, incoming)
  {
    if existing.Blank? {
      return incoming;
    }
    var dst, src := existing.fields, incoming;
    ghost var before := dst;
    hide Upserted, MergedField, IsMerge;
    for i := 0 to |LIST_KEYS|
      invariant MergedUpTo(dst, before, src, i)
    {
      var key := LIST_KEYS[i];
      ListUnmerged(dst, before, src, i);
      var merged := Upsert(ListOf(dst, key), ListOf(src, key));
      if |merged| > 0 {
        dst := dst[key := List(merged)];
      }
    }
    ghost var lists := dst;
    var cc := StringOf(src, CURRENT);
    if cc != "" {
      dst := dst[CURRENT := Str(cc)];
    }
    if StringOf(dst, "apiVersion") == "" {
      var version := if "apiVersion" in src then src["apiVersion"] else Null;
      var kind := if "kind" in src then src["kind"] else Null;
      dst := dst["apiVersion" := version]["kind" := kind];
    }
    RestMerged(lists, before, src, dst);
    return dst;
  }

  /** The first i lists are merged, and nothing else is touched yet. */
  ghost predicate MergedUpTo(dst: map<string, Value>, before: map<string, Value>, src: map<string, Value>, i: nat)
    requires i <= |LIST_KEYS|
  {
    forall key ::
      Field(dst, key) == if key in LIST_KEYS[..i] then MergedField(before, src, key) else Field(before, key)
  }

  lemma ListUnmerged(dst: map<string, Value>, before: map<string, Value>, src: map<string, Value>, i: nat)
    requires i < |LIST_KEYS| && MergedUpTo(dst, before, src, i)
    ensures var key := LIST_KEYS[i];
            var merged := Upserted(ListOf(dst, key), ListOf(src, key));
            MergedUpTo(if merged != [] then dst[key := List(merged)] else dst, before, src, i + 1)
  {
    hide Upserted;
    var key := LIST_KEYS[i];
    assert key !in LIST_KEYS[..i] && LIST_KEYS[..i + 1] == LIST_KEYS[..i] + [key];
    assert Field(dst, key) == Field(before, key);
    assert ListOf(dst, key) == ListOf(before, key);
  }

  /** What is done after the lists, key by key. */
  lemma RestMerged(dst: map<string, Value>, before: map<string, Value>, src: map<string, Value>, r: map<string, Value>)
    requires MergedUpTo(dst, before, src, |LIST_KEYS|)
    requires var current := if StringOf(src, CURRENT) != "" then dst[CURRENT := src[CURRENT]] else dst;
             r == if StringOf(current, "apiVersion") != "" then current
                  else current["apiVersion" := if "apiVersion" in src then src["apiVersion"] else Null]
                              ["kind" := if "kind" in src then src["kind"] else Null]
    ensures IsMerge(r, before, src)
  {
    hide Upserted;
    assert LIST_KEYS[..|LIST_KEYS|] == LIST_KEYS;
    assert Field(dst, "apiVersion") == Field(before, "apiVersion");
    assert StringOf(dst, "apiVersion") == StringOf(before, "apiVersion");
    forall key ensures Field(r, key) == MergedField(before, src, key) {
      assert Field(dst, key) == if key in LIST_KEYS then MergedField(before, src, key) else Field(before, key);
    }
  }

  /** Keys cube-idp does not understand are never touched, whatever is merged in. */
  lemma UnknownKeysKept(dst: map<string, Value>, src: map<string, Value>, r: map<string, Value>, key: string)
    requires IsMerge(r, dst, src)
    requires key !in LIST_KEYS + [CURRENT, "apiVersion", "kind"]
    ensures Field(r, key) == Field(dst, key)
  {
    assert Field(r, key) == MergedField(dst, src, key);
  }

  lemma BrandedLists(dst: map<string, Value>, src: map<string, Value>, r: map<string, Value>, c: string, key: string)
    requires IsBranded(src, c) && IsMerge(r, dst, src) && key in LIST_KEYS
    ensures var s := ListOf(src, key)[0];
            && EntryName(s) == c && ListOf(src, key) == [s]
            && key in r && r[key] == List(UpsertOne(ListOf(dst, key), s))
            && s in ListOf(r, key)
  {
    var s := ListOf(src, key)[0];
    UpsertSingle(ListOf(dst, key), s);
    assert ListOf(src, key) == [s];
    assert Field(r, key) == MergedField(dst, src, key);
    var i := FirstNamed(ListOf(dst, key), c);
    assert UpsertOne(ListOf(dst, key), s)[i] == s;
  }

  /** Merging again changes nothing, in a file that held anything before. */
  lemma MergeTwice(dst: map<string, Value>, src: map<string, Value>, c: string, once: map<string, Value>,
      twice: map<string, Value>)
    requires IsBranded(src, c) && IsMerge(once, dst, src) && IsMerge(twice, once, src)
    ensures twice == once
  {
    forall key ensures Field(twice, key) == Field(once, key) {
      assert Field(twice, key) == MergedField(once, src, key);
      assert Field(once, key) == MergedField(dst, src, key);
      if key in LIST_KEYS {
        BrandedLists(dst, src, once, c, key);
        BrandedLists(once, src, twice, c, key);
        UpsertTwice(ListOf(dst, key), ListOf(src, key)[0]);
      } else if key == "apiVersion" || key == "kind" {
        VersionSettles(dst, src, once, twice, key);
      }
    }
    ExtensionallyEqual(twice, once);
  }

  /** The incoming config says which apiVersion and kind it is of. */
  predicate SaysVersion(src: map<string, Value>) {
    StringOf(src, "apiVersion") != "" || ("apiVersion" in src && "kind" in src)
  }

  lemma BrandedTwice(src: map<string, Value>, c: string, twice: map<string, Value>)
    requires IsBranded(src, c) && IsMerge(twice, src, src)
    ensures twice == src <==> SaysVersion(src)
  {
    assert Field(twice, "apiVersion") == MergedField(src, src, "apiVersion");
    assert Field(twice, "kind") == MergedField(src, src, "kind");
    if SaysVersion(src) {
      forall key ensures Field(twice, key) == Field(src, key) {
        assert Field(twice, key) == MergedField(src, src, key);
        if key in LIST_KEYS {
          BrandedLists(src, src, twice, c, key);
          var s := ListOf(src, key)[0];
          assert UpsertOne([s], s) == [s];
        }
      }
      ExtensionallyEqual(twice, src);
    }
  }

  /** After a merge the cube's context is current, and merging again changes nothing: always in a
      file that held anything before; in an empty file, which takes the incoming config as it is,
      exactly when that config says its version. */
  lemma MergeIsIdempotent(existing: File, src: map<string, Value>, c: string, once: map<string, Value>,
      twice: map<string, Value>)
    requires IsBranded(src, c) && IsInstall(once, existing, src) && IsMerge(twice, once, src)
    ensures StringOf(once, CURRENT) == c
    ensures twice == once <==> existing.Mapping? || SaysVersion(src)
  {
    if existing.Mapping? {
      assert Field(once, CURRENT) == MergedField(existing.fields, src, CURRENT);
      MergeTwice(existing.fields, src, c, once, twice);
    } else {
      BrandedTwice(src, c, twice);
    }
  }

  lemma VersionSettles(dst: map<string, Value>, src: map<string, Value>, once: map<string, Value>,
      twice: map<string, Value>, key: string)
    requires IsMerge(once, dst, src) && IsMerge(twice, once, src)
    requires key == "apiVersion" || key == "kind"
    ensures Field(twice, key) == Field(once, key)
  {
    assert Field(once, "apiVersion") == MergedField(dst, src, "apiVersion");
    assert Field(once, key) == MergedField(dst, src, key);
    assert Field(twice, key) == MergedField(once, src, key);
  }

  // ---------- what an installed cube is ----------

  /** What a client looking for c among these entries finds: the first one that says it is c. */
  ghost predicate FoundFirst(kc: map<string, Value>, key: string, c: string, e: map<string, Value>) {
    && key in kc && kc[key].List?
    && exists i :: 0 <= i < |kc[key].items| && kc[key].items[i] == Obj(e)
         && SaysName(kc[key].items[i], c) && forall j :: 0 <= j < i ==> !SaysName(kc[key].items[j], c)
  }

  predicate SaysName(e: Value, c: string) {
    e.Obj? && "name" in e.fields && e.fields["name"] == Str(c)
  }

  lemma NameIsSaid(e: Value, c: string)
    requires c != ""
    ensures EntryName(e) == c <==> SaysName(e, c)
  {
  }

  /** The entry a merge brings is the one found under its name. */
  lemma BroughtIsFound(existing: File, src: map<string, Value>, r: map<string, Value>, c: string, key: string,
      e: map<string, Value>)
    requires IsBranded(src, c) && IsInstall(r, existing, src) && key in LIST_KEYS
    requires ListOf(src, key) == [Obj(e)]
    ensures FoundFirst(r, key, c, e)
  {
    hide SaysName, EntryName, UpsertOne;
    var list := match existing { case Blank => [] case Mapping(dst) => ListOf(dst, key) };
    if existing.Mapping? {
      BrandedLists(existing.fields, src, r, c, key);
    } else {
      UpsertAt(list, Obj(e), 0);
    }
    assert r[key] == List(UpsertOne(list, Obj(e)));
    UpsertedIsFound(list, Obj(e), c);
  }

  lemma UpsertedIsFound(list: seq<Value>, e: Value, c: string)
    requires EntryName(e) == c && c != ""
    ensures var all := UpsertOne(list, e);
            exists i :: 0 <= i < |all| && all[i] == e
              && SaysName(all[i], c) && forall j :: 0 <= j < i ==> !SaysName(all[j], c)
  {
    hide SaysName, EntryName;
    var all, i := UpsertOne(list, e), FirstNamed(list, c);
    assert all[i] == e;
    NameIsSaid(e, c);
    forall j | 0 <= j < i ensures !SaysName(all[j], c) {
      assert all[j] == list[j];
      NameIsSaid(list[j], c);
    }
  }

  /** A rebranded config that is installed is in use and complete: current-context names the cube's
      context, the context names the cube's cluster and user, and what is found under those names is
      what the provider gave. */
  lemma InstalledIsInUse(kc: Config, c: string, existing: File, r: map<string, Value>)
    requires c != "" && kc.current == c
    requires |kc.clusters| == 1 && |kc.contexts| == 1 && |kc.users| == 1
    requires kc.clusters[0].name == c && kc.contexts[0].name == c && kc.users[0].name == c
    requires IsInstall(r, existing, Rendered(kc))
    ensures "current-context" in r && r["current-context"] == Str(c)
    ensures exists e :: FoundFirst(r, "clusters", c, e)
              && forall body :: kc.clusters[0].cluster == Some(body) ==> "cluster" in e && e["cluster"] == body
    ensures exists e :: FoundFirst(r, "users", c, e)
              && forall body :: kc.users[0].user == Some(body) ==> "user" in e && e["user"] == body
    ensures exists e, body :: FoundFirst(r, "contexts", c, e) && "context" in e && e["context"] == Obj(body)
              && "cluster" in body && body["cluster"] == Str(kc.contexts[0].context.cluster)
              && "user" in body && body["user"] == Str(kc.contexts[0].context.user)
              && (kc.contexts[0].context.namespace != "" ==>
                    "namespace" in body && body["namespace"] == Str(kc.contexts[0].context.namespace))
              && forall more :: kc.contexts[0].context.extensions == Some(more) ==>
                   "extensions" in body && body["extensions"] == more
  {
    hide RenderedEntry, RenderedContext, Rendered, EntryName, IsInstall, IsBranded, FoundFirst, UpsertOne, ListOf;
    var src := Rendered(kc);
    RenderedIsBranded(kc, c);
    RenderedLists(kc);
    CurrentIsInstalled(existing, src, r, c);
    var cluster := EntryHolds(kc.clusters[0]);
    var user := EntryHolds(kc.users[0]);
    var context, body := ContextHolds(kc.contexts[0]);
    assert "clusters" in LIST_KEYS && "contexts" in LIST_KEYS && "users" in LIST_KEYS by {
      assert LIST_KEYS[0] == "clusters" && LIST_KEYS[1] == "contexts" && LIST_KEYS[2] == "users";
    }
    assert ListOf(src, "clusters") == [Obj(cluster)];
    assert ListOf(src, "contexts") == [Obj(context)];
    assert ListOf(src, "users") == [Obj(user)];
    BroughtIsFound(existing, src, r, c, "clusters", cluster);
    BroughtIsFound(existing, src, r, c, "contexts", context);
    BroughtIsFound(existing, src, r, c, "users", user);
  }

  lemma CurrentIsInstalled(existing: File, src: map<string, Value>, r: map<string, Value>, c: string)
    requires IsBranded(src, c) && IsInstall(r, existing, src)
    ensures "current-context" in r && r["current-context"] == Str(c)
  {
    hide ListOf, EntryName;
    if existing.Mapping? {
      assert Field(r, CURRENT) == MergedField(existing.fields, src, CURRENT);
    }
  }

  lemma EntryHolds(e: NamedEntry) returns (fields: map<string, Value>)
    ensures RenderedEntry(e) == Obj(fields)
    ensures forall body :: e.cluster == Some(body) ==> "cluster" in fields && fields["cluster"] == body
    ensures forall body :: e.user == Some(body) ==> "user" in fields && fields["user"] == body
  {
    fields := RenderedEntry(e).fields;
  }

  lemma ContextHolds(e: ContextEntry) returns (fields: map<string, Value>, body: map<string, Value>)
    ensures RenderedContext(e) == Obj(fields) && "context" in fields && fields["context"] == Obj(body)
    ensures "cluster" in body && body["cluster"] == Str(e.context.cluster)
    ensures "user" in body && body["user"] == Str(e.context.user)
    ensures e.context.namespace != "" ==> "namespace" in body && body["namespace"] == Str(e.context.namespace)
    ensures forall more :: e.context.extensions == Some(more) ==> "extensions" in body && body["extensions"] == more
  {
    fields := RenderedContext(e).fields;
    body := fields["context"].fields;
  }

  // ---------- Remove ----------

  /** What Remove leaves under each key: a list that loses nothing is not touched at all, and one
      that loses everything goes. */
  function RemovedField(kc: map<string, Value>, c: string, key: string): Option<Value> {
    if key in LIST_KEYS then
      var kept := Without(ListOf(kc, key), c);
      if |kept| == |ListOf(kc, key)| then Field(kc, key)
      else if kept == [] then None
      else Some(List(kept))
    else if key == CURRENT && StringOf(kc, CURRENT) == c then None
    else Field(kc, key)
  }

  ghost predicate IsRemoval(r: map<string, Value>, kc: map<string, Value>, c: string) {
    forall key :: Field(r, key) == RemovedField(kc, c, key)
  }

  ghost predicate Refers(kc: map<string, Value>, c: string) {
    || StringOf(kc, CURRENT) == c
    || exists key :: key in LIST_KEYS && exists e :: e in ListOf(kc, key) && EntryName(e) == c
  }

  method Remove(existing: File, c: string) returns (r: File, changed: bool)
    ensures existing.Blank? ==> r == existing && !changed
    ensures existing.Mapping? ==> r.Mapping? && IsRemoval(r.fields, existing.fields, c)
    ensures existing.Mapping? ==> (changed <==> Refers(existing.fields, c))
    ensures !changed ==> r == existing
  {
    if existing.Blank? {
      return existing, false;
    }
    var kc := existing.fields;
    changed := false;
    ghost var before := kc;
    hide Without, IsRemoval, Names, RemovedField, Refers;
    for i := 0 to |LIST_KEYS|
      invariant RemovedUpTo(kc, before, c, i) && (changed <==> NamedUpTo(before, c, i))
      invariant !changed ==> kc == before
    {
      var key := LIST_KEYS[i];
      KeyIsFresh(kc, before, c, i);
      var lost;
      kc, lost := RemoveFrom(kc, key, c);
      changed := changed || lost;
    }
    NamesRefers(before, c);
    RemovedLists(kc, before, c);
    if StringOf(kc, CURRENT) == c {
      kc := kc - {CURRENT};
      changed := true;
    }
    if !changed {
      return existing, false;
    }
    return Mapping(kc), true;
  }

  ghost predicate RemovedUpTo(kc: map<string, Value>, before: map<string, Value>, c: string, i: nat)
    requires i <= |LIST_KEYS|
  {
    forall key :: Field(kc, key) == if key in LIST_KEYS[..i] then RemovedField(before, c, key) else Field(before, key)
  }

  ghost predicate NamedUpTo(kc: map<string, Value>, c: string, i: nat)
    requires i <= |LIST_KEYS|
  {
    exists k :: 0 <= k < i && Names(kc, LIST_KEYS[k], c)
  }

  lemma KeyIsFresh(kc: map<string, Value>, before: map<string, Value>, c: string, i: nat)
    requires i < |LIST_KEYS| && RemovedUpTo(kc, before, c, i)
    ensures var key := LIST_KEYS[i];
            && Field(kc, key) == Field(before, key)
            && RemovedField(kc, c, key) == RemovedField(before, c, key)
            && (Names(kc, key, c) <==> Names(before, key, c))
            && (NamedUpTo(before, c, i + 1) <==> NamedUpTo(before, c, i) || Names(before, key, c))
            && forall k :: k in LIST_KEYS[..i + 1] <==> k in LIST_KEYS[..i] || k == key
  {
    var key := LIST_KEYS[i];
    assert key !in LIST_KEYS[..i] && LIST_KEYS[..i + 1] == LIST_KEYS[..i] + [key];
    assert Field(kc, key) == Field(before, key);
    assert ListOf(kc, key) == ListOf(before, key);
    hide Without, Names;
  }

  lemma RemovedLists(kc: map<string, Value>, before: map<string, Value>, c: string)
    requires RemovedUpTo(kc, before, c, |LIST_KEYS|)
    ensures Field(kc, CURRENT) == Field(before, CURRENT) && StringOf(kc, CURRENT) == StringOf(before, CURRENT)
    ensures IsRemoval(if StringOf(kc, CURRENT) == c then kc - {CURRENT} else kc, before, c)
  {
    assert LIST_KEYS[..|LIST_KEYS|] == LIST_KEYS;
    assert Field(kc, CURRENT) == Field(before, CURRENT);
    hide Without;
    var r := if StringOf(kc, CURRENT) == c then kc - {CURRENT} else kc;
    forall key ensures Field(r, key) == RemovedField(before, c, key) {
      assert Field(kc, key) == if key in LIST_KEYS then RemovedField(before, c, key) else Field(before, key);
    }
  }

  /** One of the three lists. */
  method RemoveFrom(kc: map<string, Value>, key: string, c: string) returns (r: map<string, Value>, changed: bool)
    requires key in LIST_KEYS
    ensures forall k :: Field(r, k) == if k == key then RemovedField(kc, c, key) else Field(kc, k)
    ensures changed <==> Names(kc, key, c)
    ensures !changed ==> r == kc
  {
    hide Without;
    var list := ListOf(kc, key);
    var kept := KeepOthers(list, c);
    WithoutLength(list, c);
    if |kept| == |list| {
      return kc, false;
    }
    if |kept| == 0 {
      return kc - {key}, true;
    }
    return kc[key := List(kept)], true;
  }

  ghost predicate Names(kc: map<string, Value>, key: string, c: string) {
    exists e :: e in ListOf(kc, key) && EntryName(e) == c
  }

  lemma NamesRefers(kc: map<string, Value>, c: string)
    ensures Refers(kc, c) <==> StringOf(kc, CURRENT) == c || NamedUpTo(kc, c, |LIST_KEYS|)
  {
    if k :| 0 <= k < |LIST_KEYS| && Names(kc, LIST_KEYS[k], c) {
      assert LIST_KEYS[k] in LIST_KEYS;
    }
    if key :| key in LIST_KEYS && Names(kc, key, c) {
      var k :| 0 <= k < |LIST_KEYS| && LIST_KEYS[k] == key;
      assert Names(kc, LIST_KEYS[k], c);
    }
  }

  method KeepOthers(list: seq<Value>, c: string) returns (kept: seq<Value>)
    ensures kept == Without(list, c)
  {
    kept := [];
    for i := 0 to |list|
      invariant kept == Without(list[..i], c)
    {
      assert list[..i + 1][..i] == list[..i];
      if EntryName(list[i]) != c {
        kept := kept + [list[i]];
      }
    }
    assert list[..|list|] == list;
  }

  /** A removed cube is gone: nothing refers to it any more, so removing again changes nothing. */
  lemma RemovedIsGone(kc: map<string, Value>, c: string, r: map<string, Value>)
    requires IsRemoval(r, kc, c) && c != ""
    ensures !Refers(r, c)
  {
    assert Field(r, CURRENT) == RemovedField(kc, c, CURRENT);
    forall key | key in LIST_KEYS ensures !Names(r, key, c) {
      assert Field(r, key) == RemovedField(kc, c, key);
      WithoutLength(ListOf(kc, key), c);
    }
  }

  /** No list of the file has an entry that says the cube's name, and it is not current. */
  lemma NothingSaysIt(kc: map<string, Value>, c: string, r: map<string, Value>)
    requires IsRemoval(r, kc, c) && c != ""
    ensures forall key <- {"clusters", "contexts", "users"} ::
              key in r && r[key].List? ==> forall e <- r[key].items :: !SaysName(e, c)
    ensures "current-context" in r ==> r["current-context"] != Str(c)
  {
    RemovedIsGone(kc, c, r);
    assert LIST_KEYS[0] == "clusters" && LIST_KEYS[1] == "contexts" && LIST_KEYS[2] == "users";
    hide EntryName, SaysName;
    forall key, e | key in {"clusters", "contexts", "users"} && key in r && r[key].List? && e in r[key].items
      ensures !SaysName(e, c)
    {
      assert key in LIST_KEYS && e in ListOf(r, key);
      NameIsSaid(e, c);
    }
  }

  // ---------- Remove after Merge ----------

  /** What is left under each key by installing cube c and removing it. */
  function RoundTripField(existing: File, src: map<string, Value>, c: string, key: string): Option<Value> {
    match existing
    case Blank =>
      if key in LIST_KEYS || key == CURRENT then None else Field(src, key)
    case Mapping(kc) =>
      if key in LIST_KEYS then
        var kept := Without(ListOf(kc, key), c);
        if kept == [] then None else Some(List(kept))
      else if key == CURRENT then None
      else if key == "apiVersion" || key == "kind" then MergedField(kc, src, key)
      else Field(kc, key)
  }

  lemma MappingRoundTrip(kc: map<string, Value>, src: map<string, Value>, c: string, merged: map<string, Value>,
      r: map<string, Value>, key: string)
    requires IsBranded(src, c) && IsMerge(merged, kc, src) && IsRemoval(r, merged, c)
    ensures Field(r, key) == RoundTripField(Mapping(kc), src, c, key)
  {
    assert Field(r, key) == RemovedField(merged, c, key);
    assert Field(merged, key) == MergedField(kc, src, key);
    hide Without, UpsertOne, Upserted;
    if key in LIST_KEYS {
      BrandedLists(kc, src, merged, c, key);
      UpsertKeepsOthers(ListOf(kc, key), ListOf(src, key)[0]);
      WithoutLength(ListOf(merged, key), c);
    }
  }

  lemma BlankRoundTrip(src: map<string, Value>, c: string, r: map<string, Value>, key: string)
    requires IsBranded(src, c) && IsRemoval(r, src, c)
    ensures Field(r, key) == RoundTripField(Blank, src, c, key)
  {
    assert Field(r, key) == RemovedField(src, c, key);
    if key in LIST_KEYS {
      WithoutSingle(ListOf(src, key)[0], c);
      assert ListOf(src, key) == [ListOf(src, key)[0]];
    }
  }

  /** The lists end up with exactly the user's entries not named after the cube, in the user's
      order, a list left empty being dropped; there is no current context; an apiVersion and kind
      the user had are kept; and every other key is as it was. Of an empty file is left what the
      incoming config held besides its entries and its current context. */
  lemma RemoveUndoesMerge(existing: File, src: map<string, Value>, c: string, merged: map<string, Value>,
      r: map<string, Value>)
    requires IsBranded(src, c) && IsInstall(merged, existing, src) && IsRemoval(r, merged, c)
    ensures forall key :: Field(r, key) == RoundTripField(existing, src, c, key)
  {
    forall key ensures Field(r, key) == RoundTripField(existing, src, c, key) {
      match existing
      case Blank => BlankRoundTrip(src, c, r, key);
      case Mapping(kc) => MappingRoundTrip(kc, src, c, merged, r, key);
    }
  }

  /** The file is given back as it was exactly when these hold of it beforehand: it holds something;
      each list that is there is a list, not empty, with no entry of the cube's name; no context is
      current; and it says its apiVersion, or says of apiVersion and kind, for want of a better
      one, what Merge would write. */
  ghost predicate Restorable(existing: File, src: map<string, Value>, c: string) {
    && existing.Mapping?
    && var kc := existing.fields;
       && (forall key <- LIST_KEYS :: RestorableList(kc, c, key))
       && CURRENT !in kc
       && (StringOf(kc, "apiVersion") != ""
           || (Versioned(kc, src, "apiVersion") && Versioned(kc, src, "kind")))
  }

  ghost predicate RestorableList(kc: map<string, Value>, c: string, key: string) {
    key in kc ==> kc[key].List? && kc[key].items != [] && !Names(kc, key, c)
  }

  ghost predicate Versioned(kc: map<string, Value>, src: map<string, Value>, key: string) {
    Field(kc, key) == Some(if key in src then src[key] else Null)
  }

  lemma ListRestored(kc: map<string, Value>, src: map<string, Value>, c: string, r: map<string, Value>, key: string)
    requires key in LIST_KEYS && Field(r, key) == RoundTripField(Mapping(kc), src, c, key)
    ensures Field(r, key) == Field(kc, key) <==> RestorableList(kc, c, key)
  {
    hide Without;
    WithoutLength(ListOf(kc, key), c);
  }

  /** The documentation calls Remove the exact reverse of Merge. It is so precisely for the files
      that are restorable; never for an empty one. */
  lemma ExactReverseIff(existing: File, src: map<string, Value>, c: string, merged: map<string, Value>,
      r: map<string, Value>)
    requires IsBranded(src, c) && IsInstall(merged, existing, src) && IsRemoval(r, merged, c)
    ensures Mapping(r) == existing <==> Restorable(existing, src, c)
  {
    RemoveUndoesMerge(existing, src, c, merged, r);
    if existing.Mapping? {
      var kc := existing.fields;
      hide IsBranded, IsInstall, IsRemoval, Without, Names, RestorableList;
      forall key | key in LIST_KEYS ensures Field(r, key) == Field(kc, key) <==> RestorableList(kc, c, key) {
        assert Field(r, key) == RoundTripField(existing, src, c, key);
        ListRestored(kc, src, c, r, key);
      }
      assert Field(r, CURRENT) == RoundTripField(existing, src, c, CURRENT) == None;
      assert Field(r, "apiVersion") == RoundTripField(existing, src, c, "apiVersion");
      assert Field(r, "kind") == RoundTripField(existing, src, c, "kind");
      if Restorable(existing, src, c) {
        forall key ensures Field(r, key) == Field(kc, key) {
          assert Field(r, key) == RoundTripField(existing, src, c, key);
        }
        ExtensionallyEqual(r, kc);
      }
    }
  }

  /** A user's file with another context current does not come back as it was. */
  lemma CurrentContextIsLost(src: map<string, Value>, c: string, merged: map<string, Value>, r: map<string, Value>)
    requires IsBranded(src, c)
    requires var kc := map[CURRENT := Str("other"), "apiVersion" := Str("v1"), "kind" := Str("Config")];
             IsMerge(merged, kc, src) && IsRemoval(r, merged, c)
    ensures r != map[CURRENT := Str("other"), "apiVersion" := Str("v1"), "kind" := Str("Config")]
  {
    var kc := map[CURRENT := Str("other"), "apiVersion" := Str("v1"), "kind" := Str("Config")];
    RemoveUndoesMerge(Mapping(kc), src, c, merged, r);
    assert Field(r, CURRENT) == RoundTripField(Mapping(kc), src, c, CURRENT);
  }

  // ---------- two cubes ----------

  lemma {:induction false} WithoutMiddle(p: seq<Value>, x: Value, q: seq<Value>, c: string)
    requires EntryName(x) != c
    ensures Without(p + [x] + q, c) == Without(p, c) + [x] + Without(q, c)
  {
    hide Without;
    WithoutConcat(p + [x], q, c);
    WithoutConcat(p, [x], c);
    WithoutSingle(x, c);
  }

  lemma {:induction false} UpsertMiddle(p: seq<Value>, x: Value, q: seq<Value>, s: Value)
    requires EntryName(x) == EntryName(s) && forall e <- p :: EntryName(e) != EntryName(s)
    ensures UpsertOne(p + [x] + q, s) == p + [s] + q
  {
    var all := p + [x] + q;
    assert all[|p|] == x;
    FirstNamedIs(all, EntryName(s), |p|);
    hide FirstNamed;
    assert all[|p| := s] == p + [s] + q;
  }

  lemma {:induction false} UpsertNew(dst: seq<Value>, s: Value)
    requires forall e <- dst :: EntryName(e) != EntryName(s)
    ensures UpsertOne(dst, s) == dst + [s]
  {
    FirstNamedIs(dst, EntryName(s), |dst|);
  }

  /** Installing one cube and removing another do not disturb each other. */
  lemma {:induction false} UpsertCommutesWithRemove(dst: seq<Value>, s: Value, c: string)
    requires EntryName(s) != c
    ensures Without(UpsertOne(dst, s), c) == UpsertOne(Without(dst, c), s)
  {
    var i := FirstNamed(dst, EntryName(s));
    hide Without, FirstNamed;
    WithoutLength(dst, c);
    if i < |dst| {
      var p, x, q := dst[..i], dst[i], dst[i + 1..];
      assert dst == p + [x] + q;
      UpsertMiddle(p, x, q, s);
      WithoutMiddle(p, x, q, c);
      WithoutMiddle(p, s, q, c);
      WithoutLength(p, c);
      UpsertMiddle(Without(p, c), x, Without(q, c), s);
    } else {
      UpsertNew(dst, s);
      UpsertNew(Without(dst, c), s);
      WithoutConcat(dst, [s], c);
      WithoutSingle(s, c);
    }
  }
}
