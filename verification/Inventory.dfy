/** The bootstrap inventory: the recorded list of owned objects, the seed of a future `down`. */
module Inventory {
  import opened Ordering

  datatype ObjectRef = ObjectRef(apiVersion: string, kind: string, namespace: string, name: string)

  /** A declared object: its identity and whatever else it says. */
  datatype Manifest = Manifest(ref: ObjectRef, content: string)

  function RefKey(r: ObjectRef): string {
    r.namespace + "/" + r.kind + "/" + r.name
  }

  function RefsOf(objs: seq<Manifest>): seq<ObjectRef> {
    seq(|objs|, i requires 0 <= i < |objs| => objs[i].ref)
  }

  /** The list an inventory of `objs` may hold: their references, sorted by key. */
  ghost predicate Lists(refs: seq<ObjectRef>, objs: seq<Manifest>) {
    SortOf(refs, RefsOf(objs), RefKey)
  }

  /** inventoryConfigMap's list. */
  method InventoryRefs(objs: seq<Manifest>) returns (refs: seq<ObjectRef>)
    ensures Lists(refs, objs)
    ensures forall i, j :: 0 <= i < j < |refs| ==>
              Precedes(refs[i].namespace + "/" + refs[i].kind + "/" + refs[i].name,
                       refs[j].namespace + "/" + refs[j].kind + "/" + refs[j].name)
  {
    refs := [];
    for i := 0 to |objs|
      invariant refs == RefsOf(objs)[..i]
    {
      refs := refs + [objs[i].ref];
    }
    assert refs == RefsOf(objs);
    refs := SortByKey(refs, RefKey);
  }

  // ---------- is the list a function of the owned set? ----------

  lemma Swapped(a: seq<ObjectRef>, i: nat, j: nat)
    requires i < j < |a| && RefKey(a[i]) == RefKey(a[j]) && a[i] != a[j]
    requires SortedBy(a, RefKey)
    ensures var b := a[i := a[j]][j := a[i]];
            b != a && multiset(b) == multiset(a) && SortedBy(b, RefKey)
  {
    var b := a[i := a[j]][j := a[i]];
    assert b[i] == a[j] != a[i];
    assert forall k :: 0 <= k < |a| ==> RefKey(b[k]) == RefKey(a[k]);
  }

  /** Every order of the owned objects gives this same list. */
  ghost predicate OneList(objs: seq<Manifest>, refs: seq<ObjectRef>) {
    forall objs', refs' :: multiset(RefsOf(objs')) == multiset(RefsOf(objs)) && Lists(refs', objs') ==> refs' == refs
  }

  lemma AnotherList(objs: seq<Manifest>, refs: seq<ObjectRef>) returns (refs': seq<ObjectRef>)
    requires Lists(refs, objs) && !InjectiveOn(refs, RefKey)
    ensures Lists(refs', objs) && refs' != refs
  {
    var x, y :| x in refs && y in refs && RefKey(x) == RefKey(y) && x != y;
    var i :| 0 <= i < |refs| && refs[i] == x;
    var j :| 0 <= j < |refs| && refs[j] == y;
    var lo, hi := if i < j then i else j, if i < j then j else i;
    Swapped(refs, lo, hi);
    refs' := refs[lo := refs[hi]][hi := refs[lo]];
  }

  /** The recorded list is a function of the owned set exactly when the keys tell the references
      apart: the key leaves out the apiVersion. */
  lemma ListIsCanonical(objs: seq<Manifest>, refs: seq<ObjectRef>)
    requires Lists(refs, objs)
    ensures OneList(objs, refs) <==> InjectiveOn(refs, RefKey)
  {
    if InjectiveOn(refs, RefKey) {
      forall objs', refs' | multiset(RefsOf(objs')) == multiset(RefsOf(objs)) && Lists(refs', objs')
        ensures refs' == refs
      {
        SortIsUnique(refs, refs', RefKey);
      }
    } else {
      var refs' := AnotherList(objs, refs);
    }
  }

  lemma CutAtSlash(a: string, x: string, b: string, y: string)
    requires '/' !in a && '/' !in b
    requires a + "/" + x == b + "/" + y
    ensures a == b && x == y
  {
    var s := a + "/" + x;
    assert s[|a|] == '/' && (b + "/" + y)[|b|] == '/';
    assert forall k :: 0 <= k < |a| ==> s[k] == a[k];
    assert forall k :: 0 <= k < |b| ==> (b + "/" + y)[k] == b[k];
    assert |a| == |b|;
    assert s[..|a|] == a && (b + "/" + y)[..|b|] == b;
    assert s[|a| + 1..] == x && (b + "/" + y)[|b| + 1..] == y;
  }

  predicate SlashFree(r: ObjectRef) {
    '/' !in r.namespace && '/' !in r.kind
  }

  /** Kubernetes namespaces and kinds hold no slash, so the only thing the key cannot tell apart
      is the apiVersion. */
  lemma KeyForgetsOnlyApiVersion(r: ObjectRef, r': ObjectRef)
    requires SlashFree(r) && SlashFree(r')
    ensures RefKey(r) == RefKey(r') <==> r.(apiVersion := "") == r'.(apiVersion := "")
  {
    if RefKey(r) == RefKey(r') {
      var rest, rest' := r.kind + "/" + r.name, r'.kind + "/" + r'.name;
      assert RefKey(r) == r.namespace + "/" + rest && RefKey(r') == r'.namespace + "/" + rest';
      CutAtSlash(r.namespace, rest, r'.namespace, rest');
      CutAtSlash(r.kind, r.name, r'.kind, r'.name);
    }
  }
}
