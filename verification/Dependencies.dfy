/** Pack dependency resolution: identities, dependsOn targets, and the install order. */
module Dependencies {
  import opened Finite
  import opened Wrappers

  type InstanceID = string

  /** One setup entry paired with the name of the pack it resolved to. */
  datatype Instance = Instance(name: string, id: string, dependsOn: seq<string>)

  datatype Error =
    | IdRequired(name: string, copies: nat)
    | DuplicateId(id: InstanceID, first: nat, second: nat)
    | UnknownDependency(from: InstanceID, target: string)
    | AmbiguousDependency(from: InstanceID, target: string, candidates: seq<InstanceID>)
    | Cycle(members: seq<InstanceID>)

  type Graph = map<InstanceID, seq<InstanceID>>

  // ---------- identities ----------

  /** An explicit id wins; otherwise the pack's own name serves. */
  function IdOf(inst: Instance): InstanceID {
    if inst.id != "" then inst.id else inst.name
  }

  function Ids(instances: seq<Instance>): (ids: seq<InstanceID>)
    ensures |ids| == |instances|
    ensures forall i :: 0 <= i < |ids| ==> ids[i] == IdOf(instances[i])
  {
    seq(|instances|, i requires 0 <= i < |instances| => IdOf(instances[i]))
  }

  function Copies(instances: seq<Instance>, name: string): nat {
    if instances == [] then 0
    else Copies(instances[..|instances| - 1], name) + if instances[|instances| - 1].name == name then 1 else 0
  }

  /** A defaulted id whose name another entry also carries. */
  ghost predicate Unnamed(instances: seq<Instance>, i: nat)
    requires i < |instances|
  {
    instances[i].id == "" && Copies(instances, instances[i].name) > 1
  }

  ghost predicate Repeats(instances: seq<Instance>, first: nat, second: nat) {
    first < second < |instances| && IdOf(instances[first]) == IdOf(instances[second])
  }

  ghost predicate ValidIdentities(instances: seq<Instance>) {
    && (forall i :: 0 <= i < |instances| ==> !Unnamed(instances, i))
    && Distinct(Ids(instances))
  }

  /** The entry the identity check stops at: the first that is unnamed or repeats an earlier id. */
  ghost predicate IdentityError(instances: seq<Instance>, error: Error) {
    exists k :: 0 <= k < |instances|
      && (forall i :: 0 <= i < k ==> !Unnamed(instances, i))
      && Distinct(Ids(instances)[..k])
      && if Unnamed(instances, k)
         then error == IdRequired(instances[k].name, Copies(instances, instances[k].name))
         else exists first :: Repeats(instances, first, k) && error == DuplicateId(IdOf(instances[k]), first, k)
  }

  // ---------- what an identity is ----------

  /** Entry i goes by `id`: by its explicit id, whatever that is; without one by its pack's name,
      which no other entry may carry. */
  ghost predicate GoesBy(instances: seq<Instance>, i: nat, id: InstanceID)
    requires i < |instances|
  {
    if instances[i].id != "" then id == instances[i].id
    else id == instances[i].name && forall j :: 0 <= j < |instances| && j != i ==> instances[j].name != id
  }

  ghost predicate Identify(instances: seq<Instance>, ids: seq<InstanceID>) {
    && |ids| == |instances|
    && (forall i :: 0 <= i < |ids| ==> GoesBy(instances, i, ids[i]))
    && Distinct(ids)
  }

  lemma {:induction false} CopiesElsewhere(instances: seq<Instance>, i: nat)
    requires i < |instances|
    ensures Copies(instances, instances[i].name) >= 1
    ensures Copies(instances, instances[i].name) > 1 <==>
            exists j :: 0 <= j < |instances| && j != i && instances[j].name == instances[i].name
  {
    var n, name := |instances| - 1, instances[i].name;
    if i < n {
      CopiesElsewhere(instances[..n], i);
      if j :| 0 <= j < |instances| && j != i && instances[j].name == name {
        assert j < n ==> instances[..n][j].name == name;
      }
    } else {
      CopiesOfNone(instances[..n], name);
    }
  }

  lemma {:induction false} CopiesOfNone(instances: seq<Instance>, name: string)
    ensures Copies(instances, name) == 0 <==> forall j :: 0 <= j < |instances| ==> instances[j].name != name
  {
    if instances != [] {
      var n := |instances| - 1;
      CopiesOfNone(instances[..n], name);
      assert forall j :: 0 <= j < n ==> instances[..n][j] == instances[j];
    }
  }

  lemma UnnamedIff(instances: seq<Instance>, i: nat)
    requires i < |instances|
    ensures GoesBy(instances, i, IdOf(instances[i])) <==> !Unnamed(instances, i)
    ensures forall id :: GoesBy(instances, i, id) ==> id == IdOf(instances[i])
  {
    CopiesElsewhere(instances, i);
  }

  /** The identities are valid exactly when every entry goes by something and no two by the same;
      and there is only one way they can. */
  lemma IdentitiesAre(instances: seq<Instance>)
    ensures ValidIdentities(instances) <==> exists ids :: Identify(instances, ids)
    ensures forall ids :: Identify(instances, ids) ==> ids == Ids(instances)
  {
    hide Unnamed, GoesBy, IdOf;
    forall i | 0 <= i < |instances|
      ensures GoesBy(instances, i, IdOf(instances[i])) <==> !Unnamed(instances, i)
    {
      UnnamedIff(instances, i);
    }
    forall i, id | 0 <= i < |instances| && GoesBy(instances, i, id) ensures id == IdOf(instances[i]) {
      UnnamedIff(instances, i);
    }
    forall ids | Identify(instances, ids) ensures ids == Ids(instances) && ValidIdentities(instances) {
      assert forall i :: 0 <= i < |ids| ==> ids[i] == IdOf(instances[i]);
      assert ids == Ids(instances);
    }
    if ValidIdentities(instances) {
      assert Identify(instances, Ids(instances));
    }
  }

  /** Explicit ids that are all there and all different are accepted, whatever the packs. */
  ghost predicate AllExplicit(instances: seq<Instance>) {
    && (forall i :: 0 <= i < |instances| ==> instances[i].id != "")
    && forall i, j :: 0 <= i < j < |instances| ==> instances[i].id != instances[j].id
  }

  lemma ExplicitIdsServe(instances: seq<Instance>)
    ensures AllExplicit(instances) ==> exists ids :: Identify(instances, ids)
  {
    if AllExplicit(instances) {
      var ids := seq(|instances|, i requires 0 <= i < |instances| => instances[i].id);
      assert Identify(instances, ids);
    }
  }

  lemma UnnamedStops(instances: seq<Instance>, k: nat)
    requires k < |instances| && Unnamed(instances, k)
    requires forall i :: 0 <= i < k ==> !Unnamed(instances, i)
    requires Distinct(Ids(instances)[..k])
    ensures !ValidIdentities(instances)
    ensures IdentityError(instances, IdRequired(instances[k].name, Copies(instances, instances[k].name)))
  {
  }

  lemma RepeatStops(instances: seq<Instance>, first: nat, k: nat)
    requires Repeats(instances, first, k) && !Unnamed(instances, k)
    requires forall i :: 0 <= i < k ==> !Unnamed(instances, i)
    requires Distinct(Ids(instances)[..k])
    ensures !ValidIdentities(instances)
    ensures IdentityError(instances, DuplicateId(IdOf(instances[k]), first, k))
  {
    assert Ids(instances)[first] == Ids(instances)[k];
  }

  /** The first loop of EffectiveIDs: how many entries carry each name. */
  method CountNames(instances: seq<Instance>) returns (byName: map<string, nat>)
    ensures forall name :: (if name in byName then byName[name] else 0) == Copies(instances, name)
  {
    byName := map[];
    for i := 0 to |instances|
      invariant forall name :: (if name in byName then byName[name] else 0) == Copies(instances[..i], name)
    {
      var name := instances[i].name;
      assert instances[..i + 1][..i] == instances[..i];
      byName := byName[name := (if name in byName then byName[name] else 0) + 1];
    }
    assert instances[..|instances|] == instances;
  }

  method EffectiveIDs(instances: seq<Instance>) returns (r: Result<seq<InstanceID>, Error>)
    ensures r.Ok? <==> ValidIdentities(instances)
    ensures r.Ok? ==> r.value == Ids(instances)
    ensures r.Ok? <==> exists ids :: Identify(instances, ids)
    ensures r.Ok? ==> Identify(instances, r.value)
    ensures AllExplicit(instances) ==> r.Ok?
    ensures r.Err? ==> IdentityError(instances, r.error)
  {
    IdentitiesAre(instances);
    ExplicitIdsServe(instances);
    hide Copies, IdentityError, ValidIdentities, FirstSeen;
    var byName := CountNames(instances);
    var ids: seq<InstanceID> := [];
    var seen: map<InstanceID, nat> := map[];
    NothingSeen();
    for i := 0 to |instances|
      invariant ids == Ids(instances)[..i] && FirstSeen(ids, seen)
      invariant forall k :: 0 <= k < i ==> !Unnamed(instances, k)
    {
      var inst := instances[i];
      var id := inst.id;
      SeenTells(ids, seen, IdOf(inst));
      if id == "" {
        if inst.name in byName && byName[inst.name] > 1 {
          UnnamedStops(instances, i);
          return Err(IdRequired(inst.name, byName[inst.name]));
        }
        id := inst.name;
      }
      if id in seen {
        RepeatStops(instances, seen[id], i);
        return Err(DuplicateId(id, seen[id], i));
      }
      seen := seen[id := i];
      ids := ids + [id];
    }
    AllIdentified(instances, ids, seen);
    return Ok(ids);
  }

  /** The ids so far are distinct, and `seen` has where each of them is. */
  ghost predicate FirstSeen(ids: seq<InstanceID>, seen: map<InstanceID, nat>) {
    && Distinct(ids)
    && (forall k :: 0 <= k < |ids| ==> ids[k] in seen)
    && forall id <- seen :: seen[id] < |ids| && ids[seen[id]] == id
  }

  lemma NothingSeen()
    ensures FirstSeen([], map[])
  {
  }

  lemma SeenTells(ids: seq<InstanceID>, seen: map<InstanceID, nat>, id: InstanceID)
    requires FirstSeen(ids, seen)
    ensures Distinct(ids)
    ensures id in seen ==> seen[id] < |ids| && ids[seen[id]] == id
    ensures id !in seen ==> FirstSeen(ids + [id], seen[id := |ids|])
  {
  }

  lemma AllIdentified(instances: seq<Instance>, ids: seq<InstanceID>, seen: map<InstanceID, nat>)
    requires ids == Ids(instances)[..|instances|] && FirstSeen(ids, seen)
    requires forall k :: 0 <= k < |instances| ==> !Unnamed(instances, k)
    ensures ids == Ids(instances) && ValidIdentities(instances)
  {
  }

  // ---------- targets ----------

  datatype InstanceIndex = InstanceIndex(byID: set<InstanceID>, byName: map<string, seq<InstanceID>>)

  /** The ids of the instances of one pack, in declared order. */
  function NamedIds(instances: seq<Instance>, ids: seq<InstanceID>, name: string): seq<InstanceID>
    requires |ids| == |instances|
  {
    if instances == [] then []
    else
      var n := |instances| - 1;
      NamedIds(instances[..n], ids[..n], name) + if instances[n].name == name then [ids[n]] else []
  }

  ghost predicate Indexes(index: InstanceIndex, instances: seq<Instance>, ids: seq<InstanceID>)
    requires |ids| == |instances|
  {
    && (forall id :: id in index.byID <==> id in ids)
    && (forall name :: Candidates(index, name) == NamedIds(instances, ids, name))
  }

  function Candidates(index: InstanceIndex, name: string): seq<InstanceID> {
    if name in index.byName then index.byName[name] else []
  }

  method NewInstanceIndex(instances: seq<Instance>, ids: seq<InstanceID>) returns (index: InstanceIndex)
    requires |ids| == |instances|
    ensures Indexes(index, instances, ids)
  {
    index := InstanceIndex({}, map[]);
    for i := 0 to |instances|
      invariant Indexes(index, instances[..i], ids[..i])
    {
      var name := instances[i].name;
      assert instances[..i + 1][..i] == instances[..i] && ids[..i + 1][..i] == ids[..i];
      assert ids[..i + 1] == ids[..i] + [ids[i]];
      index := InstanceIndex(index.byID + {ids[i]}, index.byName[name := Candidates(index, name) + [ids[i]]]);
    }
    assert instances[..|instances|] == instances && ids[..|ids|] == ids;
  }

  /** One target: an id first, then an unambiguous pack name; never the instance itself. */
  function Lookup(index: InstanceIndex, target: string, from: InstanceID): Result<InstanceID, Error> {
    if target in index.byID then
      if target == from then Err(Cycle([from])) else Ok(target)
    else
      var candidates := Candidates(index, target);
      if |candidates| == 0 then Err(UnknownDependency(from, target))
      else if |candidates| > 1 then Err(AmbiguousDependency(from, target, candidates))
      else if candidates[0] == from then Err(Cycle([from]))
      else Ok(candidates[0])
  }

  /** What a target means: the instance it names, if it names exactly one other one. */
  ghost predicate Names(instances: seq<Instance>, target: string, from: InstanceID, to: InstanceID) {
    && to != from
    && to in Ids(instances)
    && if target in Ids(instances) then to == target
       else exists i :: 0 <= i < |instances| && instances[i].name == target && IdOf(instances[i]) == to
              && forall j :: 0 <= j < |instances| && instances[j].name == target ==> j == i
  }

  /** The one instance a target names for `from`, if there is one. */
  ghost function Meaning(instances: seq<Instance>, target: string, from: InstanceID): (m: Option<InstanceID>)
    ensures forall to :: Names(instances, target, from, to) <==> m == Some(to)
  {
    if exists to :: Names(instances, target, from, to) then
      var to :| Names(instances, target, from, to);
      Some(to)
    else None
  }

  lemma {:induction false} NamedIdsMembers(instances: seq<Instance>, ids: seq<InstanceID>, name: string)
    requires |ids| == |instances|
    ensures |NamedIds(instances, ids, name)| == Copies(instances, name)
    ensures forall i :: 0 <= i < |instances| && instances[i].name == name ==> ids[i] in NamedIds(instances, ids, name)
    ensures forall id <- NamedIds(instances, ids, name) ::
              exists i :: 0 <= i < |instances| && instances[i].name == name && ids[i] == id
  {
    if instances != [] {
      var n := |instances| - 1;
      NamedIdsMembers(instances[..n], ids[..n], name);
      forall id <- NamedIds(instances, ids, name)
        ensures exists i :: 0 <= i < |instances| && instances[i].name == name && ids[i] == id
      {
        if id in NamedIds(instances[..n], ids[..n], name) {
          var i :| 0 <= i < n && instances[..n][i].name == name && ids[..n][i] == id;
          assert instances[i].name == name && ids[i] == id;
        } else {
          assert instances[n].name == name && ids[n] == id;
        }
      }
      forall i | 0 <= i < |instances| && instances[i].name == name
        ensures ids[i] in NamedIds(instances, ids, name)
      {
        if i < n {
          assert instances[..n][i].name == name && ids[..n][i] == ids[i];
        }
      }
    }
  }

  lemma {:induction false} TwoCopies(instances: seq<Instance>, name: string, i: nat, j: nat)
    requires i < j < |instances| && instances[i].name == instances[j].name == name
    ensures Copies(instances, name) >= 2
  {
    var n := |instances| - 1;
    if j < n {
      TwoCopies(instances[..n], name, i, j);
    } else {
      OneCopy(instances[..n], name, i);
    }
  }

  lemma {:induction false} OneCopy(instances: seq<Instance>, name: string, i: nat)
    requires i < |instances| && instances[i].name == name
    ensures Copies(instances, name) >= 1
  {
    var n := |instances| - 1;
    if i < n {
      OneCopy(instances[..n], name, i);
    }
  }

  lemma {:induction false} OnlyCopy(instances: seq<Instance>, name: string) returns (i: nat)
    requires Copies(instances, name) == 1
    ensures i < |instances| && instances[i].name == name
    ensures forall j :: 0 <= j < |instances| && instances[j].name == name ==> j == i
  {
    var ids := Ids(instances);
    NamedIdsMembers(instances, ids, name);
    assert NamedIds(instances, ids, name)[0] in NamedIds(instances, ids, name);
    i :| 0 <= i < |instances| && instances[i].name == name;
    forall j | 0 <= j < |instances| && instances[j].name == name ensures j == i {
      if j < i { TwoCopies(instances, name, j, i); }
      if i < j { TwoCopies(instances, name, i, j); }
    }
  }

  /** Lookup finds exactly what the target names. */
  lemma LookupFinds(instances: seq<Instance>, index: InstanceIndex, target: string, from: InstanceID)
    requires Indexes(index, instances, Ids(instances))
    ensures forall to :: Lookup(index, target, from) == Ok(to) <==> Meaning(instances, target, from) == Some(to)
  {
    hide NamedIds, IdOf;
    var ids := Ids(instances);
    var candidates := Candidates(index, target);
    assert candidates == NamedIds(instances, ids, target);
    NamedIdsMembers(instances, ids, target);
    if target !in ids {
      if |candidates| == 1 {
        var i := OnlyCopy(instances, target);
        assert ids[i] in candidates && candidates[0] == ids[i];
      } else if i :| 0 <= i < |instances| && instances[i].name == target {
        assert ids[i] in candidates;
        if forall j :: 0 <= j < |instances| && instances[j].name == target ==> j == i {
          OneCopyOnly(instances, target, i);
        }
      }
    }
  }

  /** What is wrong with a target that names no other instance, or several. */
  ghost predicate TargetFault(instances: seq<Instance>, target: string, from: InstanceID, error: Error) {
    var named := NamedIds(instances, Ids(instances), target);
    if target in Ids(instances) then target == from && error == Cycle([from])
    else if |named| == 0 then error == UnknownDependency(from, target)
    else if |named| > 1 then error == AmbiguousDependency(from, target, named)
    else named[0] == from && error == Cycle([from])
  }

  lemma LookupFails(instances: seq<Instance>, index: InstanceIndex, target: string, from: InstanceID)
    requires Indexes(index, instances, Ids(instances))
    ensures Lookup(index, target, from).Err? ==> TargetFault(instances, target, from, Lookup(index, target, from).error)
  {
    assert Candidates(index, target) == NamedIds(instances, Ids(instances), target);
    hide NamedIds, Candidates;
  }

  lemma {:induction false} OneCopyOnly(instances: seq<Instance>, name: string, i: nat)
    requires i < |instances| && instances[i].name == name
    requires forall j :: 0 <= j < |instances| && instances[j].name == name ==> j == i
    ensures Copies(instances, name) == 1
  {
    var n := |instances| - 1;
    if i < n {
      forall j | 0 <= j < n && instances[..n][j].name == name ensures j == i {
        assert instances[j].name == name;
      }
      OneCopyOnly(instances[..n], name, i);
    } else {
      NoCopies(instances[..n], name);
    }
  }

  lemma {:induction false} NoCopies(instances: seq<Instance>, name: string)
    requires forall j :: 0 <= j < |instances| ==> instances[j].name != name
    ensures Copies(instances, name) == 0
  {
    if instances != [] {
      NoCopies(instances[..|instances| - 1], name);
    }
  }

  // ---------- the declared graph ----------

  function EdgesOf(graph: Graph, id: InstanceID): seq<InstanceID> {
    if id in graph then graph[id] else []
  }

  ghost predicate Resolvable(instances: seq<Instance>, targets: seq<string>, from: InstanceID) {
    forall t :: 0 <= t < |targets| ==> Meaning(instances, targets[t], from).Some?
  }

  ghost function Meanings(instances: seq<Instance>, targets: seq<string>, from: InstanceID): seq<InstanceID>
    requires Resolvable(instances, targets, from)
  {
    seq(|targets|, t requires 0 <= t < |targets| => Meaning(instances, targets[t], from).value)
  }

  /** Each value once, where it came first. */
  function Dedup(xs: seq<InstanceID>): seq<InstanceID> {
    if xs == [] then []
    else
      var earlier, last := Dedup(xs[..|xs| - 1]), xs[|xs| - 1];
      if last in earlier then earlier else earlier + [last]
  }

  /** What Dedup keeps: every value, none twice, in order of first occurrence. */
  lemma {:induction false} DedupKeepsFirsts(xs: seq<InstanceID>)
    ensures Distinct(Dedup(xs))
    ensures forall x :: x in Dedup(xs) <==> x in xs
    ensures forall j, k :: 0 <= j < k < |Dedup(xs)| ==> ComesFirst(xs, Dedup(xs)[j], Dedup(xs)[k])
  {
    if xs != [] {
      var n := |xs| - 1;
      var init, earlier, all := xs[..n], Dedup(xs[..n]), Dedup(xs);
      DedupKeepsFirsts(init);
      assert xs == init + [xs[n]];
      forall j, k | 0 <= j < k < |all| ensures ComesFirst(xs, all[j], all[k]) {
        if k < |earlier| {
          assert ComesFirst(init, earlier[j], earlier[k]);
          var t :| 0 <= t < n && init[t] == earlier[j] && earlier[k] !in init[..t];
          assert xs[..t] == init[..t] && xs[t] == all[j];
        } else {
          assert earlier[j] in Dedup(init) && xs[n] !in Dedup(init);
          var t :| 0 <= t < n && init[t] == earlier[j];
          assert xs[..t] == init[..t] && xs[t] == all[j];
        }
      }
    }
  }

  /** `a` occurs at a place before which `b` does not. */
  ghost predicate ComesFirst(xs: seq<InstanceID>, a: InstanceID, b: InstanceID) {
    exists t :: 0 <= t < |xs| && xs[t] == a && b !in xs[..t]
  }

  /** The edges of one instance: what its targets mean, each once, in declared order. */
  ghost predicate DeclaredEdges(instances: seq<Instance>, targets: seq<string>, from: InstanceID,
      edges: seq<InstanceID>) {
    Resolvable(instances, targets, from) && edges == Dedup(Meanings(instances, targets, from))
  }

  ghost predicate AllResolvable(instances: seq<Instance>) {
    forall i :: 0 <= i < |instances| ==> Resolvable(instances, instances[i].dependsOn, IdOf(instances[i]))
  }

  /** The graph holds exactly the declared edges. */
  ghost predicate DeclaredGraph(instances: seq<Instance>, graph: Graph) {
    && (forall id :: id in graph <==> id in Ids(instances))
    && forall i :: 0 <= i < |instances| ==>
         DeclaredEdges(instances, instances[i].dependsOn, IdOf(instances[i]), EdgesOf(graph, IdOf(instances[i])))
  }

  /** The first target of the instance that is at fault, and its fault. */
  ghost predicate FirstFault(instances: seq<Instance>, targets: seq<string>, from: InstanceID, t: nat, error: Error) {
    && t < |targets|
    && Resolvable(instances, targets[..t], from)
    && TargetFault(instances, targets[t], from, error)
  }

  ghost predicate TargetsError(instances: seq<Instance>, targets: seq<string>, from: InstanceID, error: Error) {
    exists t: nat :: FirstFault(instances, targets, from, t, error)
  }

  /** The error is the first unresolvable target's, of the first instance that has one. */
  ghost predicate FirstUnresolvable(instances: seq<Instance>, i: nat, error: Error) {
    && i < |instances|
    && (forall k :: 0 <= k < i ==> Resolvable(instances, instances[k].dependsOn, IdOf(instances[k])))
    && TargetsError(instances, instances[i].dependsOn, IdOf(instances[i]), error)
  }

  ghost predicate DependencyError(instances: seq<Instance>, error: Error) {
    exists i: nat :: FirstUnresolvable(instances, i, error)
  }

  /** The inner loop of resolveDependencies. */
  method ResolveTargets(instances: seq<Instance>, index: InstanceIndex, targets: seq<string>, from: InstanceID)
    returns (r: Result<seq<InstanceID>, Error>)
    requires Indexes(index, instances, Ids(instances))
    ensures r.Ok? <==> Resolvable(instances, targets, from)
    ensures r.Ok? ==> DeclaredEdges(instances, targets, from, r.value)
    ensures r.Err? ==> TargetsError(instances, targets, from, r.error)
  {
    hide Indexes, Lookup, TargetFault, Dedup;
    var edges: seq<InstanceID> := [];
    NoEdgeYet(instances, targets, from);
    for t := 0 to |targets|
      invariant DeclaredEdges(instances, targets[..t], from, edges)
    {
      LookupFinds(instances, index, targets[t], from);
      LookupFails(instances, index, targets[t], from);
      var to := Lookup(index, targets[t], from);
      if to.Err? {
        assert FirstFault(instances, targets, from, t, to.error);
        return Err(to.error);
      }
      OneMoreEdge(instances, targets, from, edges, t, to.value);
      if to.value !in edges {
        edges := edges + [to.value];
      }
    }
    assert targets[..|targets|] == targets;
    return Ok(edges);
  }

  lemma NoEdgeYet(instances: seq<Instance>, targets: seq<string>, from: InstanceID)
    ensures DeclaredEdges(instances, targets[..0], from, [])
  {
  }

  lemma {:induction false} OneMoreEdge(instances: seq<Instance>, targets: seq<string>, from: InstanceID,
      edges: seq<InstanceID>, t: nat, to: InstanceID)
    requires t < |targets| && Meaning(instances, targets[t], from) == Some(to)
    requires DeclaredEdges(instances, targets[..t], from, edges)
    ensures DeclaredEdges(instances, targets[..t + 1], from, if to in edges then edges else edges + [to])
  {
    MeaningsNext(instances, targets, from, t);
    hide Resolvable, Meanings, Meaning, Names;
    var before, after := Meanings(instances, targets[..t], from), Meanings(instances, targets[..t + 1], from);
    assert after[..t] == before && after[t] == to;
  }

  lemma MeaningsNext(instances: seq<Instance>, targets: seq<string>, from: InstanceID, t: nat)
    requires t < |targets| && Meaning(instances, targets[t], from).Some?
    requires Resolvable(instances, targets[..t], from)
    ensures Resolvable(instances, targets[..t + 1], from)
    ensures Meanings(instances, targets[..t + 1], from) ==
            Meanings(instances, targets[..t], from) + [Meaning(instances, targets[t], from).value]
  {
    hide Meaning, Names;
    assert targets[..t + 1] == targets[..t] + [targets[t]];
  }

  /** The first i instances are resolved, and the graph holds their edges. */
  ghost predicate ResolvedUpTo(instances: seq<Instance>, graph: Graph, i: nat)
    requires i <= |instances|
  {
    && (forall id :: id in graph <==> id in Ids(instances)[..i])
    && (forall k :: 0 <= k < i ==> Resolvable(instances, instances[k].dependsOn, IdOf(instances[k])))
    && forall k :: 0 <= k < i ==>
         DeclaredEdges(instances, instances[k].dependsOn, IdOf(instances[k]), EdgesOf(graph, IdOf(instances[k])))
  }

  lemma NothingResolved(instances: seq<Instance>)
    ensures ResolvedUpTo(instances, map[], 0)
  {
  }

  lemma ResolvedNext(instances: seq<Instance>, graph: Graph, i: nat, edges: seq<InstanceID>)
    requires ValidIdentities(instances) && i < |instances| && ResolvedUpTo(instances, graph, i)
    requires DeclaredEdges(instances, instances[i].dependsOn, IdOf(instances[i]), edges)
    ensures ResolvedUpTo(instances, graph[IdOf(instances[i]) := edges], i + 1)
  {
    hide Unnamed, DeclaredEdges, Resolvable, IdOf;
    var ids, id := Ids(instances), IdOf(instances[i]);
    DeclaredResolvable(instances, instances[i].dependsOn, id, edges);
    assert ids[..i + 1] == ids[..i] + [ids[i]];
    forall k | 0 <= k < i ensures IdOf(instances[k]) != id {
      assert ids[k] != ids[i];
    }
  }

  lemma DeclaredResolvable(instances: seq<Instance>, targets: seq<string>, from: InstanceID, edges: seq<InstanceID>)
    requires DeclaredEdges(instances, targets, from, edges)
    ensures Resolvable(instances, targets, from)
  {
  }

  lemma AllResolved(instances: seq<Instance>, graph: Graph)
    requires ResolvedUpTo(instances, graph, |instances|)
    ensures AllResolvable(instances) && DeclaredGraph(instances, graph)
  {
    assert Ids(instances)[..|instances|] == Ids(instances);
    hide DeclaredEdges, Resolvable;
  }

  method ResolveDependencies(instances: seq<Instance>) returns (r: Result<Graph, Error>)
    requires ValidIdentities(instances)
    ensures r.Ok? <==> AllResolvable(instances)
    ensures r.Ok? ==> DeclaredGraph(instances, r.value)
    ensures r.Err? ==> DependencyError(instances, r.error)
  {
    hide ValidIdentities, ResolvedUpTo, Resolvable, DeclaredEdges, TargetsError, DeclaredGraph;
    var ids := Ids(instances);
    var index := NewInstanceIndex(instances, ids);
    var graph: Graph := map[];
    NothingResolved(instances);
    for i := 0 to |instances|
      invariant ResolvedUpTo(instances, graph, i)
    {
      var from := ids[i];
      var edges := ResolveTargets(instances, index, instances[i].dependsOn, from);
      if edges.Err? {
        EarlierResolvable(instances, graph, i);
        assert FirstUnresolvable(instances, i, edges.error);
        return Err(edges.error);
      }
      ResolvedNext(instances, graph, i, edges.value);
      graph := graph[from := edges.value];
    }
    AllResolved(instances, graph);
    return Ok(graph);
  }

  lemma EarlierResolvable(instances: seq<Instance>, graph: Graph, i: nat)
    requires i <= |instances| && ResolvedUpTo(instances, graph, i)
    ensures forall k :: 0 <= k < i ==> Resolvable(instances, instances[k].dependsOn, IdOf(instances[k]))
  {
  }
}
