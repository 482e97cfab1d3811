/** The install order: Kahn's algorithm taking the earliest-declared ready instance.
    It succeeds exactly on acyclic graphs, its order is the least one by declared position,
    and what it reports on failure is exactly what a cycle can be reached from. */
module InstallOrder {
  import opened Finite
  import opened Dependencies
  import opened Wrappers

  // ---------- vocabulary ----------

  /** `dep` gates `id`: a declared edge to an instance of the set. */
  ghost predicate Gates(ids: seq<InstanceID>, graph: Graph, id: InstanceID, dep: InstanceID) {
    dep in EdgesOf(graph, id) && dep in ids
  }

  /** Not placed yet, and everything that gates it is. */
  ghost predicate Ready(ids: seq<InstanceID>, graph: Graph, placed: seq<InstanceID>, id: InstanceID) {
    && id !in placed
    && forall dep <- EdgesOf(graph, id) :: dep in ids ==> dep in placed
  }

  /** The earliest-declared instance that is ready. */
  ghost predicate Earliest(ids: seq<InstanceID>, graph: Graph, placed: seq<InstanceID>, p: nat) {
    && p < |ids|
    && Ready(ids, graph, placed, ids[p])
    && forall q :: 0 <= q < p ==> !Ready(ids, graph, placed, ids[q])
  }

  /** Each entry of the order was the earliest-declared ready instance when it was placed. */
  ghost predicate Greedy(ids: seq<InstanceID>, graph: Graph, order: seq<InstanceID>) {
    forall k :: 0 <= k < |order| ==> GreedyAt(ids, graph, order[..k], order[k])
  }

  ghost predicate GreedyAt(ids: seq<InstanceID>, graph: Graph, placed: seq<InstanceID>, next: InstanceID) {
    exists p: nat :: Earliest(ids, graph, placed, p) && ids[p] == next
  }

  ghost predicate NoneReady(ids: seq<InstanceID>, graph: Graph, placed: seq<InstanceID>) {
    forall q :: 0 <= q < |ids| ==> !Ready(ids, graph, placed, ids[q])
  }

  function Without(ids: seq<InstanceID>, placed: seq<InstanceID>): seq<InstanceID> {
    if ids == [] then []
    else
      var n := |ids| - 1;
      Without(ids[..n], placed) + if ids[n] in placed then [] else [ids[n]]
  }

  /** What the sort needs of its input: distinct ids, and no edge written twice. */
  ghost predicate Sortable(ids: seq<InstanceID>, graph: Graph) {
    Distinct(ids) && forall id <- ids :: Distinct(EdgesOf(graph, id))
  }

  // ---------- pending counts ----------

  /** How many of the edges still gate: they lead to an instance of the set not placed yet. */
  function Pending(edges: seq<InstanceID>, ids: seq<InstanceID>, placed: seq<InstanceID>): nat {
    if edges == [] then 0
    else
      var n := |edges| - 1;
      Pending(edges[..n], ids, placed) + if edges[n] in ids && edges[n] !in placed then 1 else 0
  }

  lemma {:induction false} PendingZero(edges: seq<InstanceID>, ids: seq<InstanceID>, placed: seq<InstanceID>)
    ensures Pending(edges, ids, placed) == 0 <==> forall dep <- edges :: dep in ids ==> dep in placed
  {
    if edges != [] {
      var n := |edges| - 1;
      PendingZero(edges[..n], ids, placed);
      assert edges == edges[..n] + [edges[n]];
    }
  }

  /** Placing one more instance takes one edge off whoever waits on it. */
  lemma {:induction false} PendingAfter(edges: seq<InstanceID>, ids: seq<InstanceID>, placed: seq<InstanceID>,
      next: InstanceID)
    requires Distinct(edges) && next in ids && next !in placed
    ensures Pending(edges, ids, placed + [next]) == Pending(edges, ids, placed) - (if next in edges then 1 else 0)
  {
    if edges != [] {
      var n := |edges| - 1;
      PendingAfter(edges[..n], ids, placed, next);
      assert edges == edges[..n] + [edges[n]];
    }
  }

  method PendingCounts(ids: seq<InstanceID>, graph: Graph) returns (remaining: map<InstanceID, int>)
    ensures remaining.Keys == set id | id in ids
    ensures forall id <- ids :: remaining[id] == Pending(EdgesOf(graph, id), ids, [])
  {
    var known: set<InstanceID> := {};
    for i := 0 to |ids|
      invariant known == set id | id in ids[..i]
    {
      assert ids[..i + 1] == ids[..i] + [ids[i]];
      known := known + {ids[i]};
    }
    assert ids[..|ids|] == ids;
    remaining := map[];
    for i := 0 to |ids|
      invariant remaining.Keys == set id | id in ids[..i]
      invariant forall id <- ids[..i] :: remaining[id] == Pending(EdgesOf(graph, id), ids, [])
    {
      var edges := EdgesOf(graph, ids[i]);
      var count := 0;
      for j := 0 to |edges|
        invariant count == Pending(edges[..j], ids, [])
      {
        assert edges[..j + 1][..j] == edges[..j];
        if edges[j] in known {
          count := count + 1;
        }
      }
      assert edges[..|edges|] == edges;
      assert ids[..i + 1] == ids[..i] + [ids[i]];
      remaining := remaining[ids[i] := count];
    }
  }

  /** Nothing gates it any more. */
  predicate Zero(remaining: map<InstanceID, int>, id: InstanceID) {
    id in remaining && remaining[id] == 0
  }

  ghost predicate FirstZero(ids: seq<InstanceID>, remaining: map<InstanceID, int>, p: int) {
    && 0 <= p < |ids|
    && Zero(remaining, ids[p])
    && forall q :: 0 <= q < p ==> !Zero(remaining, ids[q])
  }

  method ReadyInstance(ids: seq<InstanceID>, remaining: map<InstanceID, int>) returns (r: Option<InstanceID>)
    ensures r.None? <==> forall q :: 0 <= q < |ids| ==> !Zero(remaining, ids[q])
    ensures r.Some? ==> exists p :: FirstZero(ids, remaining, p) && ids[p] == r.value
  {
    for i := 0 to |ids|
      invariant forall q :: 0 <= q < i ==> !Zero(remaining, ids[q])
    {
      if ids[i] in remaining && remaining[ids[i]] == 0 {
        assert FirstZero(ids, remaining, i);
        return Some(ids[i]);
      }
    }
    return None;
  }

  method Unresolved(ids: seq<InstanceID>, remaining: map<InstanceID, int>, ghost placed: seq<InstanceID>)
    returns (stuck: seq<InstanceID>)
    requires forall id <- ids :: id in remaining <==> id !in placed
    ensures stuck == Without(ids, placed)
  {
    stuck := [];
    for i := 0 to |ids|
      invariant stuck == Without(ids[..i], placed)
    {
      assert ids[..i + 1][..i] == ids[..i];
      if ids[i] in remaining {
        stuck := stuck + [ids[i]];
      }
    }
    assert ids[..|ids|] == ids;
  }

  /** The counts at work: the keys are what is not placed, the values what still gates them. */
  ghost predicate Counts(ids: seq<InstanceID>, graph: Graph, placed: seq<InstanceID>, remaining: map<InstanceID, int>) {
    && (forall id :: id in remaining <==> id in ids && id !in placed)
    && forall id <- remaining :: remaining[id] == Pending(EdgesOf(graph, id), ids, placed)
  }

  lemma ReadyMeansZero(ids: seq<InstanceID>, graph: Graph, placed: seq<InstanceID>, remaining: map<InstanceID, int>)
    requires Counts(ids, graph, placed, remaining)
    ensures forall id <- ids :: Ready(ids, graph, placed, id) <==> Zero(remaining, id)
  {
    forall id <- ids ensures Ready(ids, graph, placed, id) <==> Zero(remaining, id) {
      PendingZero(EdgesOf(graph, id), ids, placed);
    }
  }

  /** The counts tell which instance is next, if any is ready. */
  lemma FirstZeroIsNext(ids: seq<InstanceID>, graph: Graph, placed: seq<InstanceID>, remaining: map<InstanceID, int>)
    requires Counts(ids, graph, placed, remaining)
    ensures (forall q :: 0 <= q < |ids| ==> !Zero(remaining, ids[q])) ==> NoneReady(ids, graph, placed)
    ensures forall p :: FirstZero(ids, remaining, p) ==> GreedyAt(ids, graph, placed, ids[p])
    ensures forall id :: Zero(remaining, id) ==> id in ids && id !in placed
    ensures forall id <- ids :: id in remaining <==> id !in placed
  {
    ReadyMeansZero(ids, graph, placed, remaining);
    hide Ready, Zero;
    assert forall id :: Zero(remaining, id) ==> id in remaining;
    forall p | FirstZero(ids, remaining, p) ensures GreedyAt(ids, graph, placed, ids[p]) {
      assert Earliest(ids, graph, placed, p);
    }
  }

  /** Partway through that: the first i instances know that `next` is placed. */
  ghost predicate Told(ids: seq<InstanceID>, graph: Graph, placed: seq<InstanceID>, remaining: map<InstanceID, int>,
      next: InstanceID, i: nat, r: map<InstanceID, int>)
    requires i <= |ids|
  {
    && (forall id :: id in r <==> id in remaining && id != next)
    && (forall k :: 0 <= k < i && ids[k] in r ==> r[ids[k]] == Pending(EdgesOf(graph, ids[k]), ids, placed + [next]))
    && forall k :: i <= k < |ids| && ids[k] in r ==> r[ids[k]] == Pending(EdgesOf(graph, ids[k]), ids, placed)
  }

  lemma NoneTold(ids: seq<InstanceID>, graph: Graph, placed: seq<InstanceID>, remaining: map<InstanceID, int>,
      next: InstanceID)
    requires Counts(ids, graph, placed, remaining)
    ensures Told(ids, graph, placed, remaining, next, 0, remaining - {next})
  {
    hide Pending, EdgesOf;
  }

  lemma TellOne(ids: seq<InstanceID>, graph: Graph, placed: seq<InstanceID>, remaining: map<InstanceID, int>,
      next: InstanceID, i: nat, r: map<InstanceID, int>)
    requires Sortable(ids, graph) && next in ids && next !in placed
    requires i < |ids| && Told(ids, graph, placed, remaining, next, i, r)
    ensures var id := ids[i];
            Told(ids, graph, placed, remaining, next, i + 1,
                 if id in r && next in EdgesOf(graph, id) then r[id := r[id] - 1] else r)
  {
    PendingAfter(EdgesOf(graph, ids[i]), ids, placed, next);
    hide Pending, EdgesOf;
  }

  lemma AllTold(ids: seq<InstanceID>, graph: Graph, placed: seq<InstanceID>, remaining: map<InstanceID, int>,
      next: InstanceID, r: map<InstanceID, int>)
    requires Counts(ids, graph, placed, remaining) && Told(ids, graph, placed, remaining, next, |ids|, r)
    ensures Counts(ids, graph, placed + [next], r)
  {
    hide Pending, EdgesOf;
  }

  /** The inner loop of the sort: everything waiting on `next` is one dependency closer. */
  method Place(ids: seq<InstanceID>, graph: Graph, placed: seq<InstanceID>, remaining: map<InstanceID, int>,
      next: InstanceID)
    returns (remaining': map<InstanceID, int>)
    requires Sortable(ids, graph) && next in ids && next !in placed
    requires Counts(ids, graph, placed, remaining)
    ensures Counts(ids, graph, placed + [next], remaining')
  {
    hide Told, Counts, Sortable, EdgesOf;
    remaining' := remaining - {next};
    NoneTold(ids, graph, placed, remaining, next);
    for i := 0 to |ids|
      invariant Told(ids, graph, placed, remaining, next, i, remaining')
    {
      var id := ids[i];
      TellOne(ids, graph, placed, remaining, next, i, remaining');
      if id in remaining' && next in EdgesOf(graph, id) {
        remaining' := remaining'[id := remaining'[id] - 1];
      }
    }
    AllTold(ids, graph, placed, remaining, next, remaining');
  }

  /** The sort stopped after `placed`: instances are left, none is ready, and they are named. */
  ghost predicate StuckAfter(ids: seq<InstanceID>, graph: Graph, placed: seq<InstanceID>, error: Error) {
    && Greedy(ids, graph, placed) && |placed| < |ids| && NoneReady(ids, graph, placed)
    && error == Cycle(Without(ids, placed))
  }

  ghost predicate StuckError(ids: seq<InstanceID>, graph: Graph, error: Error) {
    exists placed :: StuckAfter(ids, graph, placed, error)
  }

  method TopoSort(ids: seq<InstanceID>, graph: Graph) returns (r: Result<seq<InstanceID>, Error>)
    requires Sortable(ids, graph)
    ensures r.Ok? ==> |r.value| == |ids| && Greedy(ids, graph, r.value)
    ensures r.Err? ==> StuckError(ids, graph, r.error)
  {
    hide Greedy, GreedyAt, NoneReady, Counts, Sortable, Zero;
    var remaining := PendingCounts(ids, graph);
    var order: seq<InstanceID> := [];
    NothingPlaced(ids, graph, remaining);
    while |order| < |ids|
      invariant |order| <= |ids|
      invariant Counts(ids, graph, order, remaining)
      invariant Greedy(ids, graph, order)
    {
      FirstZeroIsNext(ids, graph, order, remaining);
      var next := ReadyInstance(ids, remaining);
      if next.None? {
        var stuck := Unresolved(ids, remaining, order);
        assert StuckAfter(ids, graph, order, Cycle(stuck));
        return Err(Cycle(stuck));
      }
      remaining := Place(ids, graph, order, remaining, next.value);
      GreedyOneMore(ids, graph, order, next.value);
      order := order + [next.value];
    }
    return Ok(order);
  }

  lemma NothingPlaced(ids: seq<InstanceID>, graph: Graph, remaining: map<InstanceID, int>)
    requires remaining.Keys == set id | id in ids
    requires forall id <- ids :: remaining[id] == Pending(EdgesOf(graph, id), ids, [])
    ensures Counts(ids, graph, [], remaining) && Greedy(ids, graph, [])
  {
    hide Pending, EdgesOf;
  }

  lemma GreedyOneMore(ids: seq<InstanceID>, graph: Graph, order: seq<InstanceID>, next: InstanceID)
    requires Greedy(ids, graph, order) && GreedyAt(ids, graph, order, next)
    ensures Greedy(ids, graph, order + [next])
  {
    var order' := order + [next];
    forall k | 0 <= k < |order'| ensures GreedyAt(ids, graph, order'[..k], order'[k]) {
      assert order'[..k] == order[..k];
    }
  }

  // ---------- what a greedy order is ----------

  ghost predicate DependenciesFirst(ids: seq<InstanceID>, graph: Graph, order: seq<InstanceID>) {
    forall k :: 0 <= k < |order| ==>
      forall dep <- EdgesOf(graph, order[k]) :: dep in ids ==> dep in order[..k]
  }

  /** Every instance once, dependencies before dependents. */
  ghost predicate IsInstallOrder(ids: seq<InstanceID>, graph: Graph, order: seq<InstanceID>) {
    && |order| == |ids|
    && Distinct(order)
    && (forall id :: id in order <==> id in ids)
    && DependenciesFirst(ids, graph, order)
  }

  lemma GreedyIsOrderly(ids: seq<InstanceID>, graph: Graph, order: seq<InstanceID>)
    requires Greedy(ids, graph, order)
    ensures Distinct(order) && DependenciesFirst(ids, graph, order)
    ensures forall id <- order :: id in ids
  {
    forall k | 0 <= k < |order|
      ensures order[k] in ids && order[k] !in order[..k]
      ensures forall dep <- EdgesOf(graph, order[k]) :: dep in ids ==> dep in order[..k]
    {
      assert GreedyAt(ids, graph, order[..k], order[k]);
    }
    forall j, k | 0 <= j < k < |order| ensures order[j] != order[k] {
      assert order[j] == order[..k][j];
    }
  }

  lemma GreedyIsInstallOrder(ids: seq<InstanceID>, graph: Graph, order: seq<InstanceID>)
    requires Distinct(ids) && Greedy(ids, graph, order) && |order| == |ids|
    ensures IsInstallOrder(ids, graph, order)
  {
    GreedyIsOrderly(ids, graph, order);
    DistinctCount(ids);
    DistinctCount(order);
    SameSizeSubset(Elements(order), Elements(ids));
    forall id ensures id in order <==> id in ids {
      assert id in Elements(order) <==> id in Elements(ids);
    }
  }

  lemma SameSizeSubset<T>(small: set<T>, large: set<T>)
    requires small <= large && |small| == |large|
    ensures small == large
  {
    assert large == small + (large - small);
  }

  lemma {:induction false} FirstDifference(a: seq<InstanceID>, b: seq<InstanceID>) returns (k: nat)
    requires |a| == |b| && a != b
    ensures k < |a| && a[..k] == b[..k] && a[k] != b[k]
  {
    if a[0] != b[0] {
      k := 0;
    } else {
      assert a == [a[0]] + a[1..] && b == [b[0]] + b[1..];
      var k' := FirstDifference(a[1..], b[1..]);
      k := k' + 1;
      assert a[..k] == [a[0]] + a[1..][..k'] && b[..k] == [b[0]] + b[1..][..k'];
    }
  }

  /** At the first entry where two orders differ, this one's was declared earlier. */
  ghost predicate LeastAmong(ids: seq<InstanceID>, order: seq<InstanceID>, other: seq<InstanceID>) {
    order == other || exists k, p, q :: DiffersLater(ids, order, other, k, p, q)
  }

  ghost predicate DiffersLater(ids: seq<InstanceID>, order: seq<InstanceID>, other: seq<InstanceID>, k: nat, p: nat,
      q: nat) {
    && k < |order| && k < |other| && order[..k] == other[..k]
    && p < q < |ids| && ids[p] == order[k] && ids[q] == other[k]
  }

  /** Of all the install orders there are, the sort's is the least by declared position. */
  lemma GreedyIsLeast(ids: seq<InstanceID>, graph: Graph, order: seq<InstanceID>, other: seq<InstanceID>)
    requires Distinct(ids) && Greedy(ids, graph, order) && |order| == |ids|
    requires IsInstallOrder(ids, graph, other)
    ensures LeastAmong(ids, order, other)
  {
    if order != other {
      var k := FirstDifference(order, other);
      assert GreedyAt(ids, graph, order[..k], order[k]);
      var p: nat :| Earliest(ids, graph, order[..k], p) && ids[p] == order[k];
      var q := NextIsReady(ids, graph, other, k);
      assert DiffersLater(ids, order, other, k, p, q);
    }
  }

  lemma NextIsReady(ids: seq<InstanceID>, graph: Graph, other: seq<InstanceID>, k: nat) returns (q: nat)
    requires IsInstallOrder(ids, graph, other) && k < |other|
    ensures q < |ids| && ids[q] == other[k] && Ready(ids, graph, other[..k], ids[q])
  {
    assert other[k] in other;
    q :| q < |ids| && ids[q] == other[k];
    assert other[k] !in other[..k];
  }

  // ---------- cycles ----------

  ghost predicate IsWalk(ids: seq<InstanceID>, graph: Graph, w: seq<InstanceID>) {
    && |w| > 0 && w[0] in ids
    && forall k :: 0 <= k < |w| - 1 ==> Gates(ids, graph, w[k], w[k + 1])
  }

  ghost predicate IsCycle(ids: seq<InstanceID>, graph: Graph, c: seq<InstanceID>) {
    IsWalk(ids, graph, c) && |c| >= 2 && c[0] == c[|c| - 1]
  }

  /** From `id`, following dependencies, a cycle can be reached. */
  ghost predicate ReachesCycle(ids: seq<InstanceID>, graph: Graph, id: InstanceID) {
    exists w, c :: LeadsTo(ids, graph, id, w, c)
  }

  ghost predicate LeadsTo(ids: seq<InstanceID>, graph: Graph, id: InstanceID, w: seq<InstanceID>, c: seq<InstanceID>) {
    && IsWalk(ids, graph, w) && w[0] == id
    && IsCycle(ids, graph, c) && w[|w| - 1] == c[0]
  }

  ghost predicate Acyclic(ids: seq<InstanceID>, graph: Graph) {
    forall c :: !IsCycle(ids, graph, c)
  }

  /** Along a walk from a placed instance everything is placed, each strictly before the last. */
  lemma {:induction false} WalkDescends(ids: seq<InstanceID>, graph: Graph, order: seq<InstanceID>,
      w: seq<InstanceID>, at: nat, m: nat)
    returns (n: nat)
    requires Greedy(ids, graph, order) && IsWalk(ids, graph, w)
    requires at < |order| && order[at] == w[0] && m < |w|
    ensures n < |order| && order[n] == w[m] && n + m <= at
  {
    if m == 0 {
      n := at;
    } else {
      var before := WalkDescends(ids, graph, order, w, at, m - 1);
      assert Gates(ids, graph, w[m - 1], w[m - 1 + 1]);
      GreedyIsOrderly(ids, graph, order);
      assert w[m] in order[..before];
      n :| 0 <= n < before && order[..before][n] == w[m];
    }
  }

  /** Nothing a cycle can be reached from is ever placed. */
  lemma CycleReachersAreNeverPlaced(ids: seq<InstanceID>, graph: Graph, order: seq<InstanceID>, id: InstanceID)
    requires Greedy(ids, graph, order) && ReachesCycle(ids, graph, id)
    ensures id !in order
  {
    if id in order {
      var w, c :| LeadsTo(ids, graph, id, w, c);
      var at: nat :| at < |order| && order[at] == id;
      var entry := WalkDescends(ids, graph, order, w, at, |w| - 1);
      var again := WalkDescends(ids, graph, order, c, entry, |c| - 1);
      GreedyIsOrderly(ids, graph, order);
    }
  }

  lemma StuckOn(ids: seq<InstanceID>, graph: Graph, placed: seq<InstanceID>, id: InstanceID) returns (dep: InstanceID)
    requires NoneReady(ids, graph, placed) && id in ids && id !in placed
    ensures Gates(ids, graph, id, dep) && dep in ids && dep !in placed
  {
    var q :| 0 <= q < |ids| && ids[q] == id;
    assert !Ready(ids, graph, placed, ids[q]);
    dep :| dep in EdgesOf(graph, id) && dep in ids && dep !in placed;
  }

  /** When nothing is ready, one can walk on among the unplaced for as long as one likes. */
  lemma {:induction false} StuckWalk(ids: seq<InstanceID>, graph: Graph, placed: seq<InstanceID>, id: InstanceID,
      n: nat)
    returns (w: seq<InstanceID>)
    requires NoneReady(ids, graph, placed) && id in ids && id !in placed
    ensures IsWalk(ids, graph, w) && w[0] == id && |w| == n + 1
    ensures forall x <- w :: x in ids
    decreases n
  {
    if n == 0 {
      w := [id];
    } else {
      var dep := StuckOn(ids, graph, placed, id);
      var rest := StuckWalk(ids, graph, placed, dep, n - 1);
      WalkFrom(ids, graph, id, rest);
      w := [id] + rest;
    }
  }

  lemma WalkFrom(ids: seq<InstanceID>, graph: Graph, id: InstanceID, rest: seq<InstanceID>)
    requires id in ids && IsWalk(ids, graph, rest) && Gates(ids, graph, id, rest[0])
    ensures IsWalk(ids, graph, [id] + rest)
  {
    var w := [id] + rest;
    forall k | 0 <= k < |w| - 1 ensures Gates(ids, graph, w[k], w[k + 1]) {
      if k > 0 {
        assert Gates(ids, graph, rest[k - 1], rest[k - 1 + 1]);
      }
    }
  }

  lemma RevisitIsCycle(ids: seq<InstanceID>, graph: Graph, w: seq<InstanceID>, j: nat, k: nat)
    requires IsWalk(ids, graph, w) && j < k < |w| && w[j] == w[k]
    ensures ReachesCycle(ids, graph, w[0])
  {
    var lead, c := w[..j + 1], w[j..k + 1];
    forall i | 0 <= i < |lead| - 1 ensures Gates(ids, graph, lead[i], lead[i + 1]) {
      assert Gates(ids, graph, w[i], w[i + 1]);
    }
    forall i | 0 <= i < |c| - 1 ensures Gates(ids, graph, c[i], c[i + 1]) {
      assert Gates(ids, graph, w[j + i], w[j + i + 1]);
    }
    assert c[0] in ids by {
      if j > 0 { assert Gates(ids, graph, w[j - 1], w[j - 1 + 1]); }
    }
    assert LeadsTo(ids, graph, w[0], lead, c);
  }

  lemma StuckReachesCycle(ids: seq<InstanceID>, graph: Graph, placed: seq<InstanceID>, id: InstanceID)
    requires NoneReady(ids, graph, placed) && id in ids && id !in placed
    ensures ReachesCycle(ids, graph, id)
  {
    var w := StuckWalk(ids, graph, placed, id, |Elements(ids)|);
    Pigeonhole(w, Elements(ids));
    var j, k :| 0 <= j < k < |w| && w[j] == w[k];
    RevisitIsCycle(ids, graph, w, j, k);
  }

  lemma {:induction false} WithoutMembers(ids: seq<InstanceID>, placed: seq<InstanceID>)
    ensures forall id :: id in Without(ids, placed) <==> id in ids && id !in placed
  {
    if ids != [] {
      var n := |ids| - 1;
      WithoutMembers(ids[..n], placed);
      assert ids == ids[..n] + [ids[n]];
    }
  }

  /** The reported stuck list: exactly the instances from which a cycle can be reached, and
      there is one. */
  lemma StuckIsWhatReachesACycle(ids: seq<InstanceID>, graph: Graph, placed: seq<InstanceID>)
    requires Distinct(ids)
    requires Greedy(ids, graph, placed) && NoneReady(ids, graph, placed) && |placed| < |ids|
    ensures forall id :: id in Without(ids, placed) <==> id in ids && ReachesCycle(ids, graph, id)
    ensures Without(ids, placed) != []
  {
    WithoutMembers(ids, placed);
    forall id | id in ids ensures id in Without(ids, placed) <==> ReachesCycle(ids, graph, id) {
      if id !in placed {
        StuckReachesCycle(ids, graph, placed, id);
      } else if ReachesCycle(ids, graph, id) {
        CycleReachersAreNeverPlaced(ids, graph, placed, id);
      }
    }
    SomeoneUnplaced(ids, placed);
  }

  lemma SomeoneUnplaced(ids: seq<InstanceID>, placed: seq<InstanceID>)
    requires Distinct(ids) && |placed| < |ids|
    ensures Without(ids, placed) != []
  {
    WithoutMembers(ids, placed);
    if forall id <- ids :: id in placed {
      DistinctCount(ids);
      ElementsAtMost(placed);
      SubsetCount(Elements(ids), Elements(placed));
    }
  }

  lemma {:induction false} ElementsAtMost(xs: seq<InstanceID>)
    ensures |Elements(xs)| <= |xs|
  {
    if xs != [] {
      ElementsAtMost(xs[1..]);
      assert xs == [xs[0]] + xs[1..];
      assert Elements(xs) == {xs[0]} + Elements(xs[1..]);
    }
  }

  /** A complete order leaves no cycle. */
  lemma OrderedIsAcyclic(ids: seq<InstanceID>, graph: Graph, order: seq<InstanceID>)
    requires Distinct(ids) && Greedy(ids, graph, order) && |order| == |ids|
    ensures Acyclic(ids, graph)
  {
    GreedyIsInstallOrder(ids, graph, order);
    forall c ensures !IsCycle(ids, graph, c) {
      if IsCycle(ids, graph, c) {
        assert IsWalk(ids, graph, [c[0]]);
        assert LeadsTo(ids, graph, c[0], [c[0]], c);
        CycleReachersAreNeverPlaced(ids, graph, order, c[0]);
      }
    }
  }

  // ---------- the whole resolution ----------

  datatype ResolvedGraph = ResolvedGraph(order: seq<InstanceID>, dependencies: Graph)

  lemma DeclaredIsSortable(instances: seq<Instance>, graph: Graph)
    requires ValidIdentities(instances) && DeclaredGraph(instances, graph)
    ensures Sortable(Ids(instances), graph)
  {
    var ids := Ids(instances);
    forall id <- ids ensures Distinct(EdgesOf(graph, id)) {
      var i :| 0 <= i < |ids| && ids[i] == id;
      DedupKeepsFirsts(Meanings(instances, instances[i].dependsOn, id));
    }
  }

  /** The declared graph has one edge a target, and a cycle in it is a cycle of targets. */
  ghost predicate DeclaredAcyclic(instances: seq<Instance>) {
    forall graph :: DeclaredGraph(instances, graph) ==> Acyclic(Ids(instances), graph)
  }

  lemma DeclaredGraphIsOne(instances: seq<Instance>, graph: Graph, graph': Graph)
    requires DeclaredGraph(instances, graph) && DeclaredGraph(instances, graph')
    ensures graph == graph'
  {
    forall id <- graph ensures id in graph' && graph[id] == graph'[id] {
      var i :| 0 <= i < |instances| && Ids(instances)[i] == id;
      assert EdgesOf(graph, id) == EdgesOf(graph', id);
    }
  }

  /** The declared graph, and of all its install orders the least by declared position. */
  ghost predicate IsResolution(instances: seq<Instance>, resolved: ResolvedGraph) {
    && DeclaredGraph(instances, resolved.dependencies)
    && IsInstallOrder(Ids(instances), resolved.dependencies, resolved.order)
    && forall other :: IsInstallOrder(Ids(instances), resolved.dependencies, other) ==>
         LeastAmong(Ids(instances), resolved.order, other)
  }

  /** A cycle error naming exactly the instances a cycle of the declared graph can be reached from. */
  ghost predicate ReportsCycle(instances: seq<Instance>, error: Error) {
    && error.Cycle?
    && error.members != []
    && exists graph :: DeclaredGraph(instances, graph) && NamesReachers(Ids(instances), graph, error.members)
  }

  ghost predicate NamesReachers(ids: seq<InstanceID>, graph: Graph, members: seq<InstanceID>) {
    forall id :: id in members <==> id in ids && ReachesCycle(ids, graph, id)
  }

  /** ResolveOrder: a resolution exactly when the identities are valid, every target names one
      other instance and no cycle is declared. */
  method ResolveOrder(instances: seq<Instance>) returns (r: Result<ResolvedGraph, Error>)
    ensures r.Ok? <==> ValidIdentities(instances) && AllResolvable(instances) && DeclaredAcyclic(instances)
    ensures r.Ok? ==> IsResolution(instances, r.value)
    ensures r.Ok? ==> exists ids :: (&& Identify(instances, ids)
                                     && IsInstallOrder(ids, r.value.dependencies, r.value.order))
    ensures (exists ids :: Identify(instances, ids)) ==> r.Ok? || r.error.Cycle? || DependencyError(instances, r.error)
    ensures r.Err? ==>
              if !ValidIdentities(instances) then IdentityError(instances, r.error)
              else if !AllResolvable(instances) then DependencyError(instances, r.error)
              else ReportsCycle(instances, r.error)
  {
    hide ValidIdentities, AllResolvable, DeclaredAcyclic, IsResolution, IdentityError, DependencyError, ReportsCycle;
    var ids := EffectiveIDs(instances);
    if ids.Err? {
      return Err(ids.error);
    }
    var graph := ResolveDependencies(instances);
    if graph.Err? {
      return Err(graph.error);
    }
    DeclaredIsSortable(instances, graph.value);
    var order := TopoSort(ids.value, graph.value);
    if order.Err? {
      StuckReport(instances, graph.value, order.error);
      return Err(order.error);
    }
    ResolvedOrder(instances, graph.value, order.value);
    return Ok(ResolvedGraph(order.value, graph.value));
  }

  lemma StuckReport(instances: seq<Instance>, graph: Graph, error: Error)
    requires ValidIdentities(instances) && DeclaredGraph(instances, graph)
    requires StuckError(Ids(instances), graph, error)
    ensures ReportsCycle(instances, error) && !DeclaredAcyclic(instances)
  {
    var ids := Ids(instances);
    var placed :| StuckAfter(ids, graph, placed, error);
    StuckIsWhatReachesACycle(ids, graph, placed);
    assert NamesReachers(ids, graph, error.members);
    StuckIsCyclic(ids, graph, error.members);
  }

  lemma StuckIsCyclic(ids: seq<InstanceID>, graph: Graph, stuck: seq<InstanceID>)
    requires stuck != [] && NamesReachers(ids, graph, stuck)
    ensures !Acyclic(ids, graph)
  {
    assert stuck[0] in stuck;
    var w, c :| LeadsTo(ids, graph, stuck[0], w, c);
  }

  lemma ResolvedOrder(instances: seq<Instance>, graph: Graph, order: seq<InstanceID>)
    requires ValidIdentities(instances) && DeclaredGraph(instances, graph)
    requires |order| == |instances| && Greedy(Ids(instances), graph, order)
    ensures IsResolution(instances, ResolvedGraph(order, graph))
    ensures DeclaredAcyclic(instances)
  {
    var ids := Ids(instances);
    GreedyIsInstallOrder(ids, graph, order);
    OrderedIsAcyclic(ids, graph, order);
    forall other | IsInstallOrder(ids, graph, other) ensures LeastAmong(ids, order, other) {
      GreedyIsLeast(ids, graph, order, other);
    }
    forall graph' | DeclaredGraph(instances, graph') ensures Acyclic(ids, graph') {
      DeclaredGraphIsOne(instances, graph, graph');
    }
  }

  // ---------- what the report is not ----------

  ghost predicate OnCycle(ids: seq<InstanceID>, graph: Graph, id: InstanceID) {
    exists c :: IsCycle(ids, graph, c) && id in c
  }

  /** No instance off the cycles depends directly on one that is on a cycle. */
  ghost predicate NoOutsideDependent(ids: seq<InstanceID>, graph: Graph) {
    forall id, dep :: id in ids && Gates(ids, graph, id, dep) && OnCycle(ids, graph, dep) ==> OnCycle(ids, graph, id)
  }

  lemma WalkTail(ids: seq<InstanceID>, graph: Graph, w: seq<InstanceID>, k: nat)
    requires IsWalk(ids, graph, w) && k < |w|
    ensures IsWalk(ids, graph, w[k..])
  {
    var tail := w[k..];
    forall i | 0 <= i < |tail| - 1 ensures Gates(ids, graph, tail[i], tail[i + 1]) {
      assert Gates(ids, graph, w[k + i], w[k + i + 1]);
    }
    if k > 0 { assert Gates(ids, graph, w[k - 1], w[k - 1 + 1]); }
  }

  lemma DependentReaches(ids: seq<InstanceID>, graph: Graph, id: InstanceID, dep: InstanceID)
    requires id in ids && Gates(ids, graph, id, dep) && OnCycle(ids, graph, dep)
    ensures ReachesCycle(ids, graph, id)
  {
    var c :| IsCycle(ids, graph, c) && dep in c;
    var k :| 0 <= k < |c| && c[k] == dep;
    WalkTail(ids, graph, c, k);
    WalkFrom(ids, graph, id, c[k..]);
    assert LeadsTo(ids, graph, id, [id] + c[k..], c);
  }

  lemma {:induction false} CycleSpreadsBack(ids: seq<InstanceID>, graph: Graph, w: seq<InstanceID>, c: seq<InstanceID>)
    requires NoOutsideDependent(ids, graph) && IsWalk(ids, graph, w)
    requires IsCycle(ids, graph, c) && w[|w| - 1] == c[0]
    ensures OnCycle(ids, graph, w[0])
    decreases |w|
  {
    if |w| > 1 {
      WalkTail(ids, graph, w, 1);
      CycleSpreadsBack(ids, graph, w[1..], c);
      assert Gates(ids, graph, w[0], w[0 + 1]);
    }
  }

  /** The code's comment calls the reported instances the members of the cycle. They are exactly
      when nothing else depends directly on one. */
  lemma ReportIsTheCycleIff(ids: seq<InstanceID>, graph: Graph, members: seq<InstanceID>)
    requires NamesReachers(ids, graph, members)
    ensures (forall id <- members :: OnCycle(ids, graph, id)) <==> NoOutsideDependent(ids, graph)
  {
    if NoOutsideDependent(ids, graph) {
      forall id <- members ensures OnCycle(ids, graph, id) {
        var w, c :| LeadsTo(ids, graph, id, w, c);
        CycleSpreadsBack(ids, graph, w, c);
      }
    }
    if forall id <- members :: OnCycle(ids, graph, id) {
      forall id, dep | id in ids && Gates(ids, graph, id, dep) && OnCycle(ids, graph, dep)
        ensures OnCycle(ids, graph, id)
      {
        DependentReaches(ids, graph, id, dep);
      }
    }
  }

  /** The reported instances need not be members of a cycle: a dependent of one is listed too. */
  lemma DependentsAreReportedToo()
    ensures var ids := ["app", "db", "cache"];
            var graph := map["app" := ["db"], "db" := ["cache"], "cache" := ["db"]];
            && Greedy(ids, graph, []) && NoneReady(ids, graph, [])
            && "app" in Without(ids, [])
            && !OnCycle(ids, graph, "app")
  {
    var ids: seq<InstanceID> := ["app", "db", "cache"];
    var graph: Graph := map["app" := ["db"], "db" := ["cache"], "cache" := ["db"]];
    WithoutMembers(ids, []);
    assert ids[0] == "app" && ids[1] == "db" && ids[2] == "cache";
    assert EdgesOf(graph, "app")[0] == "db" && EdgesOf(graph, "db")[0] == "cache" && EdgesOf(graph, "cache")[0] == "db";
    NeverEntered(ids, graph, "app");
  }

  /** What nothing depends on is on no cycle. */
  lemma NeverEntered(ids: seq<InstanceID>, graph: Graph, id: InstanceID)
    requires forall from :: !Gates(ids, graph, from, id)
    ensures !OnCycle(ids, graph, id)
  {
    hide Gates;
    forall c | IsCycle(ids, graph, c) ensures id !in c {
      forall k | 0 <= k < |c| ensures c[k] != id {
        assert k > 0 ==> Gates(ids, graph, c[k - 1], c[k - 1 + 1]);
        assert Gates(ids, graph, c[|c| - 2], c[|c| - 2 + 1]);
      }
    }
  }
}
