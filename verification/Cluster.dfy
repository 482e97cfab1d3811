/** The slice of the Kubernetes API bootstrap uses, as an abstract cluster: every answer it
    gives is arbitrary and may change with time, and everything asked of it is recorded. */
module Cluster {
  import opened Inventory
  import opened Wrappers

  // ---------- errors ----------

  /** The diagnostic codes bootstrap raises; Other is a code some other domain put on an error. */
  datatype Code =
    | WaitTimeout     // CUBE-BST-005
    | ReconcileTimeout // CUBE-BST-009
    | PollFailed      // CUBE-BST-010
    | Other(code: string)

  datatype Cause = NotFound | NoMatch | ContextDone | Rejected(why: string)

  /** An error chain: its diagnostic code if it carries one, its root cause, and the objects it
      names as pending. */
  datatype Error = Error(code: Option<Code>, cause: Cause, pending: seq<Manifest>)

  // ---------- live objects ----------

  /** A status condition; Malformed is an entry that is not a mapping. */
  datatype Condition = Malformed | Condition(name: string, status: string)

  datatype Live = Live(
    generation: int,
    observedGeneration: Option<int>,
    replicas: Option<int>,
    readyReplicas: Option<int>,
    conditions: Option<seq<Condition>>,
    phase: string)

  datatype Reply = Alive(live: Live) | Missed(error: Error)

  // ---------- the cluster ----------

  /** What gets applied: an injected object, or bootstrap's own inventory ConfigMap. */
  datatype Target = Injected(manifest: Manifest) | Record(namespace: string, refs: seq<ObjectRef>)

  datatype Event =
    | Applied(target: Target, error: Option<Error>)
    | Got(manifest: Manifest, reply: Reply)
    | Lived(manifest: Manifest, reply: Reply)

  /** Every answer as a function of the time it is asked, and the time the context is done. */
  datatype World = World(
    apply: (nat, Target) -> Option<Error>,
    get: (nat, Manifest) -> Reply,
    live: (nat, Manifest) -> Reply,
    deadline: nat)

  class API {
    const world: World
    var trace: seq<Event>

    constructor (world: World)
      ensures this.world == world && trace == []
    {
      this.world := world;
      trace := [];
    }

    /** ctx.Err() != nil. Once done, always done. */
    predicate Done()
      reads this
    {
      |trace| >= world.deadline
    }

    method Apply(target: Target) returns (error: Option<Error>)
      modifies this
      ensures error == world.apply(|old(trace)|, target)
      ensures trace == old(trace) + [Applied(target, error)]
    {
      error := world.apply(|trace|, target);
      trace := trace + [Applied(target, error)];
    }

    method Get(manifest: Manifest) returns (reply: Reply)
      modifies this
      ensures reply == world.get(|old(trace)|, manifest)
      ensures trace == old(trace) + [Got(manifest, reply)]
    {
      reply := world.get(|trace|, manifest);
      trace := trace + [Got(manifest, reply)];
    }

    method LiveOf(manifest: Manifest) returns (reply: Reply)
      modifies this
      ensures reply == world.live(|old(trace)|, manifest)
      ensures trace == old(trace) + [Lived(manifest, reply)]
    {
      reply := world.live(|trace|, manifest);
      trace := trace + [Lived(manifest, reply)];
    }
  }
}
