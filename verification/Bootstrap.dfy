/** Bootstrap's install sequence: the substrate, the prerequisite units, the sync wiring and the
    engine wait. The code is proved to carry out a plan, stage by stage, up to its first failure. */
module Bootstrap {
  import opened Inventory
  import opened Cluster
  import opened Wrappers
  import opened Waits

  // ---------- what the edge composes ----------

  datatype UnitKind = Raw | CR | Inert

  datatype Unit = Unit(name: string, objects: seq<Manifest>, kind: UnitKind, reconciled: Option<Judge>)

  datatype EngineInstall = EngineInstall(
    substrate: seq<Manifest>,
    prerequisites: seq<Unit>,
    wiring: seq<Manifest>,
    reconciled: Option<Judge>,
    engineObjects: seq<Manifest>)

  /** A unit that declares a wait it carries no judgment for. */
  predicate Misjudged(u: Unit) {
    u.kind == CR && u.reconciled.None?
  }

  ghost predicate Defective(units: seq<Unit>) {
    exists u <- units :: Misjudged(u)
  }

  function ObjectsOf(units: seq<Unit>): seq<Manifest> {
    if units == [] then []
    else ObjectsOf(units[..|units| - 1]) + units[|units| - 1].objects
  }

  // ---------- the plan ----------

  datatype Stage =
    | Recording(owned: seq<Manifest>)
    | Applying(objs: seq<Manifest>)
    | Waiting(mode: Mode, objs: seq<Manifest>)

  /** Without a judgment there is no wait. */
  function JudgedWait(objs: seq<Manifest>, judge: Option<Judge>): Stage {
    if judge.None? then Stage.Waiting(Kinds, []) else Stage.Waiting(Judged(judge.value), objs)
  }

  function DeclaredWait(u: Unit): Stage {
    match u.kind
    case CR => JudgedWait(u.objects, u.reconciled)
    case Inert => Stage.Waiting(Kinds, [])
    case Raw => Stage.Waiting(Kinds, KindSet(u.objects))
  }

  /** The record comes first, so that a half-applied step is already listed. */
  function Step(owned: seq<Manifest>, objs: seq<Manifest>, wait: Stage): seq<Stage> {
    [Recording(owned + objs), Applying(objs), wait]
  }

  function SubstratePlan(substrate: seq<Manifest>): seq<Stage> {
    [Applying(substrate), Recording(substrate), Stage.Waiting(Kinds, KindSet(substrate))]
  }

  function UnitsPlan(owned: seq<Manifest>, units: seq<Unit>): seq<Stage> {
    if units == [] then []
    else
      var n := |units| - 1;
      UnitsPlan(owned, units[..n]) + Step(owned + ObjectsOf(units[..n]), units[n].objects, DeclaredWait(units[n]))
  }

  function WiringPlan(owned: seq<Manifest>, wiring: seq<Manifest>, judge: Option<Judge>): seq<Stage> {
    if wiring == [] then [] else Step(owned, wiring, JudgedWait(wiring, judge))
  }

  function EnginePlan(run: EngineInstall): seq<Stage> {
    SubstratePlan(run.substrate)
    + UnitsPlan(run.substrate, run.prerequisites)
    + WiringPlan(run.substrate + ObjectsOf(run.prerequisites), run.wiring, run.reconciled)
    + [JudgedWait(run.engineObjects, run.reconciled)]
  }

  // ---------- carrying out a plan ----------

  /** What one stage did, and how it ended. */
  datatype Segment = Segment(events: seq<Event>, error: Option<Error>)

  /** Server-side apply in order, stopping at the first failure, which is returned as it is. */
  ghost predicate ApplyRun(objs: seq<Manifest>, events: seq<Event>, error: Option<Error>) {
    && |events| <= |objs|
    && (forall i :: 0 <= i < |events| ==> events[i].Applied? && events[i].target == Injected(objs[i]))
    && (forall i :: 0 <= i < |events| - 1 ==> events[i].error.None?)
    && (if error.None? then |events| == |objs| else |events| > 0)
    && (|events| > 0 ==> events[|events| - 1].error == error)
  }

  /** One apply of the inventory, listing the owned objects. */
  ghost predicate RecordRun(ns: string, owned: seq<Manifest>, events: seq<Event>, error: Option<Error>) {
    && |events| == 1
    && events[0].Applied? && events[0].error == error
    && events[0].target.Record? && events[0].target.namespace == ns
    && Lists(events[0].target.refs, owned)
  }

  ghost predicate StageRun(ns: string, stage: Stage, s: Segment, done: bool) {
    match stage
    case Recording(owned) => RecordRun(ns, owned, s.events, s.error)
    case Applying(objs) => ApplyRun(objs, s.events, s.error)
    case Waiting(mode, objs) => WaitRun(mode, objs, s.events, s.error, done)
  }

  /** The stages were carried out in order, none after the first failure, which is the outcome. */
  ghost predicate Ran(ns: string, stages: seq<Stage>, segments: seq<Segment>, error: Option<Error>, done: bool) {
    && |segments| <= |stages|
    && (forall i :: 0 <= i < |segments| ==> StageRun(ns, stages[i], segments[i], done))
    && (forall i :: 0 <= i < |segments| - 1 ==> segments[i].error.None?)
    && (if error.None? then |segments| == |stages| else |segments| > 0)
    && (|segments| > 0 ==> segments[|segments| - 1].error == error)
  }

  function Events(segments: seq<Segment>): seq<Event> {
    if segments == [] then []
    else Events(segments[..|segments| - 1]) + segments[|segments| - 1].events
  }

  lemma {:induction false} EventsConcat(a: seq<Segment>, b: seq<Segment>)
    ensures Events(a + b) == Events(a) + Events(b)
  {
    if b == [] {
      assert a + b == a;
    } else {
      assert (a + b)[..|a + b| - 1] == a + b[..|b| - 1];
      EventsConcat(a, b[..|b| - 1]);
    }
  }

  /** From `start` to `now`, exactly these stages were carried out. */
  ghost predicate Carried(ns: string, stages: seq<Stage>, start: seq<Event>, now: seq<Event>, error: Option<Error>,
      done: bool) {
    exists segments: seq<Segment> :: Ran(ns, stages, segments, error, done) && now == start + Events(segments)
  }

  lemma CarriedNothing(ns: string, now: seq<Event>, done: bool)
    ensures Carried(ns, [], now, now, None, done)
  {
    assert Ran(ns, [], [], None, done) && now == now + Events([]);
  }

  lemma CarriedOne(ns: string, stage: Stage, start: seq<Event>, now: seq<Event>, error: Option<Error>, done: bool)
    requires start <= now
    requires StageRun(ns, stage, Segment(now[|start|..], error), done)
    ensures Carried(ns, [stage], start, now, error, done)
  {
    var s := Segment(now[|start|..], error);
    assert [s][..0] == [];
    assert Events([s]) == Events([]) + s.events;
    assert Ran(ns, [stage], [s], error, done) && now == start + Events([s]);
  }

  lemma EndedWell(ns: string, stage: Stage, s: Segment, before: bool, done: bool)
    requires StageRun(ns, stage, s, before) && s.error.None?
    ensures StageRun(ns, stage, s, done)
  {
  }

  lemma {:induction false} RanThen(ns: string, a: seq<Stage>, s: seq<Segment>, b: seq<Stage>, t: seq<Segment>,
      error: Option<Error>, before: bool, done: bool)
    requires Ran(ns, a, s, None, before)
    requires Ran(ns, b, t, error, done)
    ensures Ran(ns, a + b, s + t, error, done)
  {
    hide StageRun;
    forall i | 0 <= i < |s + t|
      ensures StageRun(ns, (a + b)[i], (s + t)[i], done)
      ensures i < |s + t| - 1 ==> (s + t)[i].error.None?
    {
      if i < |s| {
        assert s[i].error.None?;
        EndedWell(ns, a[i], s[i], before, done);
      } else {
        assert (s + t)[i] == t[i - |s|] && (a + b)[i] == b[i - |s|];
      }
    }
    if t == [] { assert s + t == s; }
  }

  lemma {:induction false} CarriedThen(ns: string, a: seq<Stage>, b: seq<Stage>, start: seq<Event>, mid: seq<Event>,
      now: seq<Event>, error: Option<Error>, before: bool, done: bool)
    requires Carried(ns, a, start, mid, None, before)
    requires Carried(ns, b, mid, now, error, done)
    ensures Carried(ns, a + b, start, now, error, done)
  {
    hide Ran;
    var s: seq<Segment> :| Ran(ns, a, s, None, before) && mid == start + Events(s);
    var t: seq<Segment> :| Ran(ns, b, t, error, done) && now == mid + Events(t);
    EventsConcat(s, t);
    RanThen(ns, a, s, b, t, error, before, done);
    assert Ran(ns, a + b, s + t, error, done) && now == start + Events(s + t);
  }

  lemma {:induction false} CarriedStopped(ns: string, a: seq<Stage>, b: seq<Stage>, start: seq<Event>,
      now: seq<Event>, error: Option<Error>, done: bool)
    requires Carried(ns, a, start, now, error, done) && error.Some?
    ensures Carried(ns, a + b, start, now, error, done)
  {
    var s: seq<Segment> :| Ran(ns, a, s, error, done) && now == start + Events(s);
    assert Ran(ns, a + b, s, error, done) && now == start + Events(s);
  }

  lemma CarriedFromNothing(ns: string, stages: seq<Stage>, start: seq<Event>, now: seq<Event>, error: Option<Error>,
      done: bool)
    requires Carried(ns, stages, start, now, error, done)
    ensures start <= now && Carried(ns, stages, [], now[|start|..], error, done)
  {
    var s: seq<Segment> :| Ran(ns, stages, s, error, done) && now == start + Events(s);
    assert Ran(ns, stages, s, error, done) && now[|start|..] == [] + Events(s);
  }

  /** Everything one run of InstallEngine asked of the cluster, and its outcome. */
  ghost predicate EngineRun(ns: string, run: EngineInstall, events: seq<Event>, error: Option<Error>, done: bool) {
    if Defective(run.prerequisites) then
      events == [] && error.Some? && error.value.code == Some(PollFailed)
    else
      Carried(ns, EnginePlan(run), [], events, error, done)
  }

  // ---------- the code ----------

  class Applier {
    const k: API
    const inventoryNamespace: string

    constructor (k: API, inventoryNamespace: string)
      ensures this.k == k && this.inventoryNamespace == inventoryNamespace
    {
      this.k := k;
      this.inventoryNamespace := inventoryNamespace;
    }

    method Apply(objs: seq<Manifest>) returns (error: Option<Error>)
      modifies k
      ensures old(k.trace) <= k.trace
      ensures ApplyRun(objs, k.trace[|old(k.trace)|..], error)
    {
      ghost var events: seq<Event> := [];
      for i := 0 to |objs|
        invariant k.trace == old(k.trace) + events && |events| == i
        invariant forall j :: 0 <= j < i ==> events[j] == Applied(Injected(objs[j]), None)
      {
        error := k.Apply(Injected(objs[i]));
        events := events + [Applied(Injected(objs[i]), error)];
        assert k.trace == old(k.trace) + events;
        assert k.trace[|old(k.trace)|..] == events;
        if error.Some? {
          return;
        }
      }
      assert k.trace[|old(k.trace)|..] == events;
      error := None;
    }

    method RecordInventory(objs: seq<Manifest>) returns (error: Option<Error>)
      modifies k
      ensures old(k.trace) <= k.trace
      ensures RecordRun(inventoryNamespace, objs, k.trace[|old(k.trace)|..], error)
    {
      var refs := InventoryRefs(objs);
      error := k.Apply(Record(inventoryNamespace, refs));
      assert k.trace[|old(k.trace)|..] == [Applied(Record(inventoryNamespace, refs), error)];
    }

    /** Judged waits as one stage, whatever the judgment. */
    method AwaitReconciled(objs: seq<Manifest>, judge: Option<Judge>) returns (error: Option<Error>)
      modifies k
      ensures old(k.trace) <= k.trace
      ensures StageRun(inventoryNamespace, JudgedWait(objs, judge),
                       Segment(k.trace[|old(k.trace)|..], error), k.Done())
    {
      error := WaitReconciled(k, objs, judge);
      if judge.None? {
        assert k.trace[|old(k.trace)|..] == [];
      }
    }

    /** waitUnit: the wait the unit declared, never one read off its objects. */
    method WaitUnit(u: Unit) returns (error: Option<Error>)
      modifies k
      ensures old(k.trace) <= k.trace
      ensures StageRun(inventoryNamespace, DeclaredWait(u), Segment(k.trace[|old(k.trace)|..], error), k.Done())
    {
      match u.kind
      case CR =>
        error := AwaitReconciled(u.objects, u.reconciled);
      case Inert =>
        error := None;
        assert k.trace[|old(k.trace)|..] == [];
      case Raw =>
        error := WaitReady(k, u.objects);
    }

    method Install(objs: seq<Manifest>) returns (error: Option<Error>)
      modifies k
      ensures Carried(inventoryNamespace, SubstratePlan(objs), old(k.trace), k.trace, error, k.Done())
    {
      hide Carried, ApplyRun, RecordRun, WaitRun;
      ghost var ns, start := inventoryNamespace, k.trace;
      ghost var a, b, c := [Applying(objs)], [Recording(objs)], [Stage.Waiting(Kinds, KindSet(objs))];
      assert a + b + c == a + (b + c) == SubstratePlan(objs);
      error := Apply(objs);
      CarriedOne(ns, a[0], start, k.trace, error, k.Done());
      if error.Some? {
        CarriedStopped(ns, a, b + c, start, k.trace, error, k.Done());
        return;
      }
      ghost var mid, before := k.trace, k.Done();
      error := RecordInventory(objs);
      CarriedOne(ns, b[0], mid, k.trace, error, k.Done());
      CarriedThen(ns, a, b, start, mid, k.trace, error, before, k.Done());
      if error.Some? {
        CarriedStopped(ns, a + b, c, start, k.trace, error, k.Done());
        return;
      }
      mid, before := k.trace, k.Done();
      error := WaitReady(k, objs);
      CarriedOne(ns, c[0], mid, k.trace, error, k.Done());
      CarriedThen(ns, a + b, c, start, mid, k.trace, error, before, k.Done());
    }

    /** What every step after the substrate starts with: the record, then the apply it covers. */
    method RecordAndApply(owned: seq<Manifest>, objs: seq<Manifest>) returns (error: Option<Error>)
      modifies k
      ensures Carried(inventoryNamespace, [Recording(owned), Applying(objs)], old(k.trace), k.trace, error, k.Done())
    {
      hide Carried, ApplyRun, RecordRun, WaitRun;
      ghost var ns, start := inventoryNamespace, k.trace;
      ghost var a, b := [Recording(owned)], [Applying(objs)];
      assert a + b == [Recording(owned), Applying(objs)];
      error := RecordInventory(owned);
      CarriedOne(ns, a[0], start, k.trace, error, k.Done());
      if error.Some? {
        CarriedStopped(ns, a, b, start, k.trace, error, k.Done());
        return;
      }
      ghost var mid, before := k.trace, k.Done();
      error := Apply(objs);
      CarriedOne(ns, b[0], mid, k.trace, error, k.Done());
      CarriedThen(ns, a, b, start, mid, k.trace, error, before, k.Done());
    }

    /** One turn of installPrerequisites' loop, `owned` being what was owned before it. */
    method InstallUnit(owned: seq<Manifest>, u: Unit) returns (error: Option<Error>)
      modifies k
      ensures Carried(inventoryNamespace, Step(owned, u.objects, DeclaredWait(u)), old(k.trace), k.trace,
                      error, k.Done())
    {
      hide Carried, StageRun, DeclaredWait;
      ghost var ns, start := inventoryNamespace, k.trace;
      ghost var a, b := [Recording(owned + u.objects), Applying(u.objects)], [DeclaredWait(u)];
      assert a + b == Step(owned, u.objects, b[0]);
      error := RecordAndApply(owned + u.objects, u.objects);
      if error.Some? {
        CarriedStopped(ns, a, b, start, k.trace, error, k.Done());
        return;
      }
      ghost var mid, before := k.trace, k.Done();
      error := WaitUnit(u);
      CarriedOne(ns, b[0], mid, k.trace, error, k.Done());
      CarriedThen(ns, a, b, start, mid, k.trace, error, before, k.Done());
    }

    method InstallPrerequisites(owned: seq<Manifest>, units: seq<Unit>)
      returns (applied: seq<Manifest>, error: Option<Error>)
      modifies k
      ensures Carried(inventoryNamespace, UnitsPlan(owned, units), old(k.trace), k.trace, error, k.Done())
      ensures error.None? ==> applied == owned + ObjectsOf(units)
    {
      hide Carried, DeclaredWait, Step;
      ghost var ns, start := inventoryNamespace, k.trace;
      applied, error := owned, None;
      CarriedNothing(ns, k.trace, k.Done());
      for i := 0 to |units|
        invariant error.None? && Carried(ns, UnitsPlan(owned, units[..i]), start, k.trace, None, k.Done())
        invariant applied == owned + ObjectsOf(units[..i])
      {
        ghost var a, b := UnitsPlan(owned, units[..i]), Step(applied, units[i].objects, DeclaredWait(units[i]));
        UnitsPlanNext(owned, units, i);
        ghost var mid, before := k.trace, k.Done();
        error := InstallUnit(applied, units[i]);
        CarriedThen(ns, a, b, start, mid, k.trace, error, before, k.Done());
        if error.Some? {
          UnitsPlanSplit(owned, units, i + 1);
          assert a + b + UnitsPlan(owned, units)[|a + b|..] == UnitsPlan(owned, units);
          CarriedStopped(ns, a + b, UnitsPlan(owned, units)[|a + b|..], start, k.trace, error, k.Done());
          return;
        }
        applied := applied + units[i].objects;
      }
      assert units[..|units|] == units;
    }

    /** The wiring step; without wiring there is none. */
    method InstallWiring(owned: seq<Manifest>, wiring: seq<Manifest>, judge: Option<Judge>)
      returns (error: Option<Error>)
      modifies k
      ensures Carried(inventoryNamespace, WiringPlan(owned, wiring, judge), old(k.trace), k.trace, error, k.Done())
    {
      hide Carried, StageRun, JudgedWait;
      ghost var ns, start := inventoryNamespace, k.trace;
      if |wiring| == 0 {
        CarriedNothing(ns, k.trace, k.Done());
        return None;
      }
      var applied := owned + wiring;
      ghost var a, b := [Recording(applied), Applying(wiring)], [JudgedWait(wiring, judge)];
      assert a + b == WiringPlan(owned, wiring, judge);
      error := RecordAndApply(applied, wiring);
      if error.Some? {
        CarriedStopped(ns, a, b, start, k.trace, error, k.Done());
        return;
      }
      ghost var mid, before := k.trace, k.Done();
      error := AwaitReconciled(wiring, judge);
      CarriedOne(ns, b[0], mid, k.trace, error, k.Done());
      CarriedThen(ns, a, b, start, mid, k.trace, error, before, k.Done());
    }

    /** checkUnits: found before anything is installed. */
    method CheckUnits(units: seq<Unit>) returns (error: Option<Error>)
      ensures error.Some? <==> Defective(units)
      ensures error.Some? <==> exists u <- units :: u.kind == CR && u.reconciled.None?
      ensures error.Some? ==> error.value.code == Some(PollFailed)
    {
      for i := 0 to |units|
        invariant forall j :: 0 <= j < i ==> !Misjudged(units[j])
      {
        if units[i].kind == CR && units[i].reconciled.None? {
          assert Misjudged(units[i]);
          return Some(Error(Some(PollFailed), Rejected("nil ReconciledFunc"), []));
        }
      }
      return None;
    }

    method InstallEngine(run: EngineInstall) returns (error: Option<Error>)
      modifies k
      ensures old(k.trace) <= k.trace
      ensures EngineRun(inventoryNamespace, run, k.trace[|old(k.trace)|..], error, k.Done())
    {
      hide Carried, EnginePlan, Defective;
      ghost var ns, start := inventoryNamespace, k.trace;
      error := CheckUnits(run.prerequisites);
      if error.Some? {
        assert k.trace[|start|..] == [];
        return;
      }
      error := InstallPhases(run);
      CarriedFromNothing(ns, EnginePlan(run), start, k.trace, error, k.Done());
    }

    /** InstallEngine past its pre-flight. */
    method InstallPhases(run: EngineInstall) returns (error: Option<Error>)
      modifies k
      ensures Carried(inventoryNamespace, EnginePlan(run), old(k.trace), k.trace, error, k.Done())
    {
      hide Carried, StageRun, UnitsPlan, WiringPlan, SubstratePlan, JudgedWait;
      ghost var ns, start := inventoryNamespace, k.trace;
      ghost var a := SubstratePlan(run.substrate);
      ghost var b := UnitsPlan(run.substrate, run.prerequisites);
      ghost var c := WiringPlan(run.substrate + ObjectsOf(run.prerequisites), run.wiring, run.reconciled);
      ghost var d := [JudgedWait(run.engineObjects, run.reconciled)];
      Regroup(a, b, c, d);

      error := Install(run.substrate);
      if error.Some? {
        CarriedStopped(ns, a, b + c + d, start, k.trace, error, k.Done());
        return;
      }
      ghost var mid, before := k.trace, k.Done();
      var applied;
      applied, error := InstallPrerequisites(run.substrate, run.prerequisites);
      CarriedThen(ns, a, b, start, mid, k.trace, error, before, k.Done());
      if error.Some? {
        CarriedStopped(ns, a + b, c + d, start, k.trace, error, k.Done());
        return;
      }
      mid, before := k.trace, k.Done();
      error := InstallWiring(applied, run.wiring, run.reconciled);
      CarriedThen(ns, a + b, c, start, mid, k.trace, error, before, k.Done());
      if error.Some? {
        CarriedStopped(ns, a + b + c, d, start, k.trace, error, k.Done());
        return;
      }
      mid, before := k.trace, k.Done();
      error := AwaitReconciled(run.engineObjects, run.reconciled);
      CarriedOne(ns, d[0], mid, k.trace, error, k.Done());
      CarriedThen(ns, a + b + c, d, start, mid, k.trace, error, before, k.Done());
    }
  }

  lemma Regroup(a: seq<Stage>, b: seq<Stage>, c: seq<Stage>, d: seq<Stage>)
    ensures a + b + c + d == a + (b + c + d) == a + b + (c + d)
  {
  }

  lemma {:induction false} UnitsPlanNext(owned: seq<Manifest>, units: seq<Unit>, i: nat)
    requires i < |units|
    ensures var before := owned + ObjectsOf(units[..i]);
            && UnitsPlan(owned, units[..i + 1]) ==
                 UnitsPlan(owned, units[..i]) + Step(before, units[i].objects, DeclaredWait(units[i]))
            && before + units[i].objects == owned + ObjectsOf(units[..i + 1])
  {
    assert units[..i + 1][..i] == units[..i];
  }

  lemma {:induction false} UnitsPlanSplit(owned: seq<Manifest>, units: seq<Unit>, i: nat)
    requires i <= |units|
    ensures UnitsPlan(owned, units[..i]) <= UnitsPlan(owned, units)
  {
    if i < |units| {
      var n := |units| - 1;
      UnitsPlanSplit(owned, units[..n], i);
      assert units[..n][..i] == units[..i];
    } else {
      assert units[..i] == units;
    }
  }
}
