/** In what order a run of InstallEngine does things, and what its outcome tells. */
module BootstrapOrder {
  import opened Inventory
  import opened Cluster
  import opened Wrappers
  import opened Waits
  import opened Bootstrap
  import opened BootstrapSafety

  // ---------- readiness, seen after the apply ----------

  ghost predicate AppliedIn(m: Manifest, events: seq<Event>) {
    exists i :: 0 <= i < |events| && events[i] == Applied(Injected(m), None)
  }

  /** Applied without error, and found settled by a later read. */
  ghost predicate SettledAfterApply(mode: Mode, m: Manifest, events: seq<Event>) {
    exists i, j :: 0 <= i < j < |events| && events[i] == Applied(Injected(m), None) && SaysReady(mode, m, events[j])
  }

  ghost predicate SubstrateReady(run: EngineInstall, events: seq<Event>) {
    && (forall m <- run.substrate :: AppliedIn(m, events))
    && forall m <- run.substrate :: Awaited(m.ref.kind) ==> SettledAfterApply(Kinds, m, events)
  }

  /** Ready the way the unit declares it. */
  ghost predicate UnitReady(u: Unit, events: seq<Event>) {
    && (forall m <- u.objects :: AppliedIn(m, events))
    && match u.kind
       case Raw => forall m <- u.objects :: Awaited(m.ref.kind) ==> SettledAfterApply(Kinds, m, events)
       case CR => u.reconciled.Some? && forall m <- u.objects ::
           SettledAfterApply(Judged(u.reconciled.value), m, events)
       case Inert => true
  }

  // ---------- where the stages are in the trace ----------

  lemma {:induction false} SegmentAt(segments: seq<Segment>, k: nat)
    requires k < |segments|
    ensures var b, e := |Events(segments[..k])|, segments[k].events;
            && Events(segments[..k + 1]) == Events(segments[..k]) + e
            && b + |e| <= |Events(segments)|
            && Events(segments)[..b] == Events(segments[..k])
            && Events(segments)[b..b + |e|] == e
  {
    assert segments[..k + 1][..k] == segments[..k];
    assert segments == segments[..k + 1] + segments[k + 1..];
    EventsConcat(segments[..k + 1], segments[k + 1..]);
  }

  lemma {:induction false} EventsPrefix(segments: seq<Segment>, k: nat)
    requires k <= |segments|
    ensures Events(segments[..k]) <= Events(segments)
  {
    assert segments == segments[..k] + segments[k..];
    EventsConcat(segments[..k], segments[k..]);
  }

  lemma StageApplied(ns: string, stages: seq<Stage>, segments: seq<Segment>, done: bool, s: nat)
    requires Ran(ns, stages, segments, None, done) && s < |stages| && stages[s].Applying?
    ensures forall m <- stages[s].objs :: AppliedIn(m, segments[s].events)
  {
    assert segments[s].error.None? && StageRun(ns, stages[s], segments[s], done);
    forall m <- stages[s].objs ensures AppliedIn(m, segments[s].events) {
      var i :| 0 <= i < |stages[s].objs| && stages[s].objs[i] == m;
      assert segments[s].events[i] == Applied(Injected(m), None);
    }
  }

  lemma StageSettled(ns: string, stages: seq<Stage>, segments: seq<Segment>, done: bool, w: nat)
    requires Ran(ns, stages, segments, None, done) && w < |stages| && stages[w].Waiting?
    ensures forall m <- stages[w].objs :: SeenReady(stages[w].mode, m, segments[w].events)
  {
    var s := segments[w];
    assert s.error.None? && StageRun(ns, stages[w], s, done);
    assert !EndsBroken(stages[w].mode, s.events);
    WaitReport(stages[w].mode, stages[w].objs, s.events, None, done);
  }

  lemma {:induction false} SeenInRun(segments: seq<Segment>, k: nat, m: Manifest, mode: Mode)
    requires k < |segments|
    ensures AppliedIn(m, segments[k].events) ==> AppliedIn(m, Events(segments))
    ensures SeenReady(mode, m, segments[k].events) ==> SeenReady(mode, m, Events(segments))
  {
    hide Events, SaysReady;
    SegmentAt(segments, k);
    var b, e := |Events(segments[..k])|, segments[k].events;
    assert forall i :: 0 <= i < |e| ==> Events(segments)[b + i] == Events(segments)[b..b + |e|][i] == e[i];
    if AppliedIn(m, e) {
      var i :| 0 <= i < |e| && e[i] == Applied(Injected(m), None);
      assert Events(segments)[b + i] == e[i];
    }
    if SeenReady(mode, m, e) {
      var i :| 0 <= i < |e| && SaysReady(mode, m, e[i]);
      assert Events(segments)[b + i] == e[i];
    }
  }

  lemma {:induction false} SegmentsInOrder(segments: seq<Segment>, s: nat, w: nat)
    requires s < w < |segments|
    ensures |Events(segments[..s])| + |segments[s].events| <= |Events(segments[..w])|
  {
    SegmentAt(segments, s);
    assert segments[..w][..s + 1] == segments[..s + 1];
    EventsPrefix(segments[..w], s + 1);
  }

  lemma {:induction false} AppliedThenSettled(segments: seq<Segment>, s: nat, w: nat, m: Manifest, mode: Mode)
    requires s < w < |segments|
    requires AppliedIn(m, segments[s].events) && SeenReady(mode, m, segments[w].events)
    ensures SettledAfterApply(mode, m, Events(segments))
  {
    hide Events, SettledAfterApply, AppliedIn, SeenReady;
    SegmentAt(segments, s);
    SegmentAt(segments, w);
    SegmentsInOrder(segments, s, w);
    SettledPastApply(Events(segments), |Events(segments[..s])|, |Events(segments[..w])|, segments[s].events,
        segments[w].events, m, mode);
  }

  lemma SettledPastApply(events: seq<Event>, x: nat, y: nat, a: seq<Event>, b: seq<Event>, m: Manifest, mode: Mode)
    requires x + |a| <= y && y + |b| <= |events|
    requires events[x..x + |a|] == a && events[y..y + |b|] == b
    requires AppliedIn(m, a) && SeenReady(mode, m, b)
    ensures SettledAfterApply(mode, m, events)
  {
    hide SaysReady;
    var i :| 0 <= i < |a| && a[i] == Applied(Injected(m), None);
    var j :| 0 <= j < |b| && SaysReady(mode, m, b[j]);
    assert events[x + i] == events[x..x + |a|][i];
    assert events[y + j] == events[y..y + |b|][j];
    assert SaysReady(mode, m, events[y + j]);
  }

  /** A wait that follows the apply of its objects, in a run that got past it. */
  lemma {:induction false} WaitedAfterApply(ns: string, stages: seq<Stage>, segments: seq<Segment>, done: bool,
      s: nat, w: nat)
    requires Ran(ns, stages, segments, None, done)
    requires s < w < |stages| && stages[s].Applying? && stages[w].Waiting?
    ensures forall m <- stages[s].objs :: AppliedIn(m, Events(segments))
    ensures forall m <- stages[w].objs :: m in stages[s].objs ==> SettledAfterApply(stages[w].mode, m, Events(segments))
  {
    assert |segments| == |stages|;
    StageApplied(ns, stages, segments, done, s);
    StageSettled(ns, stages, segments, done, w);
    hide Ran, Events, AppliedIn, SeenReady, SettledAfterApply;
    forall m <- stages[s].objs ensures AppliedIn(m, Events(segments)) {
      SeenInRun(segments, s, m, Kinds);
    }
    forall m <- stages[w].objs ensures m in stages[s].objs ==> SettledAfterApply(stages[w].mode, m, Events(segments)) {
      if m in stages[s].objs {
        AppliedThenSettled(segments, s, w, m, stages[w].mode);
      }
    }
  }

  lemma ReadyLater(run: EngineInstall, u: Unit, earlier: seq<Event>, later: seq<Event>)
    requires earlier <= later
    ensures SubstrateReady(run, earlier) ==> SubstrateReady(run, later)
    ensures UnitReady(u, earlier) ==> UnitReady(u, later)
  {
    forall m | AppliedIn(m, earlier) ensures AppliedIn(m, later) {
      var i :| 0 <= i < |earlier| && earlier[i] == Applied(Injected(m), None);
      assert later[i] == earlier[i];
    }
    forall mode, m | SettledAfterApply(mode, m, earlier) ensures SettledAfterApply(mode, m, later) {
      var i, j :| 0 <= i < j < |earlier| && earlier[i] == Applied(Injected(m), None) && SaysReady(mode, m, earlier[j]);
      assert later[i] == earlier[i] && later[j] == earlier[j];
    }
    hide AppliedIn, SettledAfterApply;
  }

  // ---------- where the stages are in the plan ----------

  lemma {:induction false} UnitsPlanAt(owned: seq<Manifest>, units: seq<Unit>, a: nat)
    requires a < |units|
    ensures |UnitsPlan(owned, units)| == 3 * |units|
    ensures UnitsPlan(owned, units[..a]) <= UnitsPlan(owned, units)
    ensures |UnitsPlan(owned, units[..a])| == 3 * a
    ensures UnitsPlan(owned, units)[3 * a + 1] == Applying(units[a].objects)
    ensures UnitsPlan(owned, units)[3 * a + 2] == DeclaredWait(units[a])
  {
    UnitsPlanLength(owned, units);
    UnitsPlanLength(owned, units[..a]);
    UnitsPlanNext(owned, units, a);
    UnitsPlanSplit(owned, units, a);
    UnitsPlanSplit(owned, units, a + 1);
    var before := UnitsPlan(owned, units[..a]);
    var step := Step(owned + ObjectsOf(units[..a]), units[a].objects, DeclaredWait(units[a]));
    hide UnitsPlan, ObjectsOf, DeclaredWait;
    assert (before + step)[3 * a + 1] == step[1] && (before + step)[3 * a + 2] == step[2];
  }

  lemma {:induction false} UnitsPlanLength(owned: seq<Manifest>, units: seq<Unit>)
    ensures |UnitsPlan(owned, units)| == 3 * |units|
  {
    if units != [] { UnitsPlanLength(owned, units[..|units| - 1]); }
  }

  function UnitWait(a: nat): nat {
    5 + 3 * a
  }

  lemma {:induction false} SubstrateAt(run: EngineInstall)
    ensures |EnginePlan(run)| >= 4
    ensures EnginePlan(run)[..3] == SubstratePlan(run.substrate)
  {
    hide UnitsPlan, WiringPlan, ObjectsOf, JudgedWait;
  }

  lemma {:induction false} UnitAt(run: EngineInstall, a: nat)
    requires a < |run.prerequisites|
    ensures var plan, w := EnginePlan(run), UnitWait(a);
            && w < |plan|
            && plan[w - 1] == Applying(run.prerequisites[a].objects)
            && plan[w] == DeclaredWait(run.prerequisites[a])
  {
    hide UnitsPlan, WiringPlan, ObjectsOf, JudgedWait, SubstratePlan, DeclaredWait, EnginePlan;
    var x, y := SubstratePlan(run.substrate), UnitsPlan(run.substrate, run.prerequisites);
    UnitsPlanAt(run.substrate, run.prerequisites, a);
    EnginePrefix(run);
    AfterThree(x, y, EnginePlan(run), 3 * a + 1);
    AfterThree(x, y, EnginePlan(run), 3 * a + 2);
  }

  lemma AfterThree(x: seq<Stage>, y: seq<Stage>, plan: seq<Stage>, i: nat)
    requires |x| == 3 && x + y <= plan && i < |y|
    ensures 3 + i < |plan| && plan[3 + i] == y[i]
  {
    assert (x + y)[3 + i] == y[i];
  }

  lemma {:induction false} UnitPrefix(run: EngineInstall, a: nat)
    requires a < |run.prerequisites|
    ensures UnitWait(a) < |EnginePlan(run)|
    ensures EnginePlan(run)[..UnitWait(a) + 1]
        == SubstratePlan(run.substrate) + UnitsPlan(run.substrate, run.prerequisites[..a + 1])
  {
    hide UnitsPlan, SubstratePlan, EnginePlan;
    var units := run.prerequisites;
    var x, y := SubstratePlan(run.substrate), UnitsPlan(run.substrate, units);
    var part := UnitsPlan(run.substrate, units[..a + 1]);
    EnginePrefix(run);
    UnitsPlanLength(run.substrate, units);
    UnitsPlanLength(run.substrate, units[..a + 1]);
    UnitsPlanSplit(run.substrate, units, a + 1);
    assert (x + y)[..6 + 3 * a] == x + part;
    assert EnginePlan(run)[..6 + 3 * a] == (x + y)[..6 + 3 * a];
  }

  lemma {:induction false} PlannedByUnit(run: EngineInstall, a: nat)
    requires a < |run.prerequisites|
    ensures UnitWait(a) < |EnginePlan(run)|
    ensures Planned(EnginePlan(run)[..UnitWait(a) + 1]) == run.substrate + ObjectsOf(run.prerequisites[..a + 1])
  {
    hide UnitsPlan, ObjectsOf, Planned, SubstratePlan, RecordsOf, LastOwned, EnginePlan;
    var units := run.prerequisites[..a + 1];
    UnitPrefix(run, a);
    PlannedConcat(SubstratePlan(run.substrate), UnitsPlan(run.substrate, units));
    PlannedSubstrate(run.substrate);
    UnitsPlanned(run.substrate, units);
  }

  lemma {:induction false} EnginePrefix(run: EngineInstall)
    ensures |SubstratePlan(run.substrate)| == 3
    ensures SubstratePlan(run.substrate) + UnitsPlan(run.substrate, run.prerequisites) <= EnginePlan(run)
  {
    hide UnitsPlan, WiringPlan, ObjectsOf, JudgedWait;
  }

  lemma {:induction false} WiringAt(run: EngineInstall)
    ensures var plan := EnginePlan(run); var last := |plan| - 1;
            && last >= 3
            && plan[last] == JudgedWait(run.engineObjects, run.reconciled)
            && (run.wiring != [] ==> last >= 4 && plan[last - 2] == Applying(run.wiring)
                                     && plan[last - 1] == JudgedWait(run.wiring, run.reconciled))
  {
    hide UnitsPlan, ObjectsOf, JudgedWait;
  }

  // ---------- success ----------

  lemma {:induction false} SubstrateDone(ns: string, run: EngineInstall, stages: seq<Stage>, segments: seq<Segment>,
      done: bool)
    requires Ran(ns, stages, segments, None, done)
    requires |stages| >= 3 && stages[..3] == SubstratePlan(run.substrate)
    ensures SubstrateReady(run, Events(segments))
  {
    assert stages[0] == stages[..3][0] && stages[2] == stages[..3][2];
    hide Ran, Events, AppliedIn, SettledAfterApply;
    WaitedAfterApply(ns, stages, segments, done, 0, 2);
    KindSetMembers(run.substrate);
  }

  lemma {:induction false} UnitDone(ns: string, u: Unit, stages: seq<Stage>, segments: seq<Segment>, done: bool, w: nat)
    requires Ran(ns, stages, segments, None, done) && !Misjudged(u)
    requires 0 < w < |stages| && stages[w - 1] == Applying(u.objects) && stages[w] == DeclaredWait(u)
    ensures UnitReady(u, Events(segments))
  {
    hide Ran, Events, AppliedIn, SettledAfterApply;
    WaitedAfterApply(ns, stages, segments, done, w - 1, w);
    KindSetMembers(u.objects);
  }

  /** From event n on nothing is applied any more, the wiring having been seen reconciled by then;
      what is left is the wait for the engine's own objects. */
  ghost predicate EngineSettledLast(run: EngineInstall, judge: Judge, events: seq<Event>, n: nat) {
    && n <= |events|
    && (forall i :: n <= i < |events| ==> !events[i].Applied?)
    && (forall m <- run.wiring :: SettledAfterApply(Judged(judge), m, events[..n]))
    && forall m <- run.engineObjects :: SeenReady(Judged(judge), m, events[n..])
  }

  lemma RanWhole(ns: string, stages: seq<Stage>, segments: seq<Segment>, done: bool)
    requires Ran(ns, stages, segments, None, done)
    ensures |segments| == |stages|
  {
  }

  lemma {:induction false} WiringDone(ns: string, run: EngineInstall, segments: seq<Segment>, done: bool)
    requires Ran(ns, EnginePlan(run), segments, None, done)
    ensures forall m <- run.wiring :: AppliedIn(m, Events(segments))
    ensures segments != []
    ensures run.reconciled.Some? ==>
              forall m <- run.wiring ::
                SettledAfterApply(Judged(run.reconciled.value), m, Events(segments[..|segments| - 1]))
  {
    hide Events, EnginePlan, AppliedIn, SettledAfterApply, StageRun, Ran;
    var plan := EnginePlan(run);
    var last := |plan| - 1;
    WiringAt(run);
    RanWhole(ns, plan, segments, done);
    if run.wiring != [] {
      RanLast(ns, plan, segments, None, done);
      WaitedAfterApply(ns, plan, segments, done, last - 2, last - 1);
      WaitedAfterApply(ns, plan[..last], segments[..last], done, last - 2, last - 1);
    }
  }

  lemma WaitOnlyReads(ns: string, stage: Stage, s: Segment, done: bool)
    requires StageRun(ns, stage, s, done) && stage.Waiting?
    ensures forall i :: 0 <= i < |s.events| ==> !s.events[i].Applied?
  {
  }

  lemma {:induction false} EngineDone(ns: string, run: EngineInstall, segments: seq<Segment>, done: bool)
    requires Ran(ns, EnginePlan(run), segments, None, done) && run.reconciled.Some?
    ensures exists n: nat :: EngineSettledLast(run, run.reconciled.value, Events(segments), n)
  {
    hide Ran, Events, EnginePlan, AppliedIn, SettledAfterApply, SeenReady, StageRun, EngineSettledLast;
    var plan := EnginePlan(run);
    var last := |plan| - 1;
    RanWhole(ns, plan, segments, done);
    WiringDone(ns, run, segments, done);
    WiringAt(run);
    RanLast(ns, plan, segments, None, done);
    StageSettled(ns, plan, segments, done, last);
    WaitOnlyReads(ns, plan[last], segments[last], done);
    EngineLast(run, run.reconciled.value, Events(segments[..last]), segments[last].events);
  }

  lemma EngineLast(run: EngineInstall, judge: Judge, before: seq<Event>, part: seq<Event>)
    requires forall m <- run.wiring :: SettledAfterApply(Judged(judge), m, before)
    requires forall i :: 0 <= i < |part| ==> !part[i].Applied?
    requires forall m <- run.engineObjects :: SeenReady(Judged(judge), m, part)
    ensures EngineSettledLast(run, judge, before + part, |before|)
  {
    hide SettledAfterApply, SeenReady;
    var events := before + part;
    assert events[..|before|] == before && events[|before|..] == part;
    assert forall i :: |before| <= i < |events| ==> events[i] == part[i - |before|];
  }

  /** The stages a run went through, when it got as far as a plan. */
  lemma RunSegments(ns: string, run: EngineInstall, events: seq<Event>, error: Option<Error>, done: bool)
      returns (segments: seq<Segment>)
    requires EngineRun(ns, run, events, error, done)
    requires error.None? || events != [] || !Defective(run.prerequisites)
    ensures Ran(ns, EnginePlan(run), segments, error, done) && events == Events(segments)
    ensures !Defective(run.prerequisites)
  {
    hide Ran, Events, EnginePlan, Defective;
    segments :| Ran(ns, EnginePlan(run), segments, error, done) && events == [] + Events(segments);
    assert [] + Events(segments) == Events(segments);
  }

  /** A run that returns nil has applied everything and then seen it ready: the substrate and the
      raw units in their kind-set, the custom-resource units under their own judgment, and, when
      there is a judgment, the wiring under it, and after that the engine's objects. */
  lemma {:induction false} SuccessMeansReady(ns: string, run: EngineInstall, events: seq<Event>, done: bool)
    requires EngineRun(ns, run, events, None, done)
    ensures SubstrateReady(run, events)
    ensures forall a :: 0 <= a < |run.prerequisites| ==> UnitReady(run.prerequisites[a], events)
    ensures forall m <- run.wiring :: AppliedIn(m, events)
    ensures run.reconciled.Some? ==> exists n: nat :: EngineSettledLast(run, run.reconciled.value, events, n)
  {
    hide EngineRun, Ran, Events, EnginePlan, SubstrateReady, UnitReady, AppliedIn, EngineSettledLast, DeclaredWait,
        Misjudged;
    var plan := EnginePlan(run);
    var segments := RunSegments(ns, run, events, None, done);
    SubstrateAt(run);
    SubstrateDone(ns, run, plan, segments, done);
    forall a | 0 <= a < |run.prerequisites| ensures UnitReady(run.prerequisites[a], events) {
      UnitAt(run, a);
      assert !Misjudged(run.prerequisites[a]);
      UnitDone(ns, run.prerequisites[a], plan, segments, done, UnitWait(a));
    }
    WiringDone(ns, run, segments, done);
    if run.reconciled.Some? {
      EngineDone(ns, run, segments, done);
    }
  }

  /** For a Deployment or a StatefulSet of the substrate that is: after it was applied, a read found
      its current generation observed and as many replicas ready as it wants, one if it does not
      say. */
  lemma SuccessMeansRolledOut(ns: string, run: EngineInstall, events: seq<Event>, done: bool, m: Manifest)
    requires EngineRun(ns, run, events, None, done)
    requires m in run.substrate && m.ref.kind in {"Deployment", "StatefulSet"}
    ensures exists i, j :: 0 <= i < j < |events| && events[i] == Applied(Injected(m), None) &&
              events[j].Got? && events[j].manifest == m && events[j].reply.Alive? &&
              var live := events[j].reply.live;
              && (live.observedGeneration.Some? ==> live.observedGeneration.value >= live.generation)
              && (live.replicas.Some? && live.replicas.value > 0 ==>
                    live.readyReplicas.Some? && live.readyReplicas.value >= live.replicas.value)
              && (live.replicas.None? ==> live.readyReplicas.Some? && live.readyReplicas.value >= 1)
  {
    hide EngineRun, UnitReady, EngineSettledLast, AppliedIn;
    SuccessMeansReady(ns, run, events, done);
    assert Awaited(m.ref.kind);
    assert SettledAfterApply(Kinds, m, events);
  }

  // ---------- nothing starts before what precedes it is ready ----------

  lemma InjectionCounts(events: seq<Event>, i: nat)
    requires i < |events| && IsInjection(events[i])
    ensures |Injections(events[..i + 1])| == |Injections(events[..i])| + 1
  {
    assert events[..i + 1][..i] == events[..i];
  }

  lemma {:induction false} PlannedGrows(stages: seq<Stage>, i: nat, j: nat)
    requires i <= j <= |stages|
    ensures Planned(stages[..i]) <= Planned(stages[..j])
  {
    assert stages[..j][..i] == stages[..i];
    PlannedPrefix(stages[..j], i);
  }

  lemma {:induction false} AppliedInStage(ns: string, stages: seq<Stage>, segments: seq<Segment>,
      error: Option<Error>, done: bool, n: nat)
      returns (k: nat)
    requires Ran(ns, stages, segments, error, done) && n <= |Events(segments)| && segments != []
    ensures k < |segments| <= |stages|
    ensures Injections(Events(segments)[..n]) <= Planned(stages[..k + 1])
    ensures Events(segments[..k]) <= Events(segments)[..n]
  {
    hide Ran, StageRun, Events, Injections, Planned, Recorded, LastRecord, LastOwned, RecordsOf;
    var m;
    k, m := Moment(ns, stages, segments, error, done, n);
    AllApplied(ns, stages[..k], segments[..k], done);
    StageEffect(ns, stages[k], segments[k], done, m);
    AppliesExtend(Events(segments[..k]), segments[k].events[..m], Planned(stages[..k]), Objects(stages[k]));
    PlannedSnoc(stages[..k], stages[k]);
    assert stages[..k] + [stages[k]] == stages[..k + 1];
  }

  /** An apply of something planned after stage w comes after stage w, complete and without error. */
  lemma {:induction false} PastStage(ns: string, stages: seq<Stage>, segments: seq<Segment>, error: Option<Error>,
      done: bool, w: nat, i: nat)
    requires Ran(ns, stages, segments, error, done) && w < |stages|
    requires i < |Events(segments)| && IsInjection(Events(segments)[i])
    requires |Injections(Events(segments)[..i])| >= |Planned(stages[..w + 1])|
    ensures w + 1 < |segments|
    ensures Ran(ns, stages[..w + 1], segments[..w + 1], None, done)
    ensures Events(segments[..w + 1]) <= Events(segments)[..i]
  {
    var events := Events(segments);
    assert segments != [];
    hide Ran, StageRun, Events, Injections, Planned, Recorded, LastRecord, LastOwned, RecordsOf;
    InjectionCounts(events, i);
    var k := AppliedInStage(ns, stages, segments, error, done, i + 1);
    if k <= w {
      PlannedGrows(stages, k + 1, w + 1);
      assert false;
    }
    RanUpTo(ns, stages, segments, error, done, w + 1);
    PastEvents(ns, stages[..w + 1], segments, k, done, w + 1, i);
  }

  lemma {:induction false} PastEvents(ns: string, stages: seq<Stage>, segments: seq<Segment>, k: nat, done: bool,
      w: nat, i: nat)
    requires w <= k <= |segments| && i < |Events(segments)|
    requires Ran(ns, stages, segments[..w], None, done)
    requires Events(segments[..k]) <= Events(segments)[..i + 1]
    requires |Injections(Events(segments)[..i + 1])| > |Planned(stages)|
    ensures Events(segments[..w]) <= Events(segments)[..i]
  {
    hide Ran, StageRun, Events, Injections, Planned;
    AllApplied(ns, stages, segments[..w], done);
    EventsPrefix(segments[..k], w);
    assert segments[..k][..w] == segments[..w];
    ProperPrefix(Events(segments[..w]), Events(segments), i);
  }

  lemma ProperPrefix(a: seq<Event>, b: seq<Event>, i: nat)
    requires i < |b| && a <= b[..i + 1] && a != b[..i + 1]
    ensures a <= b[..i]
  {
    assert |a| <= i;
  }

  lemma {:induction false} SubstrateBefore(ns: string, run: EngineInstall, segments: seq<Segment>,
      error: Option<Error>, done: bool, i: nat)
    requires Ran(ns, EnginePlan(run), segments, error, done)
    requires i < |Events(segments)| && IsInjection(Events(segments)[i])
    requires |Injections(Events(segments)[..i])| >= |run.substrate|
    ensures SubstrateReady(run, Events(segments)[..i])
  {
    hide Ran, Events, EnginePlan, SubstrateReady, UnitReady, Injections, SubstratePlan, Planned;
    var plan := EnginePlan(run);
    SubstrateAt(run);
    PlannedSubstrate(run.substrate);
    PastStage(ns, plan, segments, error, done, 2, i);
    assert plan[..3][..3] == plan[..3];
    SubstrateDone(ns, run, plan[..3], segments[..3], done);
    ReadyLater(run, Unit("", [], Inert, None), Events(segments[..3]), Events(segments)[..i]);
  }

  lemma {:induction false} UnitBefore(ns: string, run: EngineInstall, segments: seq<Segment>, error: Option<Error>,
      done: bool, i: nat, a: nat)
    requires Ran(ns, EnginePlan(run), segments, error, done)
    requires i < |Events(segments)| && IsInjection(Events(segments)[i])
    requires a < |run.prerequisites| && !Misjudged(run.prerequisites[a])
    requires |Injections(Events(segments)[..i])| >= |run.substrate + ObjectsOf(run.prerequisites[..a + 1])|
    ensures UnitReady(run.prerequisites[a], Events(segments)[..i])
  {
    hide Ran, Events, EnginePlan, SubstrateReady, UnitReady, Injections, ObjectsOf, DeclaredWait, Planned;
    var plan, w, u := EnginePlan(run), UnitWait(a), run.prerequisites[a];
    UnitAt(run, a);
    PlannedByUnit(run, a);
    PastStage(ns, plan, segments, error, done, w, i);
    assert plan[..w + 1][w] == plan[w] && plan[..w + 1][w - 1] == plan[w - 1];
    UnitDone(ns, u, plan[..w + 1], segments[..w + 1], done, w);
    ReadyLater(run, u, Events(segments[..w + 1]), Events(segments)[..i]);
  }

  /** Whatever is applied after unit a's objects is applied after unit a was seen ready, and after
      the substrate was; so no unit, nor the wiring, starts before the wait of the one before. */
  lemma {:induction false} EachWaitsForThePrevious(ns: string, run: EngineInstall, events: seq<Event>,
      error: Option<Error>, done: bool, i: nat)
    requires EngineRun(ns, run, events, error, done)
    requires i < |events| && IsInjection(events[i])
    ensures |Injections(events[..i])| >= |run.substrate| ==> SubstrateReady(run, events[..i])
    ensures forall a :: 0 <= a < |run.prerequisites|
              && |Injections(events[..i])| >= |run.substrate + ObjectsOf(run.prerequisites[..a + 1])|
              ==> UnitReady(run.prerequisites[a], events[..i])
  {
    hide EngineRun, Ran, Events, EnginePlan, SubstrateReady, UnitReady, Injections, ObjectsOf, Misjudged;
    var segments := RunSegments(ns, run, events, error, done);
    if |Injections(events[..i])| >= |run.substrate| {
      SubstrateBefore(ns, run, segments, error, done, i);
    }
    forall a | 0 <= a < |run.prerequisites|
               && |Injections(events[..i])| >= |run.substrate + ObjectsOf(run.prerequisites[..a + 1])|
      ensures UnitReady(run.prerequisites[a], events[..i])
    {
      assert !Misjudged(run.prerequisites[a]);
      UnitBefore(ns, run, segments, error, done, i, a);
    }
  }

  // ---------- "every inventory record precedes the apply it covers" ----------

  ghost predicate RecordedBefore(events: seq<Event>, i: nat)
    requires i < |events| && IsInjection(events[i])
  {
    LastRecord(events[..i]).Some? && events[i].target.manifest.ref in LastRecord(events[..i]).value
  }

  ghost predicate RecordPrecedesApply(events: seq<Event>) {
    forall i :: 0 <= i < |events| && IsInjection(events[i]) ==> RecordedBefore(events, i)
  }

  lemma {:induction false} SubstrateGoesFirst(ns: string, run: EngineInstall, stages: seq<Stage>,
      segments: seq<Segment>, error: Option<Error>, done: bool)
    requires Ran(ns, stages, segments, error, done)
    requires |stages| > 0 && stages[0] == Applying(run.substrate) && run.substrate != []
    ensures |Events(segments)| > 0 && IsInjection(Events(segments)[0])
  {
    assert segments != [] && StageRun(ns, stages[0], segments[0], done);
    SegmentAt(segments, 0);
    assert Events(segments[..0]) == [];
    assert Events(segments)[0..|segments[0].events|][0] == Events(segments)[0];
  }

  lemma {:induction false} RecordedOnce(ns: string, run: EngineInstall, stages: seq<Stage>, segments: seq<Segment>,
      error: Option<Error>, done: bool, i: nat)
    requires Ran(ns, stages, segments, error, done)
    requires |stages| >= 3 && stages[..3] == SubstratePlan([])
    requires i < |Events(segments)| && IsInjection(Events(segments)[i])
    ensures LastRecord(Events(segments)[..i]).Some?
  {
    var events := Events(segments);
    hide Ran, Events, Injections, Planned, Recorded, LastRecord, LastOwned, RecordsOf, SubstratePlan;
    FirstRecord(stages);
    PastStage(ns, stages, segments, error, done, 1, i);
    var before := Events(segments[..2]);
    LastRecordPlanned(ns, stages[..2], segments[..2], done);
    assert events[..i] == before + events[..i][|before|..];
    TraceConcat(before, events[..i][|before|..]);
  }

  lemma {:induction false} FirstRecord(stages: seq<Stage>)
    requires |stages| >= 3 && stages[..3] == SubstratePlan([])
    ensures Planned(stages[..2]) == [] && LastOwned(stages[..2]).Some?
  {
    var first := [] + [Applying([])] + [Recording([])];
    assert stages[..2] == stages[..3][..2] == first;
    assert Planned([]) == [] && LastOwned([]) == None;
    hide Planned, LastOwned, RecordsOf;
    PlannedSnoc([], Applying([]));
    PlannedSnoc([] + [Applying([])], Recording([]));
  }

  lemma {:induction false} CoveredMeansRecorded(events: seq<Event>, i: nat)
    requires i < |events| && IsInjection(events[i])
    requires CoveredAt(events[..i + 1]) && LastRecord(events[..i]).Some?
    ensures RecordedBefore(events, i)
  {
    assert events[..i + 1][..i] == events[..i] && events[..i + 1][i] == events[i];
    assert LastRecord(events[..i + 1]) == LastRecord(events[..i]);
    assert events[i].target.manifest in Injections(events[..i + 1]);
  }

  /** The documentation promises this of every apply. The code gives it to units and wiring, but it
      applies the substrate before its first record: so the promise holds of a run exactly when
      there is no substrate to apply. */
  lemma {:induction false} RecordPrecedesApplyIff(ns: string, run: EngineInstall, events: seq<Event>,
      error: Option<Error>, done: bool)
    requires EngineRun(ns, run, events, error, done) && !Defective(run.prerequisites)
    ensures RecordPrecedesApply(events) <==> run.substrate == []
  {
    hide EngineRun, Ran, Events, EnginePlan, Injections, CoveredAt, LastRecord, Defective;
    var plan := EnginePlan(run);
    var segments := RunSegments(ns, run, events, error, done);
    SubstrateAt(run);
    assert plan[0] == plan[..3][0];
    if run.substrate != [] {
      SubstrateGoesFirst(ns, run, plan, segments, error, done);
      NothingTraced();
      assert events[..0] == [];
      assert !RecordedBefore(events, 0);
    } else {
      forall i | 0 <= i < |events| && IsInjection(events[i]) ensures RecordedBefore(events, i) {
        RecordedOnce(ns, run, plan, segments, error, done, i);
        InventoryCovers(ns, run, events, error, done, i + 1);
        CoveredMeansRecorded(events, i);
      }
    }
  }

  // ---------- failure ----------

  /** Why a stage ended the run, told from what it did. An apply or a record ended on an apply that
      failed with this very error. A wait only read its own objects; its last read failed for good,
      and the error is that read's or its judgment's, as it came if it had a code; or no read did,
      and the context was done. */
  ghost predicate Explains(stage: Stage, part: seq<Event>, error: Error, done: bool) {
    && part != []
    && var last := part[|part| - 1];
       match stage
       case Recording(_) => IsRecord(last) && last.error == Some(error)
       case Applying(objs) => |part| <= |objs| && last == Applied(Injected(objs[|part| - 1]), Some(error))
       case Waiting(mode, objs) =>
         && (forall e <- part :: ReadsIn(mode, e) && e.manifest in objs)
         && (forall cause :: FailsOn(mode, last, cause) ==> PassedOn(cause, error))
         && (!Fails(mode, last) ==> TimesOut(mode, objs, part, error, done))
  }

  /** The run went through the first s stages of its plan, in its first n events and without error,
      and ended in the next. */
  ghost predicate EndedIn(ns: string, run: EngineInstall, events: seq<Event>, error: Error, done: bool, s: nat,
      n: nat) {
    && s < |EnginePlan(run)| && n <= |events|
    && Carried(ns, EnginePlan(run)[..s], [], events[..n], None, done)
    && Explains(EnginePlan(run)[s], events[n..], error, done)
  }

  lemma {:induction false} StageExplains(ns: string, stage: Stage, s: Segment, done: bool)
    requires StageRun(ns, stage, s, done) && s.error.Some?
    ensures Explains(stage, s.events, s.error.value, done)
  {
    if stage.Waiting? {
      hide SaysReady, FailsOn, PassedOn;
      WaitReport(stage.mode, stage.objs, s.events, s.error, done);
      if TimesOut(stage.mode, stage.objs, s.events, s.error.value, done) {
        assert SeenWanting(stage.mode, s.error.value.pending[0], s.events);
      }
    }
  }

  lemma FailedSomewhere(ns: string, stages: seq<Stage>, segments: seq<Segment>, error: Error, done: bool)
    requires Ran(ns, stages, segments, Some(error), done)
    ensures segments != []
  {
  }

  /** A failed run ends on the failure it reports: nothing is retagged, nothing runs after it. */
  lemma {:induction false} FailureIsTheLastAct(ns: string, run: EngineInstall, events: seq<Event>, error: Error,
      done: bool)
    requires EngineRun(ns, run, events, Some(error), done) && !Defective(run.prerequisites)
    ensures exists s: nat, n: nat :: EndedIn(ns, run, events, error, done, s, n)
  {
    hide EngineRun, EnginePlan, Explains, StageRun, Ran, Events;
    var plan := EnginePlan(run);
    var segments := RunSegments(ns, run, events, Some(error), done);
    FailedSomewhere(ns, plan, segments, error, done);
    var s := |segments| - 1;
    RanLast(ns, plan, segments, Some(error), done);
    StageExplains(ns, plan[s], segments[s], done);
    var before := Events(segments[..s]);
    assert Ran(ns, plan[..s], segments[..s], None, done) && before == [] + before;
    assert events[..|before|] == before && events[|before|..] == segments[s].events;
    assert EndedIn(ns, run, events, error, done, s, |before|);
  }
}
