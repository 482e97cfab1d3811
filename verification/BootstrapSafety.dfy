/** What every run of InstallEngine keeps, whichever step fails and whatever the cluster answers. */
module BootstrapSafety {
  import opened Inventory
  import opened Cluster
  import opened Wrappers
  import opened Waits
  import opened Bootstrap

  // ---------- reading a trace ----------

  predicate IsInjection(e: Event) {
    e.Applied? && e.target.Injected?
  }

  predicate IsRecord(e: Event) {
    e.Applied? && e.target.Record?
  }

  /** The objects applied, in order; one whose apply failed counts, for it may have taken effect. */
  function Injections(events: seq<Event>): seq<Manifest> {
    if events == [] then []
    else
      var n := |events| - 1;
      Injections(events[..n]) + if IsInjection(events[n]) then [events[n].target.manifest] else []
  }

  /** The lists recorded, in order. */
  function Recorded(events: seq<Event>): seq<seq<ObjectRef>> {
    if events == [] then []
    else
      var n := |events| - 1;
      Recorded(events[..n]) + if IsRecord(events[n]) then [events[n].target.refs] else []
  }

  /** What a `down` would read: the last record that succeeded. */
  function LastRecord(events: seq<Event>): Option<seq<ObjectRef>> {
    if events == [] then None
    else
      var n := |events| - 1;
      if IsRecord(events[n]) && events[n].error.None? then Some(events[n].target.refs) else LastRecord(events[..n])
  }

  lemma {:induction false} TraceConcat(a: seq<Event>, b: seq<Event>)
    ensures Injections(a + b) == Injections(a) + Injections(b)
    ensures Recorded(a + b) == Recorded(a) + Recorded(b)
    ensures LastRecord(a + b) == if LastRecord(b).Some? then LastRecord(b) else LastRecord(a)
  {
    hide Injections, Recorded, LastRecord, IsInjection, IsRecord;
    if b == [] {
      NothingTraced();
      assert a + b == a;
    } else {
      var n := |b| - 1;
      TraceConcat(a, b[..n]);
      TraceSnoc(a + b[..n], b[n]);
      TraceSnoc(b[..n], b[n]);
      assert (a + b[..n]) + [b[n]] == a + b && b[..n] + [b[n]] == b;
    }
  }

  lemma NothingTraced()
    ensures Injections([]) == [] && Recorded([]) == [] && LastRecord([]) == None
  {
  }

  lemma {:induction false} TraceSnoc(events: seq<Event>, e: Event)
    ensures Injections(events + [e]) == Injections(events) + if IsInjection(e) then [e.target.manifest] else []
    ensures Recorded(events + [e]) == Recorded(events) + if IsRecord(e) then [e.target.refs] else []
    ensures LastRecord(events + [e]) ==
            if IsRecord(e) && e.error.None? then Some(e.target.refs) else LastRecord(events)
  {
    assert (events + [e])[..|events|] == events;
  }

  lemma {:induction false} NoApplies(events: seq<Event>)
    requires forall i :: 0 <= i < |events| ==> !events[i].Applied?
    ensures Injections(events) == [] && Recorded(events) == [] && LastRecord(events) == None
  {
    if events != [] { NoApplies(events[..|events| - 1]); }
  }

  lemma {:induction false} OnlyInjections(objs: seq<Manifest>, events: seq<Event>)
    requires |events| <= |objs|
    requires forall i :: 0 <= i < |events| ==> events[i].Applied? && events[i].target == Injected(objs[i])
    ensures Injections(events) == objs[..|events|] && Recorded(events) == [] && LastRecord(events) == None
  {
    if events != [] { OnlyInjections(objs, events[..|events| - 1]); }
  }

  lemma {:induction false} InjectionsMembers(events: seq<Event>)
    ensures forall m :: (
              m in Injections(events) <==>
              exists i :: 0 <= i < |events| && IsInjection(events[i]) && events[i].target.manifest == m)
  {
    if events != [] {
      var n := |events| - 1;
      InjectionsMembers(events[..n]);
      forall m ensures m in Injections(events) <==>
                       exists i :: 0 <= i < |events| && IsInjection(events[i]) && events[i].target.manifest == m {
        if m in Injections(events) && m in Injections(events[..n]) {
          var i :| 0 <= i < n && IsInjection(events[..n][i]) && events[..n][i].target.manifest == m;
          assert IsInjection(events[i]);
        }
        if i :| 0 <= i < |events| && IsInjection(events[i]) && events[i].target.manifest == m {
          assert i < n ==> IsInjection(events[..n][i]);
        }
      }
    }
  }

  // ---------- what a plan promises ----------

  function Objects(stage: Stage): seq<Manifest> {
    if stage.Applying? then stage.objs else []
  }

  function Planned(stages: seq<Stage>): seq<Manifest> {
    if stages == [] then [] else Planned(stages[..|stages| - 1]) + Objects(stages[|stages| - 1])
  }

  function RecordsOf(stages: seq<Stage>): seq<seq<Manifest>> {
    if stages == [] then []
    else
      var n := |stages| - 1;
      RecordsOf(stages[..n]) + if stages[n].Recording? then [stages[n].owned] else []
  }

  function LastOwned(stages: seq<Stage>): Option<seq<Manifest>> {
    if stages == [] then None
    else
      var n := |stages| - 1;
      if stages[n].Recording? then Some(stages[n].owned) else LastOwned(stages[..n])
  }

  lemma NothingPlanned()
    ensures Planned([]) == [] && RecordsOf([]) == [] && LastOwned([]) == None
  {
  }

  lemma {:induction false} PlannedSnoc(stages: seq<Stage>, s: Stage)
    ensures Planned(stages + [s]) == Planned(stages) + Objects(s)
    ensures RecordsOf(stages + [s]) == RecordsOf(stages) + if s.Recording? then [s.owned] else []
    ensures LastOwned(stages + [s]) == if s.Recording? then Some(s.owned) else LastOwned(stages)
  {
    assert (stages + [s])[..|stages|] == stages;
  }

  lemma {:induction false} PlannedConcat(a: seq<Stage>, b: seq<Stage>)
    ensures Planned(a + b) == Planned(a) + Planned(b)
    ensures RecordsOf(a + b) == RecordsOf(a) + RecordsOf(b)
    ensures LastOwned(a + b) == if LastOwned(b).Some? then LastOwned(b) else LastOwned(a)
  {
    hide Planned, RecordsOf, LastOwned, Objects;
    if b == [] {
      NothingPlanned();
      assert a + b == a;
    } else {
      var n := |b| - 1;
      PlannedConcat(a, b[..n]);
      PlannedSnoc(a + b[..n], b[n]);
      PlannedSnoc(b[..n], b[n]);
      assert (a + b[..n]) + [b[n]] == a + b && b[..n] + [b[n]] == b;
    }
  }

  lemma {:induction false} PlannedStep(stages: seq<Stage>, owned: seq<Manifest>, objs: seq<Manifest>, wait: Stage)
    requires wait.Waiting?
    ensures Planned(stages + Step(owned, objs, wait)) == Planned(stages) + objs
    ensures RecordsOf(stages + Step(owned, objs, wait)) == RecordsOf(stages) + [owned + objs]
  {
    hide Planned, RecordsOf, LastOwned;
    var a, b := Recording(owned + objs), Applying(objs);
    PlannedSnoc(stages, a);
    PlannedSnoc(stages + [a], b);
    PlannedSnoc(stages + [a] + [b], wait);
    assert stages + [a] + [b] + [wait] == stages + Step(owned, objs, wait);
  }

  lemma {:induction false} PlannedSubstrate(substrate: seq<Manifest>)
    ensures Planned(SubstratePlan(substrate)) == substrate
    ensures RecordsOf(SubstratePlan(substrate)) == [substrate]
  {
    hide Planned, RecordsOf, LastOwned, SubstratePlan;
    var a, b, c := SubstrateStages(substrate);
    NothingPlanned();
    PlannedSnoc([], a);
    PlannedSnoc([] + [a], b);
    PlannedSnoc([] + [a] + [b], c);
  }

  function Owned(run: EngineInstall): seq<Manifest> {
    run.substrate + ObjectsOf(run.prerequisites) + run.wiring
  }

  /** What is owned when the i-th record is made. */
  function OwnedAt(run: EngineInstall, i: nat): seq<Manifest> {
    if i <= |run.prerequisites| then run.substrate + ObjectsOf(run.prerequisites[..i]) else Owned(run)
  }

  function RecordCount(run: EngineInstall): nat {
    1 + |run.prerequisites| + if run.wiring == [] then 0 else 1
  }

  lemma {:induction false} UnitsPlanned(owned: seq<Manifest>, units: seq<Unit>)
    ensures Planned(UnitsPlan(owned, units)) == ObjectsOf(units)
    ensures |RecordsOf(UnitsPlan(owned, units))| == |units|
    ensures forall i :: 0 <= i < |units| ==> RecordsOf(UnitsPlan(owned, units))[i] == owned + ObjectsOf(units[..i + 1])
  {
    if units != [] {
      var n := |units| - 1;
      UnitsPlanned(owned, units[..n]);
      PlannedStep(UnitsPlan(owned, units[..n]), owned + ObjectsOf(units[..n]), units[n].objects,
          DeclaredWait(units[n]));
      assert units[..n + 1] == units;
      UnitsPlanNext(owned, units, n);
      hide Planned, RecordsOf, LastOwned, UnitsPlan, ObjectsOf, DeclaredWait, Step;
      forall i | 0 <= i < |units| ensures RecordsOf(UnitsPlan(owned, units))[i] == owned + ObjectsOf(units[..i + 1]) {
        if i < n { assert units[..n][..i + 1] == units[..i + 1]; }
      }
    }
  }

  lemma {:induction false} EnginePlanParts(run: EngineInstall)
    ensures var a, b := SubstratePlan(run.substrate), UnitsPlan(run.substrate, run.prerequisites);
            && Planned(EnginePlan(run)) == Planned(a) + Planned(b) + run.wiring
            && RecordsOf(EnginePlan(run)) == RecordsOf(a) + RecordsOf(b) + if run.wiring == [] then [] else [Owned(run)]
  {
    var a, b := SubstratePlan(run.substrate), UnitsPlan(run.substrate, run.prerequisites);
    var owned := run.substrate + ObjectsOf(run.prerequisites);
    var c := WiringPlan(owned, run.wiring, run.reconciled);
    var d := JudgedWait(run.engineObjects, run.reconciled);
    hide Planned, RecordsOf, LastOwned, UnitsPlan, ObjectsOf, SubstratePlan, Step, JudgedWait;
    assert EnginePlan(run) == a + b + c + [d];
    PlannedConcat(a, b);
    PlannedSnoc(a + b + c, d);
    JudgedWaitWaits(run.wiring, run.reconciled);
    if run.wiring == [] {
      assert a + b + c == a + b;
    } else {
      PlannedStep(a + b, owned, run.wiring, JudgedWait(run.wiring, run.reconciled));
    }
    assert d.Waiting? by { JudgedWaitWaits(run.engineObjects, run.reconciled); }
  }

  lemma JudgedWaitWaits(objs: seq<Manifest>, judge: Option<Judge>)
    ensures JudgedWait(objs, judge).Waiting?
  {
  }

  lemma {:induction false} EnginePlanned(run: EngineInstall)
    ensures Planned(EnginePlan(run)) == Owned(run)
    ensures |RecordsOf(EnginePlan(run))| == RecordCount(run)
    ensures forall i :: 0 <= i < RecordCount(run) ==> RecordsOf(EnginePlan(run))[i] == OwnedAt(run, i)
  {
    hide Planned, RecordsOf, LastOwned, UnitsPlan, ObjectsOf, SubstratePlan, EnginePlan, OwnedAt;
    EnginePlanParts(run);
    PlannedSubstrate(run.substrate);
    UnitsPlanned(run.substrate, run.prerequisites);
    OwnedAtParts(run);
    forall i | 0 <= i < RecordCount(run) ensures RecordsOf(EnginePlan(run))[i] == OwnedAt(run, i) {
      if 0 < i <= |run.prerequisites| {
        assert RecordsOf(EnginePlan(run))[i] == RecordsOf(UnitsPlan(run.substrate, run.prerequisites))[i - 1];
      }
    }
  }

  lemma OwnedAtParts(run: EngineInstall)
    ensures OwnedAt(run, 0) == run.substrate
    ensures OwnedAt(run, |run.prerequisites| + 1) == Owned(run)
    ensures forall i :: (
              0 < i <= |run.prerequisites| ==> OwnedAt(run, i) == run.substrate + ObjectsOf(run.prerequisites[..i]))
  {
    assert ObjectsOf(run.prerequisites[..0]) == [];
    assert run.substrate + [] == run.substrate;
  }

  // ---------- what a stage does to the trace ----------

  lemma {:induction false} StageEffect(ns: string, stage: Stage, s: Segment, done: bool, n: nat)
    requires StageRun(ns, stage, s, done) && n <= |s.events|
    ensures Injections(s.events[..n]) <= Objects(stage)
    ensures n == |s.events| && s.error.None? ==> Injections(s.events[..n]) == Objects(stage)
    ensures stage.Recording? && n == 1 ==>
              && |Recorded(s.events[..n])| == 1 && Lists(Recorded(s.events[..n])[0], stage.owned)
              && LastRecord(s.events[..n]) == if s.error.None? then Some(Recorded(s.events[..n])[0]) else None
    ensures !stage.Recording? || n == 0 ==> Recorded(s.events[..n]) == [] && LastRecord(s.events[..n]) == None
    ensures stage.Recording? ==> |s.events| == 1
  {
    match stage
    case Recording(owned) =>
      if n == 1 {
        var e := s.events[..1];
        assert e[..0] == [] && e[0] == s.events[0];
        assert Injections(e) == Injections(e[..0]) + [];
        assert Recorded(e) == Recorded(e[..0]) + [e[0].target.refs];
      }
    case Applying(objs) =>
      OnlyInjections(objs, s.events[..n]);
    case Waiting(mode, objs) =>
      NoApplies(s.events[..n]);
  }

  /** A run but for its last stage. */
  lemma {:induction false} RanLast(ns: string, stages: seq<Stage>, segments: seq<Segment>, error: Option<Error>,
      done: bool)
    requires Ran(ns, stages, segments, error, done) && segments != []
    ensures |segments| <= |stages|
    ensures var k := |segments| - 1;
            && Ran(ns, stages[..k], segments[..k], None, done)
            && StageRun(ns, stages[k], segments[k], done)
            && segments[k].error == error
            && Events(segments) == Events(segments[..k]) + segments[k].events
            && stages[..k + 1] == stages[..k] + [stages[k]]
            && (error.None? ==> stages == stages[..k + 1])
  {
    hide StageRun;
  }

  lemma {:induction false} RanNone(ns: string, stages: seq<Stage>, error: Option<Error>, done: bool)
    requires Ran(ns, stages, [], error, done)
    ensures error == None && stages == [] && Events([]) == []
    ensures Injections([]) == [] && Recorded([]) == [] && LastRecord([]) == None
    ensures Planned([]) == [] && RecordsOf([]) == [] && LastOwned([]) == None
  {
  }

  lemma {:induction false} CutAt(segments: seq<Segment>, n: nat) returns (k: nat, m: nat)
    requires segments != [] && n <= |Events(segments)|
    ensures k < |segments| && m <= |segments[k].events|
    ensures Events(segments)[..n] == Events(segments[..k]) + segments[k].events[..m]
  {
    var last := |segments| - 1;
    var before := Events(segments[..last]);
    if n <= |before| && last > 0 {
      k, m := CutAt(segments[..last], n);
      assert segments[..last][..k] == segments[..k];
      assert Events(segments)[..n] == before[..n];
    } else {
      k, m := last, n - |before|;
    }
  }

  lemma {:induction false} RanUpTo(ns: string, stages: seq<Stage>, segments: seq<Segment>, error: Option<Error>,
      done: bool, k: nat)
    requires Ran(ns, stages, segments, error, done) && k < |segments|
    ensures |segments| <= |stages| && Ran(ns, stages[..k], segments[..k], None, done)
        && StageRun(ns, stages[k], segments[k], done)
  {
    hide StageRun;
  }

  /** A moment of a run: some stages complete, and part of the next. */
  lemma {:induction false} Moment(ns: string, stages: seq<Stage>, segments: seq<Segment>, error: Option<Error>,
      done: bool, n: nat)
      returns (k: nat, m: nat)
    requires Ran(ns, stages, segments, error, done) && n <= |Events(segments)| && segments != []
    ensures k < |segments| <= |stages| && m <= |segments[k].events|
    ensures Ran(ns, stages[..k], segments[..k], None, done) && StageRun(ns, stages[k], segments[k], done)
    ensures Events(segments)[..n] == Events(segments[..k]) + segments[k].events[..m]
  {
    hide Ran, StageRun, Events;
    k, m := CutAt(segments, n);
    RanUpTo(ns, stages, segments, error, done, k);
  }

  // ---------- what was applied ----------

  lemma {:induction false} AllApplied(ns: string, stages: seq<Stage>, segments: seq<Segment>, done: bool)
    requires Ran(ns, stages, segments, None, done)
    ensures Injections(Events(segments)) == Planned(stages)
    decreases |segments|
  {
    hide StageRun, Ran, Events, Injections, Planned, Recorded, LastRecord, RecordsOf, LastOwned;
    if segments == [] {
      RanNone(ns, stages, None, done);
    } else {
      var k := |segments| - 1;
      var s := segments[k];
      RanLast(ns, stages, segments, None, done);
      AllApplied(ns, stages[..k], segments[..k], done);
      StageEffect(ns, stages[k], s, done, |s.events|);
      assert s.events[..|s.events|] == s.events;
      TraceConcat(Events(segments[..k]), s.events);
      PlannedSnoc(stages[..k], stages[k]);
    }
  }

  lemma AppliesExtend(before: seq<Event>, part: seq<Event>, planned: seq<Manifest>, objs: seq<Manifest>)
    requires Injections(before) == planned && Injections(part) <= objs
    ensures Injections(before + part) <= planned + objs
  {
    hide Injections, Recorded, LastRecord;
    TraceConcat(before, part);
  }

  /** At any moment, what has been applied is a prefix of what is planned. */
  lemma {:induction false} AppliesPlanned(ns: string, stages: seq<Stage>, segments: seq<Segment>,
      error: Option<Error>, done: bool, n: nat)
    requires Ran(ns, stages, segments, error, done) && n <= |Events(segments)|
    ensures Injections(Events(segments)[..n]) <= Planned(stages)
  {
    hide StageRun, Ran, Events, Injections, Planned, Recorded, LastRecord, RecordsOf, LastOwned;
    if segments == [] {
      RanNone(ns, stages, error, done);
      assert Events(segments)[..n] == [];
    } else {
      var k, m := Moment(ns, stages, segments, error, done, n);
      var s := segments[k];
      AllApplied(ns, stages[..k], segments[..k], done);
      StageEffect(ns, stages[k], s, done, m);
      AppliesExtend(Events(segments[..k]), s.events[..m], Planned(stages[..k]), Objects(stages[k]));
      PlannedSnoc(stages[..k], stages[k]);
      assert stages[..k] + [stages[k]] == stages[..k + 1];
      PlannedPrefix(stages, k + 1);
    }
  }

  lemma {:induction false} PlannedPrefix(stages: seq<Stage>, k: nat)
    requires k <= |stages|
    ensures Planned(stages[..k]) <= Planned(stages)
  {
    PlannedConcat(stages[..k], stages[k..]);
    assert stages[..k] + stages[k..] == stages;
  }

  /** What a run has applied is always a prefix of substrate, units and wiring in their declared
      order: nothing skipped, nothing twice, nothing else. On success it is all of them. So the
      engine's own objects are never applied, unless they were declared among the others too. */
  lemma {:induction false} AppliedInDeclaredOrder(ns: string, run: EngineInstall, events: seq<Event>,
      error: Option<Error>, done: bool)
    requires EngineRun(ns, run, events, error, done)
    ensures Injections(events) <= Owned(run)
    ensures error.None? ==> Injections(events) == Owned(run)
    ensures forall i :: 0 <= i < |events| && IsInjection(events[i]) ==> events[i].target.manifest in Owned(run)
  {
    hide Ran, Events, EnginePlan, Injections, Planned, Owned, IsInjection, Defective;
    if !Defective(run.prerequisites) {
      var segments: seq<Segment> :| Ran(ns, EnginePlan(run), segments, error, done) && events == [] + Events(segments);
      assert events == Events(segments) && events[..|events|] == events;
      AppliesPlanned(ns, EnginePlan(run), segments, error, done, |events|);
      EnginePlanned(run);
      if error.None? { AllApplied(ns, EnginePlan(run), segments, done); }
    } else {
      NothingTraced();
    }
    EachIsAmong(events, Owned(run));
  }

  lemma EachIsAmong(events: seq<Event>, objs: seq<Manifest>)
    requires Injections(events) <= objs
    ensures forall i :: 0 <= i < |events| && IsInjection(events[i]) ==> events[i].target.manifest in objs
  {
    hide Injections;
    InjectionsMembers(events);
    forall i | 0 <= i < |events| && IsInjection(events[i]) ensures events[i].target.manifest in objs {
      assert events[i].target.manifest in Injections(events);
    }
  }

  // ---------- what was recorded ----------

  lemma {:induction false} RecordsPlanned(ns: string, stages: seq<Stage>, segments: seq<Segment>,
      error: Option<Error>, done: bool)
    requires Ran(ns, stages, segments, error, done)
    ensures |segments| <= |stages| && (error.None? ==> |segments| == |stages|)
    ensures AllList(Recorded(Events(segments)), RecordsOf(stages[..|segments|]))
    decreases |segments|
  {
    hide StageRun, AllList, Ran, Events, Injections, Planned, Recorded, LastRecord, RecordsOf, LastOwned;
    if segments == [] {
      RanNone(ns, stages, error, done);
      assert stages[..0] == [];
      NothingListed();
    } else {
      var k := |segments| - 1;
      var before, s := Events(segments[..k]), segments[k];
      RanLast(ns, stages, segments, error, done);
      assert stages[..k][..k] == stages[..k];
      RecordsPlanned(ns, stages[..k], segments[..k], None, done);
      StageRecords(ns, stages[k], s, done);
      TraceConcat(before, s.events);
      AllListJoin(Recorded(before), RecordsOf(stages[..k]), Recorded(s.events), RecordsOf([stages[k]]));
      PlannedConcat(stages[..k], [stages[k]]);
    }
  }

  lemma {:induction false} StageRecords(ns: string, stage: Stage, s: Segment, done: bool)
    requires StageRun(ns, stage, s, done)
    ensures AllList(Recorded(s.events), RecordsOf([stage]))
  {
    hide Lists, Recorded, RecordsOf, LastRecord, Injections, StageRun, Planned, LastOwned, Objects;
    NothingPlanned();
    PlannedSnoc([], stage);
    assert [] + [stage] == [stage];
    StageEffect(ns, stage, s, done, |s.events|);
    assert s.events[..|s.events|] == s.events;
  }

  /** Record by record. */
  ghost predicate AllList(recorded: seq<seq<ObjectRef>>, owned: seq<seq<Manifest>>) {
    && |recorded| == |owned|
    && forall i :: 0 <= i < |recorded| ==> Lists(recorded[i], owned[i])
  }

  lemma NothingListed()
    ensures AllList([], [])
  {
  }

  lemma AllListJoin(a: seq<seq<ObjectRef>>, x: seq<seq<Manifest>>, b: seq<seq<ObjectRef>>, y: seq<seq<Manifest>>)
    requires AllList(a, x) && AllList(b, y)
    ensures AllList(a + b, x + y)
  {
    hide Lists;
  }

  lemma {:induction false} RecordsPrefix(stages: seq<Stage>, k: nat)
    requires k <= |stages|
    ensures |RecordsOf(stages[..k])| <= |RecordsOf(stages)|
    ensures forall i :: 0 <= i < |RecordsOf(stages[..k])| ==> RecordsOf(stages[..k])[i] == RecordsOf(stages)[i]
    ensures k == |stages| ==> RecordsOf(stages[..k]) == RecordsOf(stages)
  {
    PlannedConcat(stages[..k], stages[k..]);
    assert stages[..k] + stages[k..] == stages;
    assert k == |stages| ==> stages[..k] == stages;
  }

  /** The i-th record lists exactly the substrate and the first i units, and after the last unit
      the wiring too; so a run's records only grow, up to everything bootstrap installs. */
  lemma {:induction false} RecordsAreCumulative(ns: string, run: EngineInstall, events: seq<Event>,
      error: Option<Error>, done: bool)
    requires EngineRun(ns, run, events, error, done)
    ensures |Recorded(events)| <= RecordCount(run)
    ensures error.None? ==> |Recorded(events)| == RecordCount(run)
    ensures forall i :: 0 <= i < |Recorded(events)| ==> Lists(Recorded(events)[i], OwnedAt(run, i))
  {
    hide Ran, Events, EnginePlan, Recorded, Planned, RecordsOf, OwnedAt, RecordCount, Lists, Defective, Awaited;
    if !Defective(run.prerequisites) {
      var plan := EnginePlan(run);
      var segments: seq<Segment> :| Ran(ns, plan, segments, error, done) && events == [] + Events(segments);
      assert events == Events(segments);
      RecordsPlanned(ns, plan, segments, error, done);
      EnginePlanned(run);
      RecordsPrefix(plan, |segments|);
    } else {
      NothingTraced();
    }
  }

  lemma {:induction false} ObjectsOfPrefix(units: seq<Unit>, i: nat, j: nat)
    requires i <= j <= |units|
    ensures ObjectsOf(units[..i]) <= ObjectsOf(units[..j])
  {
    if i < j {
      ObjectsOfPrefix(units, i, j - 1);
      assert units[..j][..j - 1] == units[..j - 1];
    }
  }

  lemma {:induction false} OwnedGrows(run: EngineInstall, i: nat, j: nat)
    requires i <= j
    ensures OwnedAt(run, i) <= OwnedAt(run, j) <= Owned(run)
  {
    var n := |run.prerequisites|;
    assert run.prerequisites[..n] == run.prerequisites;
    ObjectsOfPrefix(run.prerequisites, if i <= n then i else n, if j <= n then j else n);
    ObjectsOfPrefix(run.prerequisites, if j <= n then j else n, n);
  }

  lemma RefsOfPrefix(a: seq<Manifest>, b: seq<Manifest>)
    requires a <= b
    ensures multiset(RefsOf(a)) <= multiset(RefsOf(b))
  {
    assert RefsOf(b) == RefsOf(a) + RefsOf(b)[|a|..];
  }

  lemma {:induction false} RecordsOnlyGrow(ns: string, run: EngineInstall, events: seq<Event>, error: Option<Error>,
      done: bool, i: nat, j: nat)
    requires EngineRun(ns, run, events, error, done)
    requires i <= j < |Recorded(events)|
    ensures multiset(Recorded(events)[i]) <= multiset(Recorded(events)[j]) <= multiset(RefsOf(Owned(run)))
  {
    RecordsAreCumulative(ns, run, events, error, done);
    OwnedGrows(run, i, j);
    RefsOfPrefix(OwnedAt(run, i), OwnedAt(run, j));
    RefsOfPrefix(OwnedAt(run, j), Owned(run));
  }

  // ---------- the record covers what was applied ----------

  /** If anything is on record, everything applied is. */
  ghost predicate CoveredAt(events: seq<Event>) {
    LastRecord(events).Some? ==> forall m <- Injections(events) :: m.ref in LastRecord(events).value
  }

  /** A plan whose last record always includes what it goes on to apply. */
  ghost predicate Covering(stages: seq<Stage>) {
    if stages == [] then true
    else
      var n := |stages| - 1;
      && Covering(stages[..n])
      && match stages[n]
         case Recording(owned) => Planned(stages[..n]) <= owned
         case Applying(objs) => LastOwned(stages[..n]).Some? ==>
             Planned(stages[..n]) + objs <= LastOwned(stages[..n]).value
         case Waiting(_, _) => true
  }

  lemma {:induction false} CoveringPrefix(stages: seq<Stage>, k: nat)
    requires Covering(stages) && k <= |stages|
    ensures Covering(stages[..k])
  {
    if k < |stages| {
      CoveringPrefix(stages[..|stages| - 1], k);
      assert stages[..|stages| - 1][..k] == stages[..k];
    } else {
      assert stages[..k] == stages;
    }
  }

  lemma {:induction false} CoveringAppend(stages: seq<Stage>, s: Stage)
    requires Covering(stages)
    requires s.Recording? ==> Planned(stages) <= s.owned
    requires s.Applying? && LastOwned(stages).Some? ==> Planned(stages) + s.objs <= LastOwned(stages).value
    ensures Covering(stages + [s])
  {
    assert (stages + [s])[..|stages|] == stages;
  }

  /** Extending a plan by one recorded step keeps it covering. */
  lemma {:induction false} CoveringStep(stages: seq<Stage>, owned: seq<Manifest>, objs: seq<Manifest>, wait: Stage)
    requires Covering(stages) && wait.Waiting? && owned == Planned(stages)
    ensures Covering(stages + Step(owned, objs, wait))
    ensures Planned(stages + Step(owned, objs, wait)) == owned + objs
  {
    hide Covering, Planned, LastOwned, RecordsOf;
    var a, b := Recording(owned + objs), Applying(objs);
    CoveringAppend(stages, a);
    PlannedSnoc(stages, a);
    CoveringAppend(stages + [a], b);
    PlannedSnoc(stages + [a], b);
    CoveringAppend(stages + [a] + [b], wait);
    PlannedSnoc(stages + [a] + [b], wait);
    assert stages + [a] + [b] + [wait] == stages + Step(owned, objs, wait);
  }

  lemma {:induction false} CoveringUnits(base: seq<Stage>, owned: seq<Manifest>, units: seq<Unit>)
    requires Covering(base) && owned == Planned(base)
    ensures Covering(base + UnitsPlan(owned, units))
    ensures Planned(base + UnitsPlan(owned, units)) == owned + ObjectsOf(units)
  {
    hide Covering, Planned, LastOwned, RecordsOf, UnitsPlan, ObjectsOf, Step;
    if units == [] {
      NoUnits(owned);
      assert base + [] == base && owned + [] == owned;
    } else {
      var n := |units| - 1;
      var mid := owned + ObjectsOf(units[..n]);
      UnitsPlanNext(owned, units, n);
      assert units[..n + 1] == units;
      CoveringUnits(base, owned, units[..n]);
      var before, step := base + UnitsPlan(owned, units[..n]), Step(mid, units[n].objects, DeclaredWait(units[n]));
      CoveringStep(before, mid, units[n].objects, DeclaredWait(units[n]));
      assert base + UnitsPlan(owned, units) == before + step;
    }
  }

  lemma NoUnits(owned: seq<Manifest>)
    ensures UnitsPlan(owned, []) == [] && ObjectsOf([]) == []
  {
  }

  lemma NothingCovers()
    ensures Covering([])
  {
  }

  lemma SubstrateStages(substrate: seq<Manifest>) returns (a: Stage, b: Stage, c: Stage)
    ensures a == Applying(substrate) && b == Recording(substrate) && c.Waiting?
    ensures SubstratePlan(substrate) == [] + [a] + [b] + [c]
  {
    hide KindSet;
    a, b, c := Applying(substrate), Recording(substrate), Stage.Waiting(Kinds, KindSet(substrate));
  }

  lemma {:induction false} CoveringSubstrate(substrate: seq<Manifest>)
    ensures Covering(SubstratePlan(substrate))
  {
    hide Planned, LastOwned, RecordsOf, Covering, SubstratePlan;
    var a, b, c := SubstrateStages(substrate);
    NothingPlanned();
    NothingCovers();
    CoveringAppend([], a);
    PlannedSnoc([], a);
    var first := [] + [a];
    assert Planned(first) == substrate;
    CoveringAppend(first, b);
    CoveringAppend(first + [b], c);
  }

  lemma {:induction false} EnginePlanCovers(run: EngineInstall)
    ensures Covering(EnginePlan(run))
  {
    var a, b := SubstratePlan(run.substrate), UnitsPlan(run.substrate, run.prerequisites);
    var owned := run.substrate + ObjectsOf(run.prerequisites);
    var c := WiringPlan(owned, run.wiring, run.reconciled);
    var d := JudgedWait(run.engineObjects, run.reconciled);
    hide Covering, Planned, LastOwned, RecordsOf, UnitsPlan, ObjectsOf, SubstratePlan, Step;
    CoveringSubstrate(run.substrate);
    PlannedSubstrate(run.substrate);
    CoveringUnits(a, run.substrate, run.prerequisites);
    if run.wiring == [] {
      assert a + b + c == a + b;
    } else {
      CoveringStep(a + b, owned, run.wiring, JudgedWait(run.wiring, run.reconciled));
    }
    CoveringAppend(a + b + c, d);
    assert EnginePlan(run) == a + b + c + [d];
  }

  lemma {:induction false} LastRecordPlanned(ns: string, stages: seq<Stage>, segments: seq<Segment>, done: bool)
    requires Ran(ns, stages, segments, None, done)
    ensures LastRecord(Events(segments)).Some? <==> LastOwned(stages).Some?
    ensures LastOwned(stages).Some? ==> Lists(LastRecord(Events(segments)).value, LastOwned(stages).value)
    decreases |segments|
  {
    hide StageRun, Lists, Ran, Events, Injections, Planned, Recorded, LastRecord, RecordsOf, LastOwned;
    if segments == [] {
      RanNone(ns, stages, None, done);
    } else {
      var k := |segments| - 1;
      var before, s := Events(segments[..k]), segments[k];
      RanLast(ns, stages, segments, None, done);
      PlannedSnoc(stages[..k], stages[k]);
      LastRecordPlanned(ns, stages[..k], segments[..k], done);
      StageEffect(ns, stages[k], s, done, |s.events|);
      assert s.events[..|s.events|] == s.events;
      TraceConcat(before, s.events);
    }
  }

  lemma ListsMembers(refs: seq<ObjectRef>, owned: seq<Manifest>, applied: seq<Manifest>)
    requires Lists(refs, owned) && applied <= owned
    ensures forall m <- applied :: m.ref in refs
  {
    forall m <- applied ensures m.ref in refs {
      var i :| 0 <= i < |applied| && applied[i] == m;
      assert owned[i] == m && RefsOf(owned)[i] == m.ref;
      assert m.ref in multiset(refs);
    }
  }

  lemma {:induction false} CoveredThroughout(ns: string, stages: seq<Stage>, segments: seq<Segment>,
      error: Option<Error>, done: bool, n: nat)
    requires Ran(ns, stages, segments, error, done) && Covering(stages) && n <= |Events(segments)|
    ensures CoveredAt(Events(segments)[..n])
    decreases |segments|
  {
    hide StageRun, Lists, Ran, Events, Injections, Planned, Recorded, LastRecord, RecordsOf, LastOwned, Covering,
        CoveredAt;
    if segments == [] {
      RanNone(ns, stages, error, done);
      NothingCovered();
      assert Events(segments)[..n] == [];
    } else {
      var k, m := Moment(ns, stages, segments, error, done, n);
      var before, s := Events(segments[..k]), segments[k];
      assert before[..|before|] == before;
      CoveringPrefix(stages, k);
      CoveredThroughout(ns, stages[..k], segments[..k], None, done, |before|);
      StageEffect(ns, stages[k], s, done, m);
      AllApplied(ns, stages[..k], segments[..k], done);
      LastRecordPlanned(ns, stages[..k], segments[..k], done);
      CoveringPrefix(stages, k + 1);
      assert stages[..k] + [stages[k]] == stages[..k + 1];
      CoveredByStage(stages[..k], stages[k], before, s.events[..m]);
    }
  }

  lemma NothingCovered()
    ensures CoveredAt([])
  {
  }

  /** The step of the induction: what is on record after this stage lists what is applied by then. */
  lemma {:induction false} CoveredByStage(earlier: seq<Stage>, stage: Stage, before: seq<Event>, part: seq<Event>)
    requires Covering(earlier + [stage])
    requires Injections(before) == Planned(earlier) && Injections(part) <= Objects(stage)
    requires LastRecord(before).Some? <==> LastOwned(earlier).Some?
    requires LastOwned(earlier).Some? ==> Lists(LastRecord(before).value, LastOwned(earlier).value)
    requires LastRecord(part).Some? ==> stage.Recording? && Lists(LastRecord(part).value, stage.owned)
    requires CoveredAt(before)
    ensures CoveredAt(before + part)
  {
    assert (earlier + [stage])[..|earlier|] == earlier;
    TraceConcat(before, part);
    hide Lists, Injections, LastRecord, Recorded, LastOwned, Planned;
    var applied := Injections(before) + Injections(part);
    if LastRecord(part).Some? {
      assert Injections(part) == [];
      assert applied == Planned(earlier);
      ListsMembers(LastRecord(part).value, stage.owned, applied);
    } else if LastRecord(before).Some? {
      if stage.Applying? {
        ListsMembers(LastRecord(before).value, LastOwned(earlier).value, applied);
      } else {
        assert Injections(part) == [];
        assert applied == Injections(before);
      }
    }
  }

  /** At every moment of every run, once anything is on record, every object bootstrap has applied
      or tried to apply is in the last record, so a `down` after any failure can find it. */
  lemma {:induction false} InventoryCovers(ns: string, run: EngineInstall, events: seq<Event>, error: Option<Error>,
      done: bool, n: nat)
    requires EngineRun(ns, run, events, error, done) && n <= |events|
    ensures CoveredAt(events[..n])
  {
    if Defective(run.prerequisites) {
      assert events[..n] == [];
    } else {
      hide Ran, Events, EnginePlan, Covering, CoveredAt;
      var segments: seq<Segment> :| Ran(ns, EnginePlan(run), segments, error, done) && events == [] + Events(segments);
      assert events == Events(segments);
      EnginePlanCovers(run);
      CoveredThroughout(ns, EnginePlan(run), segments, error, done, n);
    }
  }
}
