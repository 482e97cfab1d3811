/** Bootstrap's two readiness waits: polling the kind-set it applied, and polling declared
    objects under an injected judgment. Both are proved against one account of a wait. */
module Waits {
  import opened Inventory
  import opened Cluster
  import opened Wrappers

  // ---------- what it is to be ready ----------

  /** The kinds bootstrap waits for. */
  predicate Awaited(kind: string) {
    || kind == "CustomResourceDefinition"
    || kind == "Deployment" || kind == "StatefulSet"
    || kind == "Job"
    || kind == "Namespace"
  }

  /** Entry i is the first of its type; an entry that is no mapping is of none. */
  ghost predicate FirstOfType(conditions: seq<Condition>, name: string, i: nat) {
    && i < |conditions|
    && conditions[i].Condition? && conditions[i].name == name
    && forall j :: 0 <= j < i && conditions[j].Condition? ==> conditions[j].name != name
  }

  ghost predicate SaysTrue(live: Live, name: string) {
    && live.conditions.Some?
    && exists i: nat :: FirstOfType(live.conditions.value, name, i) && live.conditions.value[i].status == "True"
  }

  /** The controller has seen this generation, and as many replicas are ready as are wanted: one,
      if the object does not say. */
  ghost predicate RolledOut(live: Live) {
    var wanted := if live.replicas.None? then 1 else live.replicas.value;
    var ready := if live.readyReplicas.None? then 0 else live.readyReplicas.value;
    && (live.observedGeneration.None? || live.observedGeneration.value >= live.generation)
    && (wanted == 0 || ready >= wanted)
  }

  /** Ready in the way of its kind; a kind nothing is asked of always is. */
  ghost predicate IsUp(kind: string, live: Live) {
    && (kind == "CustomResourceDefinition" ==> SaysTrue(live, "Established"))
    && (kind == "Deployment" || kind == "StatefulSet" ==> RolledOut(live))
    && (kind == "Job" ==> SaysTrue(live, "Complete"))
    && (kind == "Namespace" ==> live.phase == "Active")
  }

  // ---------- the code of readiness ----------

  predicate ConditionTrue(live: Live, name: string) {
    live.conditions.Some? && FirstCondition(live.conditions.value, name)
  }

  /** The first condition of that name decides. */
  predicate FirstCondition(conditions: seq<Condition>, name: string) {
    if conditions == [] then false
    else if conditions[0].Condition? && conditions[0].name == name then conditions[0].status == "True"
    else FirstCondition(conditions[1..], name)
  }

  predicate WorkloadReady(live: Live) {
    if live.observedGeneration.Some? && live.observedGeneration.value < live.generation then false
    else
      var desired := if live.replicas.Some? then live.replicas.value else 1;
      if desired == 0 then true
      else (if live.readyReplicas.Some? then live.readyReplicas.value else 0) >= desired
  }

  const KIND_SET := {"CustomResourceDefinition", "Deployment", "StatefulSet", "Job", "Namespace"}

  predicate KindReady(kind: string, live: Live) {
    if kind == "CustomResourceDefinition" then ConditionTrue(live, "Established")
    else if kind == "Deployment" || kind == "StatefulSet" then WorkloadReady(live)
    else if kind == "Job" then ConditionTrue(live, "Complete")
    else if kind == "Namespace" then live.phase == "Active"
    else true
  }

  lemma {:induction false} FirstConditionDecides(conditions: seq<Condition>, name: string)
    ensures FirstCondition(conditions, name) <==>
            exists i: nat :: FirstOfType(conditions, name, i) && conditions[i].status == "True"
  {
    if conditions == [] {
    } else if conditions[0].Condition? && conditions[0].name == name {
      assert FirstOfType(conditions, name, 0);
    } else {
      FirstConditionDecides(conditions[1..], name);
      if i: nat :| FirstOfType(conditions[1..], name, i) && conditions[1..][i].status == "True" {
        assert FirstOfType(conditions, name, i + 1) by {
          assert forall j :: 0 < j <= i ==> conditions[j] == conditions[1..][j - 1];
        }
      }
      if i: nat :| FirstOfType(conditions, name, i) && conditions[i].status == "True" {
        assert FirstOfType(conditions[1..], name, i - 1);
      }
    }
  }

  /** The kinds' predicates read the live object as they should, field by field. */
  lemma KindReadyIs(kind: string, live: Live)
    ensures KindReady(kind, live) <==> IsUp(kind, live)
  {
    if live.conditions.Some? {
      FirstConditionDecides(live.conditions.value, "Established");
      FirstConditionDecides(live.conditions.value, "Complete");
    }
    hide FirstCondition, FirstOfType;
  }

  /** The objects whose readiness bootstrap waits on, in order. */
  function KindSet(objs: seq<Manifest>): seq<Manifest> {
    if objs == [] then []
    else
      var n := |objs| - 1;
      KindSet(objs[..n]) + if Awaited(objs[n].ref.kind) then [objs[n]] else []
  }

  method FilterKindSet(objs: seq<Manifest>) returns (out: seq<Manifest>)
    ensures out == KindSet(objs)
  {
    out := [];
    for i := 0 to |objs|
      invariant out == KindSet(objs[..i])
    {
      assert objs[..i + 1][..i] == objs[..i];
      if objs[i].ref.kind in KIND_SET {
        out := out + [objs[i]];
      }
    }
    assert objs[..|objs|] == objs;
  }

  lemma {:induction false} KindSetMembers(objs: seq<Manifest>)
    ensures forall m :: m in KindSet(objs) <==> m in objs && Awaited(m.ref.kind)
  {
    hide Awaited;
    if objs != [] {
      var n := |objs| - 1;
      KindSetMembers(objs[..n]);
      assert objs == objs[..n] + [objs[n]];
    }
  }

  // ---------- judging one read ----------

  datatype Verdict = Reconciled | NotYet(reason: string) | Unjudged(error: Error)

  type Judge = Live -> Verdict

  datatype Mode = Kinds | Judged(judge: Judge)

  /** What one read says about its object. */
  datatype Finding = Settled | Waiting | Broken(error: Error)

  /** A permanent failure is reported as it came, or as a poll failure if it came without a code. */
  ghost function Reported(error: Error): Error {
    if error.code.None? then Error(Some(PollFailed), error.cause, error.pending) else error
  }

  /** An object not created yet is waited for, and, under a judgment, one of a kind not served yet. */
  ghost function FindingOf(mode: Mode, m: Manifest, reply: Reply): Finding {
    match reply
    case Missed(e) =>
      if e.cause == NotFound || (e.cause == NoMatch && mode.Judged?) then Waiting else Broken(Reported(e))
    case Alive(live) =>
      match mode
      case Kinds => if IsUp(m.ref.kind, live) then Settled else Waiting
      case Judged(judge) =>
        match judge(live)
        case Reconciled => Settled
        case NotYet(_) => Waiting
        case Unjudged(e) => Broken(Reported(e))
  }

  predicate ReadsIn(mode: Mode, e: Event) {
    if mode.Kinds? then e.Got? else e.Lived?
  }

  ghost function Found(mode: Mode, e: Event): Finding
    requires ReadsIn(mode, e)
  {
    FindingOf(mode, e.manifest, e.reply)
  }

  function TimeoutCode(mode: Mode): Code {
    if mode.Kinds? then WaitTimeout else ReconcileTimeout
  }

  // ---------- what a wait is ----------

  predicate Subsequence(a: seq<Manifest>, b: seq<Manifest>)
    decreases |b|
  {
    if a == [] then true
    else if b == [] then false
    else if a[|a| - 1] == b[|b| - 1] then Subsequence(a[..|a| - 1], b[..|b| - 1])
    else Subsequence(a, b[..|b| - 1])
  }

  ghost predicate SettledIn(mode: Mode, m: Manifest, events: seq<Event>) {
    exists i :: 0 <= i < |events| && ReadsIn(mode, events[i]) && events[i].manifest == m
        && Found(mode, events[i]) == Settled
  }

  ghost predicate WaitingIn(mode: Mode, m: Manifest, events: seq<Event>) {
    exists i :: 0 <= i < |events| && ReadsIn(mode, events[i]) && events[i].manifest == m
        && Found(mode, events[i]) == Waiting
  }

  /** Nothing but reads of the objects. */
  ghost predicate OnlyReads(mode: Mode, objs: seq<Manifest>, events: seq<Event>) {
    forall i :: 0 <= i < |events| ==> ReadsIn(mode, events[i]) && events[i].manifest in objs
  }

  /** No read is broken, unless it is the last. */
  ghost predicate BrokenOnlyLast(mode: Mode, events: seq<Event>) {
    forall i :: 0 <= i < |events| && ReadsIn(mode, events[i]) && Found(mode, events[i]).Broken? ==> i == |events| - 1
  }

  ghost predicate EndsBroken(mode: Mode, events: seq<Event>) {
    && |events| > 0
    && ReadsIn(mode, events[|events| - 1])
    && Found(mode, events[|events| - 1]).Broken?
  }

  /** Still pending at the end: objects of the wait in their declared order, every one read and
      found wanting, everything else found settled. */
  ghost predicate StillPending(mode: Mode, objs: seq<Manifest>, events: seq<Event>, pending: seq<Manifest>) {
    && pending != []
    && Subsequence(pending, objs)
    && (forall m <- pending :: WaitingIn(mode, m, events))
    && forall m <- objs :: m in pending || SettledIn(mode, m, events)
  }

  /** A whole wait. It only reads. A permanent failure ends it at once, with that failure's own
      code; otherwise it ends well exactly with every object found settled, and times out, under
      its own code and naming what is pending, only when the context is done. */
  ghost predicate WaitRun(mode: Mode, objs: seq<Manifest>, events: seq<Event>, error: Option<Error>, done: bool) {
    && OnlyReads(mode, objs, events)
    && BrokenOnlyLast(mode, events)
    && if EndsBroken(mode, events) then
         error == Some(Found(mode, events[|events| - 1]).error)
       else
         match error
         case None => forall m <- objs :: SettledIn(mode, m, events)
         case Some(e) =>
           && done
           && e.code == Some(TimeoutCode(mode)) && e.cause == ContextDone
           && StillPending(mode, objs, events, e.pending)
  }

  // ---------- a wait, read by read ----------

  /** This read finds m ready: as its kind has it, or as the judgment has it. */
  ghost predicate SaysReady(mode: Mode, m: Manifest, e: Event) {
    match mode
    case Kinds => e.Got? && e.manifest == m && e.reply.Alive? && IsUp(m.ref.kind, e.reply.live)
    case Judged(judge) => e.Lived? && e.manifest == m && e.reply.Alive? && judge(e.reply.live).Reconciled?
  }

  /** This read fails for good, on `cause`: on any failed read but of an object that is not there
      yet, or, under a judgment, whose kind is not; or on the judgment's own error. */
  ghost predicate FailsOn(mode: Mode, e: Event, cause: Error) {
    match mode
    case Kinds => e.Got? && e.reply == Missed(cause) && cause.cause != NotFound
    case Judged(judge) =>
      e.Lived? && match e.reply
                  case Missed(err) => err == cause && cause.cause != NotFound && cause.cause != NoMatch
                  case Alive(live) => judge(live) == Unjudged(cause)
  }

  ghost predicate Fails(mode: Mode, e: Event) {
    exists cause :: FailsOn(mode, e, cause)
  }

  /** Reported as it came; if it came without a code, under the poll failure's. */
  ghost predicate PassedOn(cause: Error, error: Error) {
    && (cause.code.Some? ==> error == cause)
    && (cause.code.None? ==> error.code == Some(PollFailed) && error.cause == cause.cause
                             && error.pending == cause.pending)
  }

  ghost predicate SeenReady(mode: Mode, m: Manifest, events: seq<Event>) {
    exists i :: 0 <= i < |events| && SaysReady(mode, m, events[i])
  }

  /** A read of m that neither finds it ready nor fails. */
  ghost predicate SeenWanting(mode: Mode, m: Manifest, events: seq<Event>) {
    exists i :: 0 <= i < |events| && ReadsIn(mode, events[i]) && events[i].manifest == m
        && !SaysReady(mode, m, events[i]) && !Fails(mode, events[i])
  }

  /** The context is done; the error is this wait's timeout, naming the objects still wanting. */
  ghost predicate TimesOut(mode: Mode, objs: seq<Manifest>, events: seq<Event>, error: Error, done: bool) {
    && done
    && error.code == Some(if mode.Kinds? then WaitTimeout else ReconcileTimeout) && error.cause == ContextDone
    && error.pending != [] && Subsequence(error.pending, objs)
    && (forall m <- error.pending :: SeenWanting(mode, m, events))
    && forall m <- objs :: m in error.pending || SeenReady(mode, m, events)
  }

  lemma FoundReads(mode: Mode, e: Event)
    requires ReadsIn(mode, e)
    ensures Found(mode, e).Settled? <==> SaysReady(mode, e.manifest, e)
    ensures Found(mode, e).Broken? <==> Fails(mode, e)
    ensures forall cause :: FailsOn(mode, e, cause) ==>
              Found(mode, e).Broken? && PassedOn(cause, Found(mode, e).error)
  {
    hide IsUp;
    if Found(mode, e).Broken? {
      if e.reply.Missed? {
        assert FailsOn(mode, e, e.reply.error);
      } else {
        assert FailsOn(mode, e, mode.judge(e.reply.live).error);
      }
    }
  }

  lemma SettledIsReady(mode: Mode, m: Manifest, events: seq<Event>)
    ensures SettledIn(mode, m, events) <==> SeenReady(mode, m, events)
    ensures WaitingIn(mode, m, events) <==> SeenWanting(mode, m, events)
  {
    hide Found, FailsOn;
    forall i | 0 <= i < |events| && ReadsIn(mode, events[i])
      ensures Found(mode, events[i]).Settled? <==> SaysReady(mode, events[i].manifest, events[i])
      ensures Found(mode, events[i]).Broken? <==> Fails(mode, events[i])
    {
      FoundReads(mode, events[i]);
    }
  }

  /** A wait ends on the first read that fails for good, and reports that read's error, untouched if
      it has a code; without such a read it ends well, having seen every object ready, or it times
      out. */
  lemma WaitReport(mode: Mode, objs: seq<Manifest>, events: seq<Event>, error: Option<Error>, done: bool)
    requires WaitRun(mode, objs, events, error, done)
    ensures forall i, cause :: 0 <= i < |events| && FailsOn(mode, events[i], cause) ==>
              i == |events| - 1 && error.Some? && PassedOn(cause, error.value)
    ensures error.None? ==> forall m <- objs :: SeenReady(mode, m, events)
    ensures error.Some? ==>
              || TimesOut(mode, objs, events, error.value, done)
              || (events != [] && Fails(mode, events[|events| - 1]))
  {
    hide Found, SaysReady, FailsOn, PassedOn, SettledIn, WaitingIn, SeenReady, SeenWanting,
        Subsequence;
    forall i | 0 <= i < |events|
      ensures Found(mode, events[i]).Broken? <==> Fails(mode, events[i])
    {
      FoundReads(mode, events[i]);
    }
    forall i, cause | 0 <= i < |events| && FailsOn(mode, events[i], cause)
      ensures Found(mode, events[i]).Broken? && PassedOn(cause, Found(mode, events[i]).error)
    {
      FoundReads(mode, events[i]);
    }
    forall m
      ensures SettledIn(mode, m, events) <==> SeenReady(mode, m, events)
      ensures WaitingIn(mode, m, events) <==> SeenWanting(mode, m, events)
    {
      SettledIsReady(mode, m, events);
    }
  }

  // ---------- one pass ----------

  /** A pass reads the objects in order, up to the first broken read. */
  ghost predicate PassRun(mode: Mode, objs: seq<Manifest>, events: seq<Event>, pending: seq<Manifest>,
      error: Option<Error>) {
    && |events| <= |objs|
    && (forall i :: 0 <= i < |events| ==> ReadsIn(mode, events[i]) && events[i].manifest == objs[i])
    && BrokenOnlyLast(mode, events)
    && if error.Some? then EndsBroken(mode, events) && error.value == Found(mode, events[|events| - 1]).error
       else !EndsBroken(mode, events) && |events| == |objs| && pending == WaitingOf(mode, events)
  }

  /** The objects whose reads left them waiting. */
  ghost function WaitingOf(mode: Mode, events: seq<Event>): seq<Manifest>
    requires forall i :: 0 <= i < |events| ==> ReadsIn(mode, events[i])
  {
    if events == [] then []
    else
      var n := |events| - 1;
      WaitingOf(mode, events[..n]) + if Found(mode, events[n]) == Waiting then [events[n].manifest] else []
  }

  /** A pass partway: every read so far in order, none of them broken. */
  ghost predicate Passing(mode: Mode, objs: seq<Manifest>, events: seq<Event>, pending: seq<Manifest>) {
    && |events| <= |objs|
    && (forall i :: 0 <= i < |events| ==> ReadsIn(mode, events[i]) && events[i].manifest == objs[i])
    && (forall i :: 0 <= i < |events| ==> !Found(mode, events[i]).Broken?)
    && pending == WaitingOf(mode, events)
  }

  lemma PassStarts(mode: Mode, objs: seq<Manifest>)
    ensures Passing(mode, objs, [], [])
  {
  }

  lemma PassStep(mode: Mode, objs: seq<Manifest>, events: seq<Event>, pending: seq<Manifest>, e: Event)
    requires Passing(mode, objs, events, pending) && |events| < |objs|
    requires ReadsIn(mode, e) && e.manifest == objs[|events|]
    ensures Found(mode, e).Settled? ==> Passing(mode, objs, events + [e], pending)
    ensures Found(mode, e).Waiting? ==> Passing(mode, objs, events + [e], pending + [e.manifest])
    ensures Found(mode, e).Broken? ==> PassRun(mode, objs, events + [e], [], Some(Found(mode, e).error))
  {
    hide Found;
    assert (events + [e])[..|events|] == events;
  }

  lemma PassEnds(mode: Mode, objs: seq<Manifest>, events: seq<Event>, pending: seq<Manifest>)
    requires Passing(mode, objs, events, pending) && |events| == |objs|
    ensures PassRun(mode, objs, events, pending, None)
  {
    hide Found, WaitingOf;
  }

  // ---------- subsequences ----------

  lemma {:induction false} SubsequenceRefl(a: seq<Manifest>)
    ensures Subsequence(a, a)
  {
    if a != [] { SubsequenceRefl(a[..|a| - 1]); }
  }

  lemma {:induction false} SubsequenceInit(a: seq<Manifest>, b: seq<Manifest>)
    requires a != [] && Subsequence(a, b)
    ensures Subsequence(a[..|a| - 1], b)
    decreases |b|
  {
    var a', b' := a[..|a| - 1], b[..|b| - 1];
    if a[|a| - 1] == b[|b| - 1] {
      if a' != [] && a'[|a'| - 1] == b[|b| - 1] {
        SubsequenceInit(a', b');
      }
    } else {
      SubsequenceInit(a, b');
      if a' != [] && a'[|a'| - 1] == b[|b| - 1] {
        SubsequenceInit(a', b');
      }
    }
  }

  lemma {:induction false} SubsequenceTrans(a: seq<Manifest>, b: seq<Manifest>, c: seq<Manifest>)
    requires Subsequence(a, b) && Subsequence(b, c)
    ensures Subsequence(a, c)
    decreases |c|
  {
    if a != [] {
      var a', b', c' := a[..|a| - 1], b[..|b| - 1], c[..|c| - 1];
      if b[|b| - 1] == c[|c| - 1] {
        if a[|a| - 1] == b[|b| - 1] {
          SubsequenceTrans(a', b', c');
        } else {
          SubsequenceTrans(a, b', c');
        }
      } else {
        SubsequenceTrans(a, b, c');
        if a[|a| - 1] == c[|c| - 1] {
          SubsequenceInit(a, c');
        }
      }
    }
  }

  lemma {:induction false} SubsequenceMembers(a: seq<Manifest>, b: seq<Manifest>)
    requires Subsequence(a, b)
    ensures forall m <- a :: m in b
    decreases |b|
  {
    if a != [] {
      assert b == b[..|b| - 1] + [b[|b| - 1]];
      if a[|a| - 1] == b[|b| - 1] {
        SubsequenceMembers(a[..|a| - 1], b[..|b| - 1]);
        assert a == a[..|a| - 1] + [a[|a| - 1]];
      } else {
        SubsequenceMembers(a, b[..|b| - 1]);
      }
    }
  }

  lemma {:induction false} SubsequenceSkip(a: seq<Manifest>, b: seq<Manifest>, m: Manifest)
    requires Subsequence(a, b)
    ensures Subsequence(a, b + [m]) && Subsequence(a + [m], b + [m])
  {
    assert (b + [m])[..|b|] == b && (a + [m])[..|a|] == a;
    if a != [] && a[|a| - 1] == m {
      SubsequenceInit(a, b);
    }
  }

  // ---------- passes ----------

  /** A complete pass leaves waiting a subsequence of what it polled, and settles the rest. */
  lemma {:induction false} PassLeaves(mode: Mode, objs: seq<Manifest>, events: seq<Event>)
    requires |events| == |objs|
    requires forall i :: 0 <= i < |events| ==> ReadsIn(mode, events[i]) && events[i].manifest == objs[i]
    requires forall i :: 0 <= i < |events| ==> !Found(mode, events[i]).Broken?
    ensures Subsequence(WaitingOf(mode, events), objs)
    ensures forall m <- WaitingOf(mode, events) :: WaitingIn(mode, m, events)
    ensures forall m <- objs :: m in WaitingOf(mode, events) || SettledIn(mode, m, events)
  {
    WaitingIsSubsequence(mode, objs, events);
    WaitingMembers(mode, events);
    forall m <- objs ensures m in WaitingOf(mode, events) || SettledIn(mode, m, events) {
      var i :| 0 <= i < |objs| && objs[i] == m;
      if Found(mode, events[i]) == Settled {
        assert SettledIn(mode, m, events);
      } else {
        assert WaitingIn(mode, m, events);
      }
    }
  }

  lemma {:induction false} WaitingIsSubsequence(mode: Mode, objs: seq<Manifest>, events: seq<Event>)
    requires |events| == |objs|
    requires forall i :: 0 <= i < |events| ==> ReadsIn(mode, events[i]) && events[i].manifest == objs[i]
    ensures Subsequence(WaitingOf(mode, events), objs)
  {
    if events != [] {
      var n := |events| - 1;
      var earlier := WaitingOf(mode, events[..n]);
      assert objs == objs[..n] + [objs[n]];
      assert WaitingOf(mode, events) == earlier + if Found(mode, events[n]) == Waiting then [objs[n]] else [];
      assert earlier + [] == earlier;
      WaitingIsSubsequence(mode, objs[..n], events[..n]);
      hide WaitingOf, Subsequence, Found;
      SubsequenceSkip(earlier, objs[..n], objs[n]);
    }
  }

  lemma {:induction false} WaitingMembers(mode: Mode, events: seq<Event>)
    requires forall i :: 0 <= i < |events| ==> ReadsIn(mode, events[i])
    ensures forall m :: m in WaitingOf(mode, events) <==> WaitingIn(mode, m, events)
  {
    if events != [] {
      var n := |events| - 1;
      WaitingMembers(mode, events[..n]);
      forall m ensures m in WaitingOf(mode, events) <==> WaitingIn(mode, m, events) {
        WaitingLast(mode, m, events);
      }
    }
  }

  lemma {:induction false} WaitingLast(mode: Mode, m: Manifest, events: seq<Event>)
    requires events != [] && ReadsIn(mode, events[|events| - 1])
    ensures var n := |events| - 1;
            WaitingIn(mode, m, events) <==>
            WaitingIn(mode, m, events[..n]) || (events[n].manifest == m && Found(mode, events[n]) == Waiting)
  {
    var n := |events| - 1;
    if WaitingIn(mode, m, events[..n]) {
      SeenLater(mode, events[..n], events);
    }
    if WaitingIn(mode, m, events) {
      var i :| 0 <= i < |events| && ReadsIn(mode, events[i]) && events[i].manifest == m
          && Found(mode, events[i]) == Waiting;
      assert i < n ==> events[..n][i] == events[i];
    }
  }

  lemma SeenLater(mode: Mode, earlier: seq<Event>, later: seq<Event>)
    requires earlier <= later
    ensures forall m :: SettledIn(mode, m, earlier) ==> SettledIn(mode, m, later)
    ensures forall m :: WaitingIn(mode, m, earlier) ==> WaitingIn(mode, m, later)
  {
    forall m | SettledIn(mode, m, earlier) ensures SettledIn(mode, m, later) {
      var i :| 0 <= i < |earlier| && ReadsIn(mode, earlier[i]) && earlier[i].manifest == m
          && Found(mode, earlier[i]) == Settled;
      assert later[i] == earlier[i];
    }
    forall m | WaitingIn(mode, m, earlier) ensures WaitingIn(mode, m, later) {
      var i :| 0 <= i < |earlier| && ReadsIn(mode, earlier[i]) && earlier[i].manifest == m
          && Found(mode, earlier[i]) == Waiting;
      assert later[i] == earlier[i];
    }
  }

  lemma SeenInPart(mode: Mode, part: seq<Event>, before: seq<Event>)
    ensures forall m :: SettledIn(mode, m, part) ==> SettledIn(mode, m, before + part)
    ensures forall m :: WaitingIn(mode, m, part) ==> WaitingIn(mode, m, before + part)
  {
    var all := before + part;
    forall m | SettledIn(mode, m, part) ensures SettledIn(mode, m, all) {
      var i :| 0 <= i < |part| && ReadsIn(mode, part[i]) && part[i].manifest == m && Found(mode, part[i]) == Settled;
      assert all[|before| + i] == part[i];
    }
    forall m | WaitingIn(mode, m, part) ensures WaitingIn(mode, m, all) {
      var i :| 0 <= i < |part| && ReadsIn(mode, part[i]) && part[i].manifest == m && Found(mode, part[i]) == Waiting;
      assert all[|before| + i] == part[i];
    }
  }

  // ---------- the state of a wait between passes ----------

  /** So far: only unbroken reads; what is pending is a subsequence, the rest has settled. */
  ghost predicate WaitSoFar(mode: Mode, objs: seq<Manifest>, events: seq<Event>, pending: seq<Manifest>, polled: bool) {
    && OnlyReads(mode, objs, events)
    && (forall i :: 0 <= i < |events| ==> !Found(mode, events[i]).Broken?)
    && Subsequence(pending, objs)
    && (forall m <- objs :: m in pending || SettledIn(mode, m, events))
    && (polled ==> forall m <- pending :: WaitingIn(mode, m, events))
  }

  lemma WaitStarts(mode: Mode, objs: seq<Manifest>)
    ensures WaitSoFar(mode, objs, [], objs, false)
  {
    SubsequenceRefl(objs);
  }

  lemma PassAdvances(mode: Mode, objs: seq<Manifest>, events: seq<Event>, pending: seq<Manifest>, polled: bool,
      pass: seq<Event>, remaining: seq<Manifest>)
    requires WaitSoFar(mode, objs, events, pending, polled)
    requires PassRun(mode, pending, pass, remaining, None)
    ensures WaitSoFar(mode, objs, events + pass, remaining, true)
    ensures Subsequence(remaining, pending)
  {
    forall i | 0 <= i < |pass| ensures !Found(mode, pass[i]).Broken? {
      assert i < |pass| - 1 || !EndsBroken(mode, pass);
    }
    PassLeaves(mode, pending, pass);
    SubsequenceTrans(remaining, pending, objs);
    SubsequenceMembers(pending, objs);
    SeenLater(mode, events, events + pass);
    SeenInPart(mode, pass, events);
    forall i | 0 <= i < |events + pass|
      ensures ReadsIn(mode, (events + pass)[i]) && (events + pass)[i].manifest in objs
      ensures !Found(mode, (events + pass)[i]).Broken?
    {
      if i < |events| {
        assert (events + pass)[i] == events[i];
      } else {
        assert (events + pass)[i] == pass[i - |events|];
      }
    }
  }

  lemma PassBreaks(mode: Mode, objs: seq<Manifest>, events: seq<Event>, pending: seq<Manifest>, polled: bool,
      pass: seq<Event>, error: Error, done: bool)
    requires WaitSoFar(mode, objs, events, pending, polled)
    requires PassRun(mode, pending, pass, [], Some(error))
    ensures WaitRun(mode, objs, events + pass, Some(error), done)
  {
    SubsequenceMembers(pending, objs);
    var all := events + pass;
    assert all[|all| - 1] == pass[|pass| - 1];
    forall i | 0 <= i < |all|
      ensures ReadsIn(mode, all[i]) && all[i].manifest in objs
      ensures Found(mode, all[i]).Broken? ==> i == |all| - 1
    {
      if i < |events| {
        assert all[i] == events[i];
      } else {
        assert all[i] == pass[i - |events|];
      }
    }
  }

  lemma WaitSettles(mode: Mode, objs: seq<Manifest>, events: seq<Event>, polled: bool, done: bool)
    requires WaitSoFar(mode, objs, events, [], polled)
    ensures WaitRun(mode, objs, events, None, done)
  {
  }

  lemma WaitTimesOut(mode: Mode, objs: seq<Manifest>, events: seq<Event>, pending: seq<Manifest>)
    requires WaitSoFar(mode, objs, events, pending, true) && pending != []
    ensures WaitRun(mode, objs, events, Some(Error(Some(TimeoutCode(mode)), ContextDone, pending)), true)
  {
  }

  // ---------- the code ----------

  /** terminalPollError: coded once, never again. */
  function Terminal(error: Error): Error {
    if error.code.Some? then error else error.(code := Some(PollFailed))
  }

  lemma TerminalIsReported()
    ensures forall error :: Terminal(error) == Reported(error) && Terminal(error).code.Some?
  {
  }

  /** transientPollReason: kinds not served yet and objects not created yet. */
  predicate Transient(error: Error) {
    error.cause == NoMatch || error.cause == NotFound
  }

  const CONTEXT_ERROR := Error(None, ContextDone, [])

  /** newWaitError: a coded cause passes through, anything else is this wait's timeout. */
  function NewWaitError(pending: seq<Manifest>, cause: Error): Error {
    if cause.code.Some? then cause else Error(Some(WaitTimeout), cause.cause, pending)
  }

  function NewReconcileWaitError(pending: seq<Manifest>, cause: Error): Error {
    if cause.code.Some? then cause else Error(Some(ReconcileTimeout), cause.cause, pending)
  }

  /** A context that ends inside a live read reaches the wait as that read's error, which carries no
      code yet: it is coded a poll failure, not a timeout, done context or not. */
  lemma ContextInReadIsAPollFailure(mode: Mode, objs: seq<Manifest>, events: seq<Event>, error: Option<Error>,
      done: bool, i: nat)
    requires WaitRun(mode, objs, events, error, done)
    requires i < |events| && events[i].reply == Missed(CONTEXT_ERROR)
    ensures error == Some(Error(Some(PollFailed), ContextDone, []))
    ensures error.value.code != Some(TimeoutCode(mode))
  {
    assert Found(mode, events[i]) == Broken(Reported(CONTEXT_ERROR));
  }

  /** The smallest such wait, under a judgment: one object, one read, the context done. */
  lemma OneReadCutShort(judge: Judge, m: Manifest)
    ensures WaitRun(Judged(judge), [m], [Lived(m, Missed(CONTEXT_ERROR))],
                    Some(Error(Some(PollFailed), ContextDone, [])), true)
  {
    var events := [Lived(m, Missed(CONTEXT_ERROR))];
    assert Found(Judged(judge), events[0]) == Broken(Reported(CONTEXT_ERROR));
  }

  datatype Readiness = IsReady(ready: bool) | ReadFailed(error: Error)

  /** ready: an object not created yet is simply not ready. */
  method ReadReady(k: API, obj: Manifest) returns (r: Readiness)
    modifies k
    ensures |k.trace| == |old(k.trace)| + 1 && old(k.trace) <= k.trace
    ensures var e := k.trace[|old(k.trace)|];
            && e.Got? && e.manifest == obj
            && Found(Kinds, e) == match r { case IsReady(b) => (if b then Settled else Waiting)
                                            case ReadFailed(err) => Broken(Reported(err)) }
    ensures r == IsReady(true) <==>
              && k.trace[|old(k.trace)|].reply.Alive?
              && IsUp(obj.ref.kind, k.trace[|old(k.trace)|].reply.live)
  {
    var reply := k.Get(obj);
    match reply
    case Missed(error) =>
      if error.cause == NotFound {
        return IsReady(false);
      }
      return ReadFailed(error);
    case Alive(live) =>
      KindReadyIs(obj.ref.kind, live);
      return IsReady(KindReady(obj.ref.kind, live));
  }

  method CheckReady(k: API, objs: seq<Manifest>) returns (pending: seq<Manifest>, error: Option<Error>)
    modifies k
    ensures old(k.trace) <= k.trace
    ensures PassRun(Kinds, objs, k.trace[|old(k.trace)|..], pending, error)
    ensures error.Some? ==> pending == []
    ensures error.Some? ==> error.value.code.Some?
  {
    hide Passing, PassRun, Found, Terminal, Reported, IsUp;
    ghost var events: seq<Event> := [];
    pending := [];
    PassStarts(Kinds, objs);
    for i := 0 to |objs|
      invariant k.trace == old(k.trace) + events && |events| == i
      invariant Passing(Kinds, objs, events, pending)
    {
      var readiness := ReadReady(k, objs[i]);
      ghost var event := k.trace[|k.trace| - 1];
      PassStep(Kinds, objs, events, pending, event);
      TerminalIsReported();
      events := events + [event];
      assert k.trace == old(k.trace) + events;
      assert k.trace[|old(k.trace)|..] == events;
      if readiness.ReadFailed? {
        return [], Some(Terminal(readiness.error));
      }
      if !readiness.ready {
        pending := pending + [objs[i]];
      }
    }
    assert k.trace[|old(k.trace)|..] == events;
    PassEnds(Kinds, objs, events, pending);
    return pending, None;
  }

  /** waitReady: PollUntilContextCancel over the kind-set, the first pass at once. */
  method WaitReady(k: API, objs: seq<Manifest>) returns (error: Option<Error>)
    modifies k
    ensures old(k.trace) <= k.trace
    ensures WaitRun(Kinds, KindSet(objs), k.trace[|old(k.trace)|..], error, k.Done())
  {
    hide WaitSoFar, WaitRun, Awaited, KindSet;
    ghost var start := k.trace;
    ghost var events: seq<Event> := [];
    var pending := FilterKindSet(objs);
    ghost var declared := pending;
    var polled := false;
    WaitStarts(Kinds, declared);
    while true
      invariant k.trace == start + events
      invariant WaitSoFar(Kinds, declared, events, pending, polled)
      invariant polled ==> pending != []
      decreases !polled, k.world.deadline - |k.trace|
    {
      if polled && k.Done() {
        WaitTimesOut(Kinds, declared, events, pending);
        assert k.trace[|start|..] == events;
        return Some(NewWaitError(pending, CONTEXT_ERROR));
      }
      label Pass:
      var remaining, broken := CheckReady(k, pending);
      ghost var pass := k.trace[|old@Pass(k.trace)|..];
      assert k.trace == start + (events + pass);
      assert k.trace[|start|..] == events + pass;
      if broken.Some? {
        PassBreaks(Kinds, declared, events, pending, polled, pass, broken.value, k.Done());
        return Some(NewWaitError(pending, broken.value));
      }
      PassAdvances(Kinds, declared, events, pending, polled, pass, remaining);
      pending, polled := remaining, true;
      events := events + pass;
      if pending == [] {
        WaitSettles(Kinds, declared, events, true, k.Done());
        return None;
      }
    }
  }

  method CheckReconciled(k: API, objs: seq<Manifest>, judge: Judge)
    returns (pending: seq<Manifest>, error: Option<Error>)
    modifies k
    ensures old(k.trace) <= k.trace
    ensures PassRun(Judged(judge), objs, k.trace[|old(k.trace)|..], pending, error)
    ensures error.Some? ==> pending == []
    ensures error.Some? ==> error.value.code.Some?
  {
    hide Passing, PassRun;
    ghost var mode := Judged(judge);
    ghost var events: seq<Event> := [];
    pending := [];
    PassStarts(mode, objs);
    for i := 0 to |objs|
      invariant k.trace == old(k.trace) + events && |events| == i
      invariant Passing(mode, objs, events, pending)
    {
      var reply := k.LiveOf(objs[i]);
      PassStep(mode, objs, events, pending, Lived(objs[i], reply));
      events := events + [Lived(objs[i], reply)];
      assert k.trace == old(k.trace) + events;
      assert k.trace[|old(k.trace)|..] == events;
      match reply
      case Missed(err) =>
        if !Transient(err) {
          return [], Some(Terminal(err));
        }
        pending := pending + [objs[i]];
      case Alive(live) =>
        match judge(live)
        case Unjudged(err) =>
          return [], Some(Terminal(err));
        case NotYet(_) =>
          pending := pending + [objs[i]];
        case Reconciled =>
    }
    assert k.trace[|old(k.trace)|..] == events;
    PassEnds(mode, objs, events, pending);
    return pending, None;
  }

  /** waitReconciled: nothing to judge with, or nothing to judge, is no wait at all. */
  method WaitReconciled(k: API, objs: seq<Manifest>, judge: Option<Judge>) returns (error: Option<Error>)
    modifies k
    ensures old(k.trace) <= k.trace
    ensures judge.None? || objs == [] ==> error.None? && k.trace == old(k.trace)
    ensures judge.Some? ==> WaitRun(Judged(judge.value), objs, k.trace[|old(k.trace)|..], error, k.Done())
  {
    hide WaitSoFar, WaitRun;
    if judge.None? || objs == [] {
      if judge.Some? {
        WaitStarts(Judged(judge.value), []);
        WaitSettles(Judged(judge.value), [], [], false, k.Done());
        assert k.trace[|old(k.trace)|..] == [];
      }
      return None;
    }
    ghost var mode := Judged(judge.value);
    ghost var start := k.trace;
    ghost var events: seq<Event> := [];
    var pending := objs;
    var polled := false;
    WaitStarts(mode, objs);
    while true
      invariant k.trace == start + events
      invariant WaitSoFar(mode, objs, events, pending, polled)
      invariant polled ==> pending != []
      decreases !polled, k.world.deadline - |k.trace|
    {
      if polled && k.Done() {
        WaitTimesOut(mode, objs, events, pending);
        assert k.trace[|start|..] == events;
        return Some(NewReconcileWaitError(pending, CONTEXT_ERROR));
      }
      label Pass:
      var remaining, broken := CheckReconciled(k, pending, judge.value);
      ghost var pass := k.trace[|old@Pass(k.trace)|..];
      assert k.trace == start + (events + pass);
      assert k.trace[|start|..] == events + pass;
      if broken.Some? {
        PassBreaks(mode, objs, events, pending, polled, pass, broken.value, k.Done());
        return Some(NewReconcileWaitError(pending, broken.value));
      }
      PassAdvances(mode, objs, events, pending, polled, pass, remaining);
      pending, polled := remaining, true;
      events := events + pass;
      if pending == [] {
        WaitSettles(mode, objs, events, true, k.Done());
        return None;
      }
    }
  }
}
