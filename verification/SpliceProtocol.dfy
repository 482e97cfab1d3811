/** Any number of splicers and foreign writers over one versioned ConfigMap, as a state
    machine whose steps are single calls. What holds of every run is proved here. */
module SpliceProtocol {
  import opened Corefile
  import opened SpliceClient
  import opened Finite

  /** History variables: the log's length at a client's first and at its latest read. */
  datatype Mark = Mark(since: nat, read: nat)

  datatype State = State(version: nat, live: ConfigMap, clients: seq<Client>,
                         log: seq<Commit>, marks: seq<Mark>)

  datatype Step = Read(client: nat) | Write(client: nat) | ForeignWrite

  ghost predicate Init(s: State) {
    && s.log == []
    && |s.marks| == |s.clients|
    && forall i :: 0 <= i < |s.clients| ==> s.clients[i] == Fresh(s.clients[i].cube, s.clients[i].domain)
  }

  /** The server stores an object. A write that changes nothing may keep the version. */
  ghost predicate Stores(s: State, s': State, writer: Writer, obj: ConfigMap) {
    && s'.live == obj
    && s'.log == s.log + [Commit(writer, s.live, obj)]
    && (s'.version > s.version || (s'.version == s.version && obj == s.live))
  }

  ghost predicate Untouched(s: State, s': State) {
    s'.version == s.version && s'.live == s.live && s'.log == s.log
  }

  ghost predicate ReadStep(s: State, s': State, i: nat) {
    && i < |s.clients| && i < |s.marks|
    && s.clients[i].phase.Reading?
    && Untouched(s, s')
    && (|| s'.clients == s.clients[i := AfterGet(s.clients[i], GetFailed)]
        || s'.clients == s.clients[i := AfterGet(s.clients[i], Got(s.version, s.live))])
    && var since := if s.clients[i].lost == 0 then |s.log| else s.marks[i].since;
       s'.marks == s.marks[i := Mark(since, |s.log|)]
  }

  ghost predicate WriteStep(s: State, s': State, i: nat) {
    && i < |s.clients|
    && s.clients[i].phase.Writing?
    && s'.marks == s.marks
    && (|| (&& Untouched(s, s')
            && s'.clients == s.clients[i := AfterUpdate(s.clients[i], UpdateFailed)])
        || (&& s.clients[i].phase.version != s.version
            && Untouched(s, s')
            && s'.clients == s.clients[i := AfterUpdate(s.clients[i], Conflicted)])
        || (&& s.clients[i].phase.version == s.version
            && Stores(s, s', Splicer(i), s.clients[i].phase.obj)
            && s'.clients == s.clients[i := AfterUpdate(s.clients[i], Stored)]))
  }

  ghost predicate ForeignStep(s: State, s': State) {
    Stores(s, s', Foreign, s'.live) && s'.clients == s.clients && s'.marks == s.marks
  }

  ghost predicate NextBy(s: State, s': State, step: Step) {
    match step
    case Read(i) => ReadStep(s, s', i)
    case Write(i) => WriteStep(s, s', i)
    case ForeignWrite => ForeignStep(s, s')
  }

  ghost predicate Next(s: State, s': State) {
    exists step :: NextBy(s, s', step)
  }

  ghost predicate IsRun(run: seq<State>) {
    && |run| > 0
    && Init(run[0])
    && forall k :: 0 <= k < |run| - 1 ==> Next(run[k], run[k + 1])
  }

  // ---------- the invariant ----------

  ghost predicate Committed(log: seq<Commit>, i: nat) {
    exists k :: 0 <= k < |log| && log[k].writer == Splicer(i)
  }

  /** Every commit continues the one before, and every splicer's commit is the splice of what
      it replaced; no client commits twice. */
  ghost predicate LogInv(log: seq<Commit>, start: ConfigMap, live: ConfigMap, clients: seq<Client>) {
    && (if log == [] then live == start else log[0].before == start && log[|log| - 1].after == live)
    && (forall k :: 0 <= k < |log| - 1 ==> log[k].after == log[k + 1].before)
    && (forall k :: 0 <= k < |log| && log[k].writer.Splicer? ==> SplicerCommit(log[k], clients))
    && (forall j, k :: 0 <= j < k < |log| && log[j].writer.Splicer? ==> log[j].writer != log[k].writer)
  }

  ghost predicate SplicerCommit(commit: Commit, clients: seq<Client>)
    requires commit.writer.Splicer?
  {
    var i := commit.writer.client;
    && i < |clients|
    && Prepare(commit.before, clients[i].cube, clients[i].domain) == Ready(commit.after)
  }

  ghost predicate ClientInv(s: State, i: nat)
    requires i < |s.clients| && i < |s.marks|
  {
    var c, mark := s.clients[i], s.marks[i];
    && (c.phase == Done <==> Committed(s.log, i))
    && (c.phase.Writing? ==>
          && c.phase.version <= s.version
          && (c.phase.version == s.version ==> Prepare(s.live, c.cube, c.domain) == Ready(c.phase.obj))
          && (c.phase.version != s.version ==> mark.read < |s.log|)
          && mark.since <= mark.read <= |s.log|
          && mark.since + c.lost <= mark.read)
    && (c.phase.Reading? && c.lost > 0 ==> mark.since + c.lost <= |s.log|)
    && (c.phase != Failed(Conflicts) ==> c.lost < SPLICE_ATTEMPTS)
    && (c.phase == Failed(Conflicts) ==>
          && c.lost == SPLICE_ATTEMPTS
          && mark.since + SPLICE_ATTEMPTS <= |s.log|)
    && !c.phase.OutOfTurn?
  }

  ghost predicate Inv(s: State, start: State) {
    && |s.marks| == |s.clients| == |start.clients|
    && (forall i :: 0 <= i < |s.clients| ==>
          s.clients[i].cube == start.clients[i].cube && s.clients[i].domain == start.clients[i].domain)
    && LogInv(s.log, start.live, s.live, s.clients)
    && (forall i :: 0 <= i < |s.clients| ==> ClientInv(s, i))
  }

  lemma InitInv(s: State)
    requires Init(s)
    ensures Inv(s, s)
  {
  }

  lemma ReadKeepsInv(s: State, s': State, i: nat, start: State)
    requires Inv(s, start) && ReadStep(s, s', i)
    ensures Inv(s', start)
  {
    hide Prepare, Committed;
    NeverRefusedForConflicts(s.live, s.clients[i].cube, s.clients[i].domain);
    forall j | 0 <= j < |s'.clients| ensures ClientInv(s', j) {
      assert ClientInv(s, j);
    }
  }

  lemma NeverRefusedForConflicts(obj: ConfigMap, cube: string, domain: string)
    ensures Prepare(obj, cube, domain) != Refused(Conflicts)
  {
  }

  lemma LogGrows(s: State, s': State, writer: Writer, obj: ConfigMap)
    requires Stores(s, s', writer, obj)
    ensures |s'.log| == |s.log| + 1
    ensures forall i :: Committed(s'.log, i) <==> Committed(s.log, i) || writer == Splicer(i)
  {
    forall i ensures Committed(s'.log, i) <==> Committed(s.log, i) || writer == Splicer(i) {
      if Committed(s.log, i) {
        var k :| 0 <= k < |s.log| && s.log[k].writer == Splicer(i);
        assert s'.log[k].writer == Splicer(i);
      }
      if writer == Splicer(i) {
        assert s'.log[|s.log|].writer == Splicer(i);
      }
    }
  }

  lemma WriteKeepsInv(s: State, s': State, i: nat, start: State)
    requires Inv(s, start) && WriteStep(s, s', i)
    ensures Inv(s', start)
  {
    hide Prepare, LogInv;
    assert ClientInv(s, i);
    if s'.clients[i].phase == Done {
      LogGrows(s, s', Splicer(i), s.clients[i].phase.obj);
      assert !Committed(s.log, i);
      StoredLogInv(s, s', Splicer(i), start);
    } else {
      UnstoredLogInv(s, s', start);
    }
    forall j | 0 <= j < |s'.clients| ensures ClientInv(s', j) {
      hide Committed;
      assert ClientInv(s, j);
    }
  }

  lemma UnstoredLogInv(s: State, s': State, start: State)
    requires LogInv(s.log, start.live, s.live, s.clients)
    requires s'.log == s.log && s'.live == s.live && |s'.clients| == |s.clients|
    requires forall j :: 0 <= j < |s.clients| ==>
               s'.clients[j].cube == s.clients[j].cube && s'.clients[j].domain == s.clients[j].domain
    ensures LogInv(s'.log, start.live, s'.live, s'.clients)
  {
    hide Prepare;
    forall k | 0 <= k < |s.log| && s.log[k].writer.Splicer? ensures SplicerCommit(s.log[k], s'.clients) {
      assert SplicerCommit(s.log[k], s.clients);
    }
  }

  lemma StoredLogInv(s: State, s': State, writer: Writer, start: State)
    requires LogInv(s.log, start.live, s.live, s.clients)
    requires Stores(s, s', writer, s'.live)
    requires writer.Splicer? ==>
               !Committed(s.log, writer.client) && SplicerCommit(Commit(writer, s.live, s'.live), s.clients)
    requires |s'.clients| == |s.clients|
    requires forall j :: 0 <= j < |s.clients| ==>
               s'.clients[j].cube == s.clients[j].cube && s'.clients[j].domain == s.clients[j].domain
    ensures LogInv(s'.log, start.live, s'.live, s'.clients)
  {
    forall k | 0 <= k < |s'.log| && s'.log[k].writer.Splicer?
      ensures SplicerCommit(s'.log[k], s'.clients)
    {
      if k < |s.log| {
        assert s'.log[k] == s.log[k] && SplicerCommit(s.log[k], s.clients);
      }
    }
    forall j, k | 0 <= j < k < |s'.log| && s'.log[j].writer.Splicer?
      ensures s'.log[j].writer != s'.log[k].writer
    {
      assert s'.log[j] == s.log[j];
      if k == |s.log| && writer.Splicer? {
        assert !Committed(s.log, writer.client);
      }
    }
  }

  lemma ForeignKeepsInv(s: State, s': State, start: State)
    requires Inv(s, start) && ForeignStep(s, s')
    ensures Inv(s', start)
  {
    LogGrows(s, s', Foreign, s'.live);
    StoredLogInv(s, s', Foreign, start);
    forall j | 0 <= j < |s'.clients| ensures ClientInv(s', j) {
      assert ClientInv(s, j);
    }
  }

  lemma NextKeepsInv(s: State, s': State, start: State)
    requires Inv(s, start) && Next(s, s')
    ensures Inv(s', start)
  {
    var step :| NextBy(s, s', step);
    match step
    case Read(i) => ReadKeepsInv(s, s', i, start);
    case Write(i) => WriteKeepsInv(s, s', i, start);
    case ForeignWrite => ForeignKeepsInv(s, s', start);
  }

  lemma {:induction false} RunKeepsInv(run: seq<State>, k: nat)
    requires IsRun(run) && k < |run|
    ensures Inv(run[k], run[0])
  {
    if k == 0 {
      InitInv(run[0]);
    } else {
      RunKeepsInv(run, k - 1);
      NextKeepsInv(run[k - 1], run[k], run[0]);
    }
  }

  // ---------- safety, whatever the others write ----------

  /** What the ConfigMap was just before log entry k. */
  function LiveBefore(log: seq<Commit>, start: ConfigMap, k: nat): ConfigMap
    requires k <= |log|
  {
    if k == 0 then start else log[k - 1].after
  }

  /** In every interleaving, with every foreign writer: the log is one unbroken history of the
      object; a splicer's entry is the splice of the very object it replaced, so no write is
      ever lost; a client has one entry if it succeeded and none if it did not. */
  lemma EveryCommitIsASplice(run: seq<State>, k: nat)
    requires IsRun(run) && k < |run|
    ensures var s, start := run[k], run[0];
            && LiveBefore(s.log, start.live, |s.log|) == s.live
            && (forall j :: 0 <= j < |s.log| ==> s.log[j].before == LiveBefore(s.log, start.live, j))
            && (forall j :: 0 <= j < |s.log| && s.log[j].writer.Splicer? ==>
                  var i := s.log[j].writer.client;
                  && i < |start.clients|
                  && Prepare(s.log[j].before, start.clients[i].cube, start.clients[i].domain) == Ready(s.log[j].after))
            && (forall i :: 0 <= i < |s.clients| ==> (s.clients[i].phase == Done <==> Committed(s.log, i)))
            && (forall j, j' :: 0 <= j < j' < |s.log| && s.log[j].writer.Splicer? ==>
                  s.log[j].writer != s.log[j'].writer)
  {
    RunKeepsInv(run, k);
    var s, start := run[k], run[0];
    forall j | 0 <= j < |s.log| ensures s.log[j].before == LiveBefore(s.log, start.live, j) {
      if j > 0 {
        assert s.log[j - 1].after == s.log[j - 1 + 1].before;
      }
    }
    forall j | 0 <= j < |s.log| && s.log[j].writer.Splicer?
      ensures var i := s.log[j].writer.client;
              && i < |start.clients|
              && Prepare(s.log[j].before, start.clients[i].cube, start.clients[i].domain) == Ready(s.log[j].after)
    {
      assert SplicerCommit(s.log[j], s.clients);
    }
    forall i | 0 <= i < |s.clients| ensures s.clients[i].phase == Done <==> Committed(s.log, i) {
      assert ClientInv(s, i);
    }
  }

  lemma {:induction false} LogOnlyGrows(run: seq<State>, j: nat, k: nat)
    requires IsRun(run) && j <= k < |run|
    ensures run[j].log <= run[k].log
  {
    if j < k {
      LogOnlyGrows(run, j, k - 1);
      assert Next(run[k - 1], run[k - 1 + 1]);
    }
  }

  // ---------- progress ----------

  /** Step j of the run is client i's first read, made when the log had `since` entries. */
  ghost predicate FirstRead(run: seq<State>, j: nat, i: nat, since: nat) {
    && j + 1 < |run|
    && i < |run[j].clients| && i < |run[j + 1].clients|
    && run[j].clients[i] == Fresh(run[j].clients[i].cube, run[j].clients[i].domain)
    && run[j + 1].clients[i] != run[j].clients[i]
    && |run[j].log| == since
  }

  /** Once a client has moved, its mark for the start of its calls stays. */
  lemma SinceStays(s: State, s': State, start: State, i: nat)
    requires Inv(s, start) && Next(s, s')
    requires i < |s.clients| && s.clients[i] != Fresh(s.clients[i].cube, s.clients[i].domain)
    ensures |s'.marks| == |s.marks| && s'.marks[i].since == s.marks[i].since
  {
    hide Prepare, Committed, LogInv, Stores;
    assert ClientInv(s, i);
  }

  /** And it is set when the client moves first, which it does by reading. */
  lemma SinceIsSet(s: State, s': State, i: nat)
    requires Next(s, s') && i < |s.clients| == |s.marks| && i < |s'.clients|
    requires s.clients[i] == Fresh(s.clients[i].cube, s.clients[i].domain) && s'.clients[i] != s.clients[i]
    ensures |s'.marks| == |s.marks| && s'.marks[i].since == |s.log|
  {
    hide Prepare, Stores;
  }

  lemma {:induction false} CallsStartAtFirstRead(run: seq<State>, k: nat, i: nat)
    requires IsRun(run) && k < |run|
    requires i < |run[k].clients| == |run[0].clients| == |run[k].marks|
    requires run[k].clients[i] != run[0].clients[i]
    ensures exists j: nat :: j < k && FirstRead(run, j, i, run[k].marks[i].since)
  {
    var s, s' := run[k - 1], run[k];
    RunKeepsInv(run, k - 1);
    assert Next(run[k - 1], run[k - 1 + 1]);
    assert run[0].clients[i] == Fresh(run[0].clients[i].cube, run[0].clients[i].domain);
    hide Next, LogInv, ClientInv, IsRun, Init;
    if s.clients[i] == run[0].clients[i] {
      SinceIsSet(s, s', i);
      assert FirstRead(run, k - 1, i, s'.marks[i].since);
    } else {
      hide FirstRead;
      SinceStays(s, s', run[0], i);
      CallsStartAtFirstRead(run, k - 1, i);
    }
  }

  /** In no run has a client lost more than five writes, and it has given up exactly when it has
      lost five. */
  lemma GivenUpAtFive(run: seq<State>, k: nat, i: nat)
    requires IsRun(run) && k < |run| && i < |run[k].clients|
    ensures run[k].clients[i].lost <= 5
    ensures run[k].clients[i].phase == Failed(Conflicts) <==> run[k].clients[i].lost == 5
  {
    RunKeepsInv(run, k);
    assert ClientInv(run[k], i);
  }

  /** Giving up over conflicts is always other writers' doing: between the client's first read
      and its last attempt they wrote at least five times, and it not once. */
  lemma ExhaustionCostsFiveWrites(run: seq<State>, k: nat, i: nat)
    requires IsRun(run) && k < |run|
    requires i < |run[k].clients| && run[k].clients[i].phase == Failed(Conflicts)
    ensures exists j: nat :: j < k && FirstRead(run, j, i, |run[j].log|)
              && |run[k].log| >= |run[j].log| + 5
              && forall n :: |run[j].log| <= n < |run[k].log| ==> run[k].log[n].writer != Splicer(i)
  {
    RunKeepsInv(run, k);
    assert ClientInv(run[k], i);
    assert !Committed(run[k].log, i);
    assert run[0].clients[i] == Fresh(run[0].clients[i].cube, run[0].clients[i].domain);
    CallsStartAtFirstRead(run, k, i);
  }

  /** Who wrote, when only splicers did: none twice, and never a client that has not finished. */
  lemma WritersDiffer(s: State, start: State, i: nat) returns (writers: seq<nat>)
    requires Inv(s, start) && i < |s.clients| && s.clients[i].phase != Done
    requires forall n :: 0 <= n < |s.log| ==> s.log[n].writer.Splicer?
    ensures |writers| == |s.log| && Distinct(writers)
    ensures forall n :: 0 <= n < |writers| ==> writers[n] < |s.clients| && writers[n] != i
  {
    hide Prepare;
    var log := s.log;
    assert ClientInv(s, i);
    writers := seq(|log|, n requires 0 <= n < |log| => log[n].writer.client);
    forall n | 0 <= n < |log| ensures writers[n] < |s.clients| && writers[n] != i {
      assert SplicerCommit(log[n], s.clients);
      assert !Committed(log, i);
    }
    forall n, m | 0 <= n < m < |log| ensures writers[n] != writers[m] {
      assert log[n].writer != log[m].writer;
    }
  }

  /** Up to five splicers, each running once and undisturbed by anyone else, never exhaust their
      attempts: every lost attempt is another one's commit, and each of them commits once. */
  lemma FiveSplicersAlwaysFinish(run: seq<State>, k: nat, i: nat)
    requires IsRun(run) && k < |run|
    requires |run[0].clients| <= 5
    requires forall n :: 0 <= n < |run[k].log| ==> run[k].log[n].writer.Splicer?
    requires i < |run[k].clients|
    ensures run[k].clients[i].phase != Failed(Conflicts)
  {
    if run[k].clients[i].phase == Failed(Conflicts) {
      hide IsRun, LogInv, Prepare, Committed, SplicerCommit;
      RunKeepsInv(run, k);
      assert ClientInv(run[k], i);
      var writers := WritersDiffer(run[k], run[0], i);
      FewWriters(writers, |run[k].clients|, i);
    }
  }

  lemma FewWriters(writers: seq<nat>, n: nat, i: nat)
    requires Distinct(writers) && i < n
    requires forall k :: 0 <= k < |writers| ==> writers[k] < n && writers[k] != i
    ensures |writers| < n
  {
    if |writers| >= n {
      Pigeonhole(writers, Below(n) - {i});
    }
  }
}
