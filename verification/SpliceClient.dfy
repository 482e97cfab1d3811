/** One client of the shared CoreDNS ConfigMap: the bounded read/splice/write-back loop,
    first as an automaton over the calls it makes, then as the code, run against a server
    that other writers change between any two calls. */
module SpliceClient {
  import opened Corefile

  const SPLICE_ATTEMPTS := 5

  /** The object's data.Corefile key. */
  datatype Field = Missing | Str(text: string) | NotString

  /** The live object: the Corefile and everything else it carries. */
  datatype ConfigMap = ConfigMap(corefile: Field, other: map<string, string>)

  datatype Failure = ReadFailed | NotText | Structure | WriteFailed | Conflicts

  datatype Prepared = Ready(obj: ConfigMap) | Refused(failure: Failure)

  datatype GetReply = Got(version: nat, obj: ConfigMap) | GetFailed

  datatype UpdateReply = Stored | Conflicted | UpdateFailed

  // ---------- the automaton ----------

  datatype Phase =
    | Reading
    | Writing(version: nat, obj: ConfigMap)
    | Done
    | Failed(failure: Failure)
    | OutOfTurn

  /** A client between calls; `lost` counts the writes it lost to a concurrent one. */
  datatype Client = Client(cube: string, domain: string, lost: nat, phase: Phase)

  /** What is spliced: a missing key reads as the empty text. */
  function TextOf(field: Field): string
    requires !field.NotString?
  {
    if field.Missing? then "" else field.text
  }

  /** The object a client writes back for the object it read. */
  ghost function Prepare(obj: ConfigMap, cube: string, domain: string): Prepared {
    if obj.corefile.NotString? then Refused(NotText)
    else
      match Splice(if obj.corefile.Missing? then "" else obj.corefile.text, cube, domain)
      case Spliced(text) => Ready(obj.(corefile := Str(text)))
      case StructureError => Refused(Structure)
  }

  ghost function AfterGet(c: Client, reply: GetReply): Client {
    match reply
    case GetFailed => c.(phase := Failed(ReadFailed))
    case Got(version, obj) =>
      match Prepare(obj, c.cube, c.domain)
      case Ready(obj') => c.(phase := Writing(version, obj'))
      case Refused(failure) => c.(phase := Failed(failure))
  }

  function AfterUpdate(c: Client, reply: UpdateReply): Client {
    match reply
    case Stored => c.(phase := Done)
    case UpdateFailed => c.(phase := Failed(WriteFailed))
    case Conflicted =>
      c.(lost := c.lost + 1,
         phase := if c.lost + 1 == SPLICE_ATTEMPTS then Failed(Conflicts) else Reading)
  }

  datatype Call = Get(got: GetReply) | Update(version: nat, obj: ConfigMap, reply: UpdateReply)

  /** A call made in any phase but its own, or of any other object than the prepared one, is out of turn. */
  ghost function AfterCall(c: Client, call: Call): Client {
    match call
    case Get(reply) =>
      if c.phase.Reading? then AfterGet(c, reply) else c.(phase := OutOfTurn)
    case Update(version, obj, reply) =>
      if c.phase == Writing(version, obj) then AfterUpdate(c, reply) else c.(phase := OutOfTurn)
  }

  ghost function Replay(c: Client, calls: seq<Call>): Client {
    if calls == [] then c
    else AfterCall(Replay(c, calls[..|calls| - 1]), calls[|calls| - 1])
  }

  function Fresh(cube: string, domain: string): Client {
    Client(cube, domain, 0, Reading)
  }

  lemma ReplayOneMore(c: Client, calls: seq<Call>, call: Call)
    ensures Replay(c, calls + [call]) == AfterCall(Replay(c, calls), call)
  {
    assert (calls + [call])[..|calls|] == calls;
  }

  /** How many of these calls lost a write to a concurrent one. */
  function Losses(calls: seq<Call>): nat {
    if calls == [] then 0
    else
      var last := calls[|calls| - 1];
      Losses(calls[..|calls| - 1]) + if last.Update? && last.reply == Conflicted then 1 else 0
  }

  /** A client whose calls were all in turn gave up over conflicts exactly when it lost five. */
  lemma {:induction false} GivesUpAtFive(cube: string, domain: string, calls: seq<Call>)
    requires !Replay(Fresh(cube, domain), calls).phase.OutOfTurn?
    ensures Replay(Fresh(cube, domain), calls).lost == Losses(calls) <= 5
    ensures Replay(Fresh(cube, domain), calls).phase == Failed(Conflicts) <==> Losses(calls) == 5
  {
    hide Splice;
    if calls != [] {
      GivesUpAtFive(cube, domain, calls[..|calls| - 1]);
    }
  }

  // ---------- the server ----------

  datatype Writer = Splicer(client: nat) | Foreign

  datatype Commit = Commit(writer: Writer, before: ConfigMap, after: ConfigMap)

  /** What happens between two calls: the objects others write, and whether the next call fails. */
  datatype Turn = Turn(writes: seq<ConfigMap>, fails: bool)

  /** From entry `from` on, every commit is someone else's. */
  ghost predicate ForeignSince(log: seq<Commit>, from: nat) {
    forall i :: from <= i < |log| ==> log[i].writer == Foreign
  }

  /** The ConfigMap resource, as one client sees it. Every turn is arbitrary. */
  class ConfigMaps {
    const turns: nat -> Turn
    var version: nat
    var obj: ConfigMap
    ghost var log: seq<Commit>
    ghost var calls: seq<Call>
    var turn: nat

    constructor (turns: nat -> Turn, version: nat, obj: ConfigMap)
      ensures this.turns == turns && this.version == version && this.obj == obj
      ensures log == [] && calls == [] && turn == 0
    {
      this.turns := turns;
      this.version, this.obj, this.turn := version, obj, 0;
      this.log, this.calls := [], [];
    }

    method Store(writer: Writer, obj': ConfigMap)
      modifies `version, `obj, `log
      ensures obj == obj' && version > old(version)
      ensures log == old(log) + [Commit(writer, old(obj), obj')]
    {
      log := log + [Commit(writer, obj, obj')];
      obj := obj';
      version := version + 1;
    }

    /** Others write; the version moves exactly when they did. */
    method Elsewhere() returns (fails: bool)
      modifies `version, `obj, `log, `turn
      ensures old(log) <= log && ForeignSince(log, |old(log)|)
      ensures log == old(log) ==> version == old(version) && obj == old(obj)
      ensures log != old(log) ==> version > old(version)
    {
      var now := turns(turn);
      turn := turn + 1;
      for i := 0 to |now.writes|
        invariant old(log) <= log && ForeignSince(log, |old(log)|)
        invariant log == old(log) ==> version == old(version) && obj == old(obj)
        invariant log != old(log) ==> version > old(version)
      {
        Store(Foreign, now.writes[i]);
      }
      return now.fails;
    }

    method GetObject() returns (reply: GetReply)
      modifies this
      ensures old(log) <= log && ForeignSince(log, |old(log)|)
      ensures reply == GetFailed || reply == Got(version, obj)
      ensures calls == old(calls) + [Get(reply)]
    {
      var fails := Elsewhere();
      reply := if fails then GetFailed else Got(version, obj);
      calls := calls + [Get(reply)];
    }

    /** Optimistic: the write is stored only under the version the read gave. */
    method UpdateObject(read: nat, obj': ConfigMap) returns (reply: UpdateReply)
      requires read <= version
      modifies this
      ensures old(log) <= log
      ensures calls == old(calls) + [Update(read, obj', reply)]
      ensures reply == Stored ==> obj == obj'
      ensures reply == Stored ==> log == old(log) + [Commit(Splicer(0), old(obj), obj')] && read == old(version)
      ensures reply != Stored ==> ForeignSince(log, |old(log)|)
      ensures reply == Conflicted && read == old(version) ==> |log| > |old(log)|
    {
      var fails := Elsewhere();
      if fails {
        reply := UpdateFailed;
      } else if read != version {
        reply := Conflicted;
      } else {
        Store(Splicer(0), obj');
        reply := Stored;
      }
      calls := calls + [Update(read, obj', reply)];
    }
  }

  // ---------- the code ----------

  datatype Read = ToWrite(version: nat, obj: ConfigMap) | NotSpliced(failure: Failure)

  /** splicedConfigMap: a fresh read carrying the spliced Corefile. */
  method SplicedConfigMap(cms: ConfigMaps, cube: string, domain: string) returns (r: Read)
    modifies cms
    ensures old(cms.log) <= cms.log && ForeignSince(cms.log, |old(cms.log)|)
    ensures |cms.calls| == |old(cms.calls)| + 1 && old(cms.calls) <= cms.calls
    ensures forall c: Client :: c.cube == cube && c.domain == domain && c.phase.Reading? ==>
              AfterCall(c, cms.calls[|old(cms.calls)|]) ==
              c.(phase := match r { case ToWrite(v, o) => Writing(v, o) case NotSpliced(f) => Failed(f) })
    ensures r.ToWrite? ==> r.version == cms.version && Prepare(cms.obj, cube, domain) == Ready(r.obj)
    ensures r.NotSpliced? ==> r.failure in {ReadFailed, NotText, Structure}
  {
    var reply := cms.GetObject();
    if reply.GetFailed? {
      return NotSpliced(ReadFailed);
    }
    var spliceable := reply.obj;
    if spliceable.corefile.NotString? {
      return NotSpliced(NotText);
    }
    var corefile := TextOf(spliceable.corefile);
    var spliced := CorefileSplice(corefile, cube, domain);
    if spliced.StructureError? {
      return NotSpliced(Structure);
    }
    spliceable := spliceable.(corefile := Str(spliced.text));
    return ToWrite(reply.version, spliceable);
  }

  lemma NothingSince(log: seq<Commit>)
    ensures ForeignSince(log, |log|)
  {
  }

  lemma NothingMade(c: Client)
    ensures Replay(c, []) == c
  {
  }

  lemma ForeignJoin(earlier: seq<Commit>, later: seq<Commit>, from: nat)
    requires from <= |earlier| && earlier <= later
    requires ForeignSince(earlier, from) && ForeignSince(later, |earlier|)
    ensures ForeignSince(later, from)
  {
    forall i | from <= i < |later| ensures later[i].writer == Foreign {
      assert i < |earlier| ==> later[i] == earlier[i];
    }
  }

  datatype Outcome = Success | Failure(failure: Failure)

  lemma OneMoreCall(c: Client, before: seq<Call>, made: seq<Call>, calls: seq<Call>) returns (made': seq<Call>)
    requires before + made <= calls && |calls| == |before| + |made| + 1
    ensures made' == calls[|before|..] && calls == before + made'
    ensures Replay(c, made') == AfterCall(Replay(c, made), calls[|before| + |made|])
  {
    var call := calls[|before| + |made|];
    made' := made + [call];
    assert calls == (before + made) + [call];
    ReplayOneMore(c, made, call);
  }

  /** spliceCoreDNS. Its calls are the automaton's, to the letter. A success is one write, the
      last thing in the log, and the object it stored is the splice of the object right before
      it; a failure wrote nothing; and giving up over conflicts means five writes by others. */
  method SpliceCoreDNS(cms: ConfigMaps, cube: string, domain: string) returns (r: Outcome)
    modifies cms
    ensures old(cms.calls) <= cms.calls && old(cms.log) <= cms.log
    ensures Replay(Fresh(cube, domain), cms.calls[|old(cms.calls)|..]).phase ==
            (if r.Success? then Done else Failed(r.failure))
    ensures r.Success? ==>
              && |cms.log| > |old(cms.log)|
              && ForeignSince(cms.log[..|cms.log| - 1], |old(cms.log)|)
              && var commit := cms.log[|cms.log| - 1];
              && commit.writer == Splicer(0) && commit.after == cms.obj
              && Prepare(commit.before, cube, domain) == Ready(commit.after)
    ensures r.Failure? ==> ForeignSince(cms.log, |old(cms.log)|)
    ensures r == Failure(Conflicts) <==> Losses(cms.calls[|old(cms.calls)|..]) == 5
    ensures Losses(cms.calls[|old(cms.calls)|..]) <= 5
    ensures r == Failure(Conflicts) ==> |cms.log| >= |old(cms.log)| + 5
  {
    hide Replay, Prepare, ForeignSince, AfterGet;
    ghost var calls0, log0 := cms.calls, cms.log;
    ghost var made: seq<Call> := [];
    NothingSince(log0);
    NothingMade(Fresh(cube, domain));
    for attempt := 0 to SPLICE_ATTEMPTS
      invariant cms.calls == calls0 + made
      invariant Replay(Fresh(cube, domain), made) ==
                Client(cube, domain, attempt, if attempt == SPLICE_ATTEMPTS then Failed(Conflicts) else Reading)
      invariant log0 <= cms.log && ForeignSince(cms.log, |log0|)
      invariant |cms.log| >= |log0| + attempt
    {
      ghost var log1 := cms.log;
      var read := SplicedConfigMap(cms, cube, domain);
      ForeignJoin(log1, cms.log, |log0|);
      made := OneMoreCall(Fresh(cube, domain), calls0, made, cms.calls);
      if read.NotSpliced? {
        GivesUpAtFive(cube, domain, made);
        return Failure(read.failure);
      }
      ghost var log2 := cms.log;
      var reply := cms.UpdateObject(read.version, read.obj);
      made := OneMoreCall(Fresh(cube, domain), calls0, made, cms.calls);
      if reply != Stored {
        ForeignJoin(log2, cms.log, |log0|);
      }
      if reply != Conflicted {
        GivesUpAtFive(cube, domain, made);
      }
      match reply
      case Stored =>
        assert cms.log[..|cms.log| - 1] == log2;
        return Success;
      case UpdateFailed =>
        return Failure(WriteFailed);
      case Conflicted =>
    }
    GivesUpAtFive(cube, domain, made);
    return Failure(Conflicts);
  }
}
