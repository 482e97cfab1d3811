/** What the protocol does to a well-formed Corefile: from one default server block with
    disjoint intact marker regions below it, and foreign writers that leave those regions
    alone, every finished cube's block is there once and every plain line is intact. */
module SpliceSafety {
  import opened Text
  import opened Corefile
  import opened CorefileLaws
  import opened CorefileDoc
  import opened SpliceClient
  import opened SpliceProtocol

  // ---------- the document of a ConfigMap ----------

  ghost predicate IsDocOf(doc: Doc, cm: ConfigMap, cubes: set<string>) {
    && cm.corefile.Str?
    && WellFormed(doc, cubes)
    && Lines(doc) == Split(cm.corefile.text, '\n')
  }

  ghost predicate HasDoc(cm: ConfigMap, cubes: set<string>) {
    exists doc :: IsDocOf(doc, cm, cubes)
  }

  ghost function DocOf(cm: ConfigMap, cubes: set<string>): (doc: Doc)
    requires HasDoc(cm, cubes)
    ensures IsDocOf(doc, cm, cubes)
  {
    var doc :| IsDocOf(doc, cm, cubes);
    doc
  }

  lemma TheDoc(doc: Doc, cm: ConfigMap, cubes: set<string>)
    requires IsDocOf(doc, cm, cubes)
    ensures HasDoc(cm, cubes) && DocOf(cm, cubes) == doc
  {
    DocIsUnique(doc, DocOf(cm, cubes), cubes);
  }

  /** The participants: valid names and domains, no two for one cube, all among `cubes`. */
  ghost predicate Participants(clients: seq<Client>, cubes: set<string>) {
    && (forall i :: 0 <= i < |clients| ==>
          && ValidCubeName(clients[i].cube) && ValidDomain(clients[i].domain)
          && clients[i].cube in cubes)
    && (forall i, j :: 0 <= i < j < |clients| ==> clients[i].cube != clients[j].cube)
  }

  /** A foreign write that leaves every cube's block, and the one opening line, in place. */
  ghost predicate LeavesBlocks(commit: Commit, cubes: set<string>) {
    && HasDoc(commit.before, cubes) && HasDoc(commit.after, cubes)
    && BlocksOf(DocOf(commit.after, cubes).items) == BlocksOf(DocOf(commit.before, cubes).items)
  }

  ghost predicate ForeignersBehave(log: seq<Commit>, cubes: set<string>) {
    forall k :: 0 <= k < |log| && log[k].writer == Foreign ==> LeavesBlocks(log[k], cubes)
  }

  // ---------- one splice ----------

  /** On a well-formed ConfigMap a client's write is always ready, updates its own block and
      leaves every plain line, every other block and the rest of the object as they were. */
  lemma PrepareUpdates(cm: ConfigMap, cube: string, domain: string, cubes: set<string>)
    requires HasDoc(cm, cubes) && cube in cubes
    requires ValidCubeName(cube) && ValidDomain(domain)
    ensures var p := Prepare(cm, cube, domain);
            && p.Ready?
            && p.obj.other == cm.other
            && HasDoc(p.obj, cubes)
            && PlainLines(DocOf(p.obj, cubes)) == PlainLines(DocOf(cm, cubes))
            && BlocksOf(DocOf(p.obj, cubes).items)
               == BlocksOf(DocOf(cm, cubes).items)[cube := RenderBlock(cube, domain)]
  {
    hide WellFormed, Lines, SpliceDoc, PlainLines, BlocksOf, RenderBlock, CubeBlock, Splices, Splice,
         ValidCubeName, ValidDomain;
    var doc, block := DocOf(cm, cubes), RenderBlock(cube, domain);
    RenderedIsCubeBlock(cube, domain);
    var doc' := SpliceDoc(doc, cube, block);
    SpliceRefinesDoc(doc, cubes, cube, block);
    SpliceDocUpdates(doc, cubes, cube, block);
    SplicedText(cm.corefile.text, cube, domain, Lines(doc'));
    TheDoc(doc', Prepare(cm, cube, domain).obj, cubes);
  }

  lemma SplicedText(text: string, cube: string, domain: string, out: seq<string>)
    requires ValidCubeName(cube) && ValidDomain(domain)
    requires Splices(Split(text, '\n'), cube, RenderBlock(cube, domain), out)
    ensures Splice(text, cube, domain).Spliced?
    ensures Split(Splice(text, cube, domain).text, '\n') == out
  {
    SpliceIsUnique(Split(text, '\n'), cube, RenderBlock(cube, domain));
    SplicedLines(text, cube, domain);
  }

  // ---------- the whole log ----------

  /** The blocks after the first k commits: each splicer's commit sets its own. */
  ghost function BlocksAfter(blocks: map<string, seq<string>>, log: seq<Commit>, clients: seq<Client>, k: nat)
    : map<string, seq<string>>
    requires k <= |log|
  {
    if k == 0 then blocks
    else
      var earlier := BlocksAfter(blocks, log, clients, k - 1);
      match log[k - 1].writer
      case Foreign => earlier
      case Splicer(i) =>
        if i < |clients| then earlier[clients[i].cube := RenderBlock(clients[i].cube, clients[i].domain)]
        else earlier
  }

  /** The object whose plain lines are current after k commits: the last foreign write, or the start. */
  ghost function LastForeign(log: seq<Commit>, start: ConfigMap, k: nat): ConfigMap
    requires k <= |log|
  {
    if k == 0 then start
    else if log[k - 1].writer == Foreign then log[k - 1].after
    else LastForeign(log, start, k - 1)
  }

  ghost predicate Sound(log: seq<Commit>, start: ConfigMap, clients: seq<Client>) {
    && (forall j :: 0 <= j < |log| ==> log[j].before == LiveBefore(log, start, j))
    && (forall j :: 0 <= j < |log| && log[j].writer.Splicer? ==> SplicerCommit(log[j], clients))
  }

  /** After k commits: plain lines and the rest of the object from the last foreign write, blocks
      from the splicers. */
  ghost predicate DocAt(log: seq<Commit>, start: ConfigMap, clients: seq<Client>, cubes: set<string>, k: nat)
    requires k <= |log|
    requires HasDoc(start, cubes)
  {
    var live, source := LiveBefore(log, start, k), LastForeign(log, start, k);
    && HasDoc(live, cubes) && HasDoc(source, cubes)
    && live.other == source.other
    && PlainLines(DocOf(live, cubes)) == PlainLines(DocOf(source, cubes))
    && BlocksOf(DocOf(live, cubes).items)
       == BlocksAfter(BlocksOf(DocOf(start, cubes).items), log, clients, k)
  }

  lemma {:induction false} DocAfterCommits(log: seq<Commit>, start: ConfigMap, clients: seq<Client>,
      cubes: set<string>, k: nat)
    requires k <= |log|
    requires Sound(log, start, clients) && Participants(clients, cubes)
    requires HasDoc(start, cubes) && ForeignersBehave(log, cubes)
    ensures DocAt(log, start, clients, cubes, k)
  {
    hide HasDoc, IsDocOf, SplicerCommit, LeavesBlocks, Participants, PlainLines, BlocksOf;
    if k > 0 {
      DocAfterCommits(log, start, clients, cubes, k - 1);
      if log[k - 1].writer == Foreign {
        DocAfterForeign(log, start, clients, cubes, k - 1);
      } else {
        DocAfterSplicer(log, start, clients, cubes, k - 1);
      }
    }
  }

  lemma {:induction false} DocAfterForeign(log: seq<Commit>, start: ConfigMap, clients: seq<Client>,
      cubes: set<string>, k: nat)
    requires k < |log| && log[k].writer == Foreign
    requires log[k].before == LiveBefore(log, start, k) && LeavesBlocks(log[k], cubes)
    requires HasDoc(start, cubes) && DocAt(log, start, clients, cubes, k)
    ensures DocAt(log, start, clients, cubes, k + 1)
  {
    hide HasDoc, IsDocOf, PlainLines, BlocksOf;
  }

  lemma {:induction false} DocAfterSplicer(log: seq<Commit>, start: ConfigMap, clients: seq<Client>,
      cubes: set<string>, k: nat)
    requires k < |log| && log[k].writer.Splicer?
    requires log[k].before == LiveBefore(log, start, k) && SplicerCommit(log[k], clients)
    requires Participants(clients, cubes)
    requires HasDoc(start, cubes) && DocAt(log, start, clients, cubes, k)
    ensures DocAt(log, start, clients, cubes, k + 1)
  {
    hide HasDoc, IsDocOf, PlainLines, BlocksOf, Prepare, RenderBlock, ValidCubeName, ValidDomain;
    var c := clients[log[k].writer.client];
    CommitUpdates(log[k], c.cube, c.domain, cubes);
  }

  lemma CommitUpdates(commit: Commit, cube: string, domain: string, cubes: set<string>)
    requires HasDoc(commit.before, cubes) && cube in cubes
    requires ValidCubeName(cube) && ValidDomain(domain)
    requires Prepare(commit.before, cube, domain) == Ready(commit.after)
    ensures commit.after.other == commit.before.other
    ensures HasDoc(commit.after, cubes)
    ensures PlainLines(DocOf(commit.after, cubes)) == PlainLines(DocOf(commit.before, cubes))
    ensures BlocksOf(DocOf(commit.after, cubes).items)
            == BlocksOf(DocOf(commit.before, cubes).items)[cube := RenderBlock(cube, domain)]
  {
    PrepareUpdates(commit.before, cube, domain, cubes);
  }

  lemma {:induction false} FinishedBlock(blocks: map<string, seq<string>>, log: seq<Commit>, clients: seq<Client>,
      cubes: set<string>, k: nat, i: nat)
    requires k <= |log| && i < |clients| && Participants(clients, cubes)
    ensures var c := clients[i]; var after := BlocksAfter(blocks, log, clients, k);
            if Committed(log[..k], i) then c.cube in after && after[c.cube] == RenderBlock(c.cube, c.domain)
            else (c.cube in after <==> c.cube in blocks) && (c.cube in blocks ==> after[c.cube] == blocks[c.cube])
  {
    if k > 0 {
      FinishedBlock(blocks, log, clients, cubes, k - 1, i);
      assert log[..k] == log[..k - 1] + [log[k - 1]];
      assert Committed(log[..k], i) <==> Committed(log[..k - 1], i) || log[k - 1].writer == Splicer(i) by {
        if Committed(log[..k - 1], i) {
          var n :| 0 <= n < k - 1 && log[..k - 1][n].writer == Splicer(i);
          assert log[..k][n].writer == Splicer(i);
        }
        if log[k - 1].writer == Splicer(i) {
          assert log[..k][k - 1].writer == Splicer(i);
        }
      }
    }
  }

  /** A block of the document is a region of the text. */
  lemma BlockOfDocInText(cm: ConfigMap, cubes: set<string>, cube: string)
    requires HasDoc(cm, cubes) && cube in BlocksOf(DocOf(cm, cubes).items)
    ensures exists b :: BlockAtLine(Split(cm.corefile.text, '\n'), cube, b, BlocksOf(DocOf(cm, cubes).items)[cube])
  {
    var doc := DocOf(cm, cubes);
    BlocksMembers(doc.items, cubes);
    var i: nat :| BlockAtItem(doc.items, cube, i) && doc.items[i].body == BlocksOf(doc.items)[cube];
    BlockInText(doc, cubes, cube, i);
  }

  // ---------- the theorem ----------

  ghost predicate Setting(run: seq<State>, k: nat, cubes: set<string>) {
    && IsRun(run) && k < |run|
    && Participants(run[0].clients, cubes)
    && HasDoc(run[0].live, cubes)
    && ForeignersBehave(run[k].log, cubes)
  }

  /** The clients as they were configured. */
  lemma SettingIsSound(run: seq<State>, k: nat, cubes: set<string>)
    requires Setting(run, k, cubes)
    ensures Sound(run[k].log, run[0].live, run[0].clients)
    ensures LiveBefore(run[k].log, run[0].live, |run[k].log|) == run[k].live
  {
    EveryCommitIsASplice(run, k);
    forall j | 0 <= j < |run[k].log| && run[k].log[j].writer.Splicer?
      ensures SplicerCommit(run[k].log[j], run[0].clients)
    {
      assert run[k].log[j].writer.client < |run[0].clients|;
    }
  }

  /** In every state of every run the Corefile is still one server block with one intact block a
      cube, and every line outside the blocks, and everything else in the object, is as the last
      foreign writer left it. */
  lemma ForeignLinesStay(run: seq<State>, k: nat, cubes: set<string>)
    requires Setting(run, k, cubes)
    ensures var s, source := run[k], LastForeign(run[k].log, run[0].live, |run[k].log|);
            && HasDoc(s.live, cubes) && HasDoc(source, cubes)
            && PlainLines(DocOf(s.live, cubes)) == PlainLines(DocOf(source, cubes))
            && s.live.other == source.other
  {
    SettingIsSound(run, k, cubes);
    DocAfterCommits(run[k].log, run[0].live, run[0].clients, cubes, |run[k].log|);
  }

  /** In every state of every run each finished client's block is in the text once, as rendered,
      and each unfinished client's block is what it was at the start. */
  lemma BlocksLand(run: seq<State>, k: nat, cubes: set<string>, i: nat)
    requires Setting(run, k, cubes)
    requires i < |run[k].clients|
    ensures HasDoc(run[k].live, cubes) && BlockAsExpected(run[k], run[0], cubes, i)
  {
    var s, start := run[k], run[0];
    SettingIsSound(run, k, cubes);
    DocAfterCommits(s.log, start.live, start.clients, cubes, |s.log|);
    RunKeepsInv(run, k);
    assert ClientInv(s, i);
    ExpectedBlock(s, start, cubes, i);
  }

  lemma ExpectedBlock(s: State, start: State, cubes: set<string>, i: nat)
    requires HasDoc(start.live, cubes) && DocAt(s.log, start.live, start.clients, cubes, |s.log|)
    requires LiveBefore(s.log, start.live, |s.log|) == s.live
    requires Participants(start.clients, cubes)
    requires |s.clients| == |start.clients| && i < |s.clients|
    requires s.clients[i].cube == start.clients[i].cube && s.clients[i].domain == start.clients[i].domain
    requires s.clients[i].phase == Done <==> Committed(s.log, i)
    ensures HasDoc(s.live, cubes) && BlockAsExpected(s, start, cubes, i)
  {
    hide IsDocOf, HasDoc, WellFormed, BlocksOf, PlainLines, RenderBlock, ValidCubeName, ValidDomain, Committed,
         BlockAtLine, BlocksAfter, LastForeign;
    assert s.log[..|s.log|] == s.log;
    FinishedBlock(BlocksOf(DocOf(start.live, cubes).items), s.log, start.clients, cubes, |s.log|, i);
    if s.clients[i].phase == Done {
      BlockOfDocInText(s.live, cubes, s.clients[i].cube);
    }
  }

  ghost predicate BlockAsExpected(s: State, start: State, cubes: set<string>, i: nat)
    requires i < |s.clients|
    requires HasDoc(s.live, cubes) && HasDoc(start.live, cubes)
  {
    var c := s.clients[i];
    var now, was := BlocksOf(DocOf(s.live, cubes).items), BlocksOf(DocOf(start.live, cubes).items);
    if c.phase == Done then
      && c.cube in now && now[c.cube] == RenderBlock(c.cube, c.domain)
      && exists b :: BlockAtLine(Split(s.live.corefile.text, '\n'), c.cube, b, now[c.cube])
    else
      (c.cube in now <==> c.cube in was) && (c.cube in was ==> now[c.cube] == was[c.cube])
  }

  lemma AllStartReading(run: seq<State>, cubes: set<string>, i: nat)
    requires Setting(run, 0, cubes) && i < |run[0].clients|
    ensures run[0].clients[i].phase == Reading
  {
    hide HasDoc, Participants, Next;
  }

  lemma SettingBefore(run: seq<State>, k: nat, cubes: set<string>)
    requires Setting(run, k, cubes) && k > 0
    ensures k < |run| && Setting(run, k - 1, cubes)
    ensures Next(run[k - 1], run[k]) && |run[k - 1].clients| == |run[k].clients|
  {
    hide Next, HasDoc, LeavesBlocks, Participants;
    LogOnlyGrows(run, k - 1, k);
    assert forall n :: 0 <= n < |run[k - 1].log| ==> run[k - 1].log[n] == run[k].log[n];
    assert Next(run[k - 1], run[k - 1 + 1]);
    RunKeepsInv(run, k - 1);
    RunKeepsInv(run, k);
  }

  /** And no client is ever refused for the shape of the Corefile. */
  lemma {:induction false} NoStructuralFailure(run: seq<State>, k: nat, cubes: set<string>, i: nat)
    requires Setting(run, k, cubes) && i < |run[k].clients|
    ensures run[k].clients[i].phase !in {Failed(Structure), Failed(NotText)}
  {
    hide Setting, Next, Prepare;
    if k == 0 {
      AllStartReading(run, cubes, i);
    } else {
      SettingBefore(run, k, cubes);
      NoStructuralFailure(run, k - 1, cubes, i);
      AlwaysReady(run, k - 1, cubes, i);
      ReadyStep(run[k - 1], run[k], i);
    }
  }

  lemma AlwaysReady(run: seq<State>, k: nat, cubes: set<string>, i: nat)
    requires Setting(run, k, cubes) && i < |run[k].clients|
    ensures Prepare(run[k].live, run[k].clients[i].cube, run[k].clients[i].domain).Ready?
  {
    var s := run[k];
    RunKeepsInv(run, k);
    SettingIsSound(run, k, cubes);
    DocAfterCommits(s.log, run[0].live, run[0].clients, cubes, |s.log|);
    PrepareUpdates(s.live, s.clients[i].cube, s.clients[i].domain, cubes);
  }

  lemma ReadyStep(s: State, s': State, i: nat)
    requires Next(s, s') && i < |s.clients| == |s'.clients|
    requires Prepare(s.live, s.clients[i].cube, s.clients[i].domain).Ready?
    requires s.clients[i].phase !in {Failed(Structure), Failed(NotText)}
    ensures s'.clients[i].phase !in {Failed(Structure), Failed(NotText)}
  {
    hide Prepare, SplicerCommit, Committed;
  }
}
