# cube-idp, modelled and proved

cube-idp installs a GitOps engine into a Kubernetes cluster and renders the packs the engine
syncs. Most of what it does is pure or works through injected interfaces. This project models
the parts that carry an obligation beyond one function and proves the obligation: for every
input, every interleaving or every run, failing ones included.

| part | modules | what is proved |
|---|---|---|
| The Corefile splice | `Corefile`, `CorefileLaws`, `CorefileRule`, `CorefileDoc` | the line splice is specified by the region it may touch; its laws (idempotent, absorbing, preserving) hold on texts, through split and join; the spliced block reads back as the rule for its cube and domain; on well-formed Corefiles the splice refines the update of one block |
| The shared ConfigMap | `SpliceClient`, `SpliceProtocol`, `SpliceSafety` | the bounded read, splice and compare-and-swap loop; every interleaving of N splicers and foreign writers |
| Bootstrap | `Cluster`, `Inventory`, `Waits`, `Bootstrap`, `BootstrapSafety`, `BootstrapOrder` | the install sequence against a cluster whose every answer is arbitrary and may change with time |
| Dependency resolution | `Dependencies`, `InstallOrder` | Kahn's sort with mutable counts; success, optimality and the cycle report, each exactly |
| Values and substitution | `Json`, `MergePatch`, `Substitute` | RFC 7386, number normalisation, and a scanner against its grammar |
| Kubeconfig | `Kubeconfig` | installing a cube's entries and removing them again |
| Snapshot trees | `TreeFS`, `Digest` | a filesystem made up from a flat map; the manifest behind its digest |
| Keychain output | `Keychain` | a line parser inverts its printer |
| Plans | `Scopes`, `Plan` | namespaces, scope index, external manifests |

`Text`, `Ordering`, `Finite` and `Wrappers` hold strings, sorting, counting, and options and results. Code that changes state or
loops is a method here too, proved against a specification; the theorems are about the
specification. Maps are visited in arbitrary order wherever Go does. `dafny verify dfyconfig.toml`
checks everything.

Two shapes recur. In the bootstrap part a cluster is a function of time (`World`), the API keeps
a trace of everything asked of it, and each method's contract says how it extends the trace:
`EnginePlan` lists the stages, `Carried` says that some prefix of them was carried out up to the
first failure. In the protocol part the client is an automaton over its calls, the loop is proved
to make exactly the automaton's calls, and the state machine interleaves automata.

Assumed of inputs, because the document layer checks it: cube names match
`^[a-z0-9][a-z0-9-]{0,30}$` and domains are DNS names (`api/config/v1alpha1/validation.go`).

Where the code and what it says of itself differ, the code is modelled, and the difference is a
theorem:

- Another cube's block is preserved exactly when the splice does not write inside it
  (`CorefileLaws.ForeignBlockKept`): a block nested in another's is lost with it
  (`CorefileLaws.NestedBlockIsLost`).
- "Every inventory record precedes the apply it covers" is not true of the substrate, which is
  applied first (`BootstrapOrder.RecordPrecedesApplyIff`).
- The cycle report lists everything a cycle can be reached from, not only its members
  (`InstallOrder.ReportIsTheCycleIff`, `InstallOrder.DependentsAreReportedToo`).
- `Remove` is the exact reverse of `Merge` only on files that meet a condition, and never on an
  empty one (`Kubeconfig.ExactReverseIff`, `Kubeconfig.CurrentContextIsLost`).
- Attached manifests are judged by an index rebuilt from the rendered objects. It judges as the
  pack's own does for raw packs, and for kustomize packs exactly when the definitions, once
  expanded, declare the same of every kind that can be asked for (`Plan.KustomizeJudgesAlikeIff`);
  there is a pack where they do not (`Plan.SubstitutedScopeDiffers`).
- An object whose metadata is no mapping passes `applyNamespace` and stays in no namespace
  (`Scopes.InNamespaceIff`, `Scopes.StringMetadataPasses`); the accessors behave as those of
  k8s.io/apimachinery do.
- A context that ends inside a live read surfaces as that read's error, so it is coded as a poll
  failure and not as a timeout (`Waits.ContextInReadIsAPollFailure`, `Waits.OneReadCutShort`).

## Model

| member | source | states |
|---|---|---|
| Corefile.SpliceIsUnique | internal/gateway/corefile.go:20-58 | There is one way to splice a text, and a way exactly when it has either no markers and one `.:53` opening line, or one intact region below an opening line |
| Corefile.FindLines | internal/gateway/corefile.go:177-185 | The indexes of exactly the lines that trim to the wanted text, ascending |
| Corefile.FindMarkerRange | internal/gateway/corefile.go:86-108 | No block iff neither marker occurs; a range iff each marker occurs once, begin before end; everything else is corruption |
| Corefile.RequireServerBlockAbove | internal/gateway/corefile.go:124-133 | Accepts iff some opening line precedes the region |
| Corefile.DefaultServerLine | internal/gateway/corefile.go:143-174 | The one opening line, and a fault iff there is not exactly one |
| Corefile.CorefileSplice | internal/gateway/corefile.go:40-58 | The code computes the splice as specified by the region it may touch, and fails exactly when there is none |
| Text.JoinSplit | internal/gateway/corefile.go:190-196 | Splitting a text into lines and rejoining them gives the text back |
| Text.SplitJoin | internal/gateway/corefile.go:190-196 | Rejoining lines and splitting the text gives the lines back, so the rejoined splice reads as the lines it was made of |
| CorefileLaws.RenderedIsCubeBlock | internal/gateway/corefile.go:66-75 | A rendered block carries its cube's two markers at its ends, opens no server block and mentions no other cube |
| CorefileLaws.QuoteMetaInjective | internal/gateway/corefile.go:66-75 | Distinct domains are quoted to distinct patterns |
| CorefileLaws.SpliceAbsorbs | internal/gateway/corefile.go:40-58 | Splicing one domain and then another is splicing the second directly |
| CorefileLaws.SpliceIsIdempotent | internal/gateway/corefile.go:40-58 | Splicing again changes no byte |
| CorefileLaws.SuccessIgnoresDomain | internal/gateway/corefile.go:40-58 | Whether a splice succeeds does not depend on the domain, nor does anything outside the region |
| CorefileLaws.SplicePreserves | internal/gateway/corefile.go:40-58 | Through split and join: every line outside this cube's region survives in order, and the region is the rendered block, once, below an opening line |
| CorefileLaws.ForeignBlockKept | internal/gateway/corefile.go:20-58 | Another cube's intact region survives iff the written range stays clear of it: the exact condition for the documented promise |
| CorefileLaws.NestedBlockIsLost | internal/gateway/corefile.go:20-58 | A Corefile where one cube's block lies inside another's: the outer cube's splice succeeds, and no marker of the inner block is left |
| CorefileRule.OpeningLineIs | internal/gateway/corefile.go:143-174 | A line opens the default server block iff, trimmed, it is `.:53`, white space and a brace |
| CorefileRule.SplicedInPlace | internal/gateway/corefile.go:20-58 | The block goes right below the one opening line, or in the place of the old block; every other line stays around it, in place |
| CorefileRule.QuotedMatchesItself | internal/gateway/corefile.go:66-75 | The quoted domain, read as a pattern, matches the domain and no other text |
| CorefileRule.RuleLineRewrites | internal/gateway/corefile.go:66-75 | The rule line, read as CoreDNS reads it, rewrites exactly the names below the domain |
| CorefileRule.SplicedRule | internal/gateway/corefile.go:66-75 | Whatever the text, after a splice the cube's one region reads back, line by line, as the rule for this cube and this domain, and rewrites the names below the domain and nothing else |
| CorefileDoc.DocIsUnique | internal/gateway/corefile.go:20-58 | A text reads as at most one document of server block, plain lines and cube blocks |
| CorefileDoc.SpliceRefinesDoc | internal/gateway/corefile.go:40-58 | On such texts the line splice is the update of one block of the document, which stays well formed |
| CorefileDoc.SpliceDocUpdates | internal/gateway/corefile.go:40-58 | That update changes one cube's block and no plain line, and no other cube's block |
| SpliceClient.ConfigMaps.UpdateObject | internal/cli/coredns.go:71-89 | Compare-and-swap: stored only under the version read, logged with the object it replaced |
| SpliceClient.SplicedConfigMap | internal/cli/coredns.go:99-116 | One fresh read, and the object to write is the splice of that very read; a missing key reads as the empty text, a non-string is refused |
| SpliceClient.SpliceCoreDNS | internal/cli/coredns.go:71-89 | The loop makes exactly the automaton's calls; success is one write, last in the log and the splice of the object before it; failure wrote nothing; it gives up over conflicts exactly when five of its updates were refused, and then others wrote at least five times |
| SpliceClient.GivesUpAtFive | internal/cli/coredns.go:24-89 | A client whose calls are in turn never loses more than five writes, and has given up exactly when it lost five |
| SpliceProtocol.RunKeepsInv | internal/cli/coredns.go:71-116 | The protocol invariant holds in every state of every interleaving of N splicers and foreign writers |
| SpliceProtocol.EveryCommitIsASplice | internal/cli/coredns.go:71-116 | In every interleaving: every splicer commit is the splice of the immediately preceding object, the log is one unbroken history, each client commits once iff it succeeded |
| SpliceProtocol.LogOnlyGrows | internal/cli/coredns.go:71-116 | No committed write is ever taken back |
| SpliceProtocol.GivenUpAtFive | internal/cli/coredns.go:24-89 | The same of every client in every interleaving |
| SpliceProtocol.ExhaustionCostsFiveWrites | internal/cli/coredns.go:71-89 | A client that gives up over conflicts lost to at least five writes by others made since its first read |
| SpliceProtocol.FiveSplicersAlwaysFinish | internal/cli/coredns.go:24-89 | Up to five splicers with no other writer never exhaust their attempts |
| SpliceSafety.ForeignLinesStay | internal/cli/coredns.go:61-116 | With foreign writers that leave blocks alone, every line outside the blocks is always as the last foreign writer left it |
| SpliceSafety.BlocksLand | internal/cli/coredns.go:61-116 | In every state each finished cube's block is in the text exactly once, as rendered, and each unfinished cube's is what it was |
| SpliceSafety.NoStructuralFailure | internal/cli/coredns.go:71-116 | No client is ever refused for the shape of the Corefile |
| Dependencies.EffectiveIDs | internal/pack/deps.go:68-92 | Succeeds iff every entry can go by its explicit id, or without one by a name no other entry carries, no two by the same; those are the ids, so explicit ids that all differ always serve; else the first offending entry |
| Dependencies.IdentitiesAre | internal/pack/deps.go:55-92 | There is at most one such assignment of ids, and one exactly when the identity check passes |
| Dependencies.NewInstanceIndex | internal/pack/deps.go:126-136 | Maps each id, and each name to its instances in declared order |
| Dependencies.LookupFinds | internal/pack/deps.go:140-157 | A target finds the one instance it can mean, and fails exactly when it means none, several or the asker itself |
| Dependencies.LookupFails | internal/pack/deps.go:140-157 | And the failure says which of these it was |
| Dependencies.ResolveTargets | internal/pack/deps.go:95-117 | One instance's edges: what its targets mean, duplicates dropped, in declared order; the error is the first unresolvable target's |
| Dependencies.DedupKeepsFirsts | internal/pack/deps.go:95-117 | Dropping duplicates keeps each first occurrence, in order |
| Dependencies.ResolveDependencies | internal/pack/deps.go:95-117 | The graph exactly when every target resolves; else the error of the first declared instance with an unresolvable target, at its first such target |
| InstallOrder.PendingCounts | internal/pack/deps.go:194-211 | Counts, for each instance, the edges into the set that still gate it |
| InstallOrder.ReadyInstance | internal/pack/deps.go:215-222 | The earliest-declared instance with nothing pending, if any |
| InstallOrder.Unresolved | internal/pack/deps.go:226-234 | The instances still waiting, in declared order |
| InstallOrder.Place | internal/pack/deps.go:164-184 | Decrementing keeps every count equal to what still gates its instance |
| InstallOrder.TopoSort | internal/pack/deps.go:164-184 | A greedy order of everything, or a report made when nothing is ready |
| InstallOrder.GreedyIsInstallOrder | internal/pack/deps.go:164-184 | A complete greedy order is a permutation of the ids with dependencies first |
| InstallOrder.GreedyIsLeast | internal/pack/deps.go:161-184 | And it is the lexicographically least such order by declared position |
| InstallOrder.OrderedIsAcyclic | internal/pack/deps.go:164-184 | A complete order leaves no cycle |
| InstallOrder.StuckIsWhatReachesACycle | internal/pack/deps.go:164-234 | The reported instances are exactly those from which a cycle can be reached, and there is one |
| InstallOrder.ReportIsTheCycleIff | internal/pack/deps.go:224-234 | They are the members of cycles, as the comment has it, iff nothing else depends directly on one |
| InstallOrder.DependentsAreReportedToo | internal/pack/deps.go:224-234 | A graph where they are not |
| InstallOrder.ResolveOrder | internal/pack/deps.go:40-54 | Succeeds iff identities are valid, every target names one other instance and the graph is acyclic; the order is then the least install order of the entries by the ids they go by. The error is the identity check's, else the first unresolvable target's, else a cycle report naming what reaches a cycle |
| Inventory.InventoryRefs | internal/bootstrap/inventory.go:45-58 | The owned objects' references, a permutation, in byte order of namespace, kind and name |
| Inventory.ListIsCanonical | internal/bootstrap/inventory.go:42-76 | Every order of the owned objects records the same list iff the keys tell the references apart |
| Inventory.KeyForgetsOnlyApiVersion | internal/bootstrap/inventory.go:74-76 | Two references share a key iff they differ in nothing but apiVersion |
| Waits.FilterKindSet | internal/bootstrap/wait.go:88-97 | The objects of the five waited kinds, in order |
| Waits.KindSetMembers | internal/bootstrap/wait.go:88-97 | Membership in that list, both ways |
| Waits.ReadReady | internal/bootstrap/wait.go:66-135 | One read: ready iff the live object is up in the way of its kind; not found is not ready, any other error is permanent |
| Waits.KindReadyIs | internal/bootstrap/wait.go:66-135 | Each kind's predicate, field by field: a current generation observed and as many replicas ready as wanted, one if unset; the first condition of a type, by index, saying True; an Active phase |
| Waits.CheckReady | internal/bootstrap/wait.go:50-62 | One pass: reads in order up to the first permanent failure, which is coded there; else what is left is what was found waiting |
| Waits.WaitReady | internal/bootstrap/wait.go:30-44 | A whole wait: only reads; a permanent failure ends it with its own code; success iff every object was found ready; a timeout, only when the context is done, names what is pending |
| Waits.CheckReconciled | internal/bootstrap/reconcile.go:89-123 | One judged pass; no-match and not-found are waited out |
| Waits.WaitReconciled | internal/bootstrap/reconcile.go:63-83 | The same account for judged waits, under their own timeout code; without judgment or objects there is no wait |
| Waits.WaitReport | internal/bootstrap/errors.go:88-154 | Read by read: the first read that fails for good ends the wait, which reports that read's or judgment's error, untouched if it has a code and as a poll failure if not; else it succeeds having seen every object ready, or times out; a missing kind or object is waited out |
| Waits.ContextInReadIsAPollFailure | internal/bootstrap/errors.go:88-154 | A wait with a read that came back with the context's own error ends in a poll failure, never under the wait's timeout code |
| Waits.OneReadCutShort | internal/bootstrap/reconcile.go:63-123 | Such a wait: one object, one read, the context done |
| Waits.PassAdvances | internal/bootstrap/reconcile.go:63-110 | Pending only shrinks, as an order-preserving subsequence of the declared objects, and what left it was settled |
| Bootstrap.Applier.Apply | internal/bootstrap/apply.go:69-76 | Applies in order, stops at the first failure and returns it unchanged |
| Bootstrap.Applier.RecordInventory | internal/bootstrap/inventory.go:34-40 | One apply of the inventory listing the owned objects |
| Bootstrap.Applier.Install | internal/bootstrap/install.go:87-95 | Carries out apply, record, wait, up to the first failure |
| Bootstrap.Applier.WaitUnit | internal/bootstrap/unit.go:106-116 | The wait the unit declares, and no other |
| Bootstrap.Applier.InstallPrerequisites | internal/bootstrap/unit.go:71-85 | Carries out each unit's record, apply and wait in order, the owned set growing |
| Bootstrap.Applier.CheckUnits | internal/bootstrap/unit.go:93-100 | Fails, coded, iff some custom-resource unit has no judgment |
| Bootstrap.Applier.InstallEngine | internal/bootstrap/install.go:55-79 | A defective run does nothing; any other carries out the plan stage by stage up to its first failure |
| BootstrapSafety.AppliedInDeclaredOrder | internal/bootstrap/install.go:55-95 | In every run, what has been applied is a prefix of substrate, units and wiring in declared order; all of it on success; so never an engine object, unless it is also declared among the others |
| BootstrapSafety.RecordsAreCumulative | internal/bootstrap/unit.go:62-85 | The i-th record lists exactly the substrate and the first i units, and finally the wiring |
| BootstrapSafety.RecordsOnlyGrow | internal/bootstrap/inventory.go:27-40 | A run's records only grow, up to everything it installs |
| BootstrapSafety.InventoryCovers | internal/bootstrap/install.go:39-95 | At every moment of every run, failing ones included, once anything is on record everything applied or tried is in the last record |
| BootstrapOrder.RecordPrecedesApplyIff | internal/bootstrap/install.go:50-52 | The documented promise that every record precedes the apply it covers holds of a run iff there is no substrate |
| BootstrapOrder.SuccessMeansReady | internal/bootstrap/install.go:39-79 | A nil result means everything was applied and afterwards seen ready or reconciled, each kind of step under its own judgment, the waited kinds as their live fields say; the engine's objects after the last apply and after the wiring was seen reconciled |
| BootstrapOrder.SuccessMeansRolledOut | internal/bootstrap/wait.go:99-114 | For a Deployment or StatefulSet of the substrate: after its apply a read found the current generation observed and at least the wanted replicas ready |
| BootstrapOrder.EachWaitsForThePrevious | internal/bootstrap/unit.go:62-85 | Nothing is applied before everything ahead of it has been applied and seen ready |
| BootstrapOrder.FailureIsTheLastAct | internal/bootstrap/errors.go:88-154 | A failed run went through the stages before the one it ended in without error, and ends on the failure it reports, unchanged: that stage's failed apply or record, its last read's or judgment's permanent error, untouched if it carries a code, or a timeout under that wait's code, pending a subsequence of its objects with every other one settled |
| MergePatch.MergeInto | internal/pack/values.go:109-133 | Whatever order Go visits the patch's keys in, the result is RFC 7386's MergePatch |
| MergePatch.MergeIdempotent | internal/pack/values.go:109-133 | Merging a patch twice is merging it once |
| MergePatch.SilentPathsKept | internal/pack/values.go:109-133 | Every path the patch does not name is unchanged |
| MergePatch.NamedPathsDecided | internal/pack/values.go:109-133 | Every path it names with anything but a mapping is decided by the patch alone; null removes |
| MergePatch.BelowReplacedIsGone | internal/pack/values.go:109-133 | Nothing survives below a value the patch replaces |
| MergePatch.PathsClassified | internal/pack/values.go:109-133 | Every path is of one of these kinds, or leads the patch into a mapping |
| MergePatch.NormalizeNumbers | internal/pack/values.go:40-72 | Whole numbers up to 2^53 become integers, everywhere, in any visiting order |
| MergePatch.WholeNumbersConvert | internal/pack/values.go:40-72 | A number becomes an integer iff it is that whole number, of magnitude at most 9007199254740992 |
| MergePatch.NoneIsLeft | internal/pack/values.go:40-72 | No such number is left anywhere in a normalised value, in lists or mappings |
| MergePatch.NormalizingIsExact | internal/pack/values.go:40-72 | No number changes value |
| MergePatch.SettledIffUnchanged | internal/pack/values.go:40-72 | A value is left alone iff it holds no such number |
| MergePatch.NormalizingIsIdempotent | internal/pack/values.go:40-72 | Normalising twice is normalising once |
| MergePatch.NormalizingCommutes | internal/pack/values.go:23-72 | Normalising the merge is merging the normalised |
| MergePatch.InstanceValues | internal/pack/values.go:23-38 | No values iff neither source has any; otherwise the merge of the normalised sources, with nothing left to normalise |
| Substitute.ReadingIsUnique | internal/pack/substitute.go:75-131 | The `${NAME}` grammar is unambiguous |
| Substitute.ReadsIsSource | internal/pack/substitute.go:85-112 | A reading spells out the whole text, every character once |
| Substitute.CheckVarName | internal/pack/substitute.go:131-145 | Accepts exactly the names of the grammar |
| Substitute.LeadingReference | internal/pack/substitute.go:114-129 | Finds a reference iff the text opens one, and its name and width |
| Substitute.Expand | internal/pack/substitute.go:85-112 | The scanner writes the value of the one reading of its text, no value rescanned, and records exactly the unbound names |
| Substitute.EscapingRoundTrips | internal/pack/substitute.go:75-112 | Replacing each `${` by `$${` makes any text expand to itself under any variables, missing none |
| Substitute.ExpandValue | internal/pack/substitute.go:53-73 | Expands every string of a tree in any visiting order; the names missed are exactly the unbound ones mentioned |
| Substitute.EveryStringExpanded | internal/pack/substitute.go:53-73 | Every string anywhere in a value, in lists and mappings, has its expansion in the result |
| Substitute.MentionsIff | internal/pack/substitute.go:53-73 | A value mentions a name iff some string in it reads as referring to it |
| Substitute.ExpandingKeepsShape | internal/pack/substitute.go:53-73 | Keys, lengths and non-string leaves are untouched |
| Substitute.OnlyMentionedMatter | internal/pack/substitute.go:53-73 | The result depends on no variable the value does not mention |
| Substitute.SubstituteAll | internal/pack/substitute.go:34-51 | Fails iff some object mentions an unbound name, and lists them all, once each, sorted |
| Substitute.FlatStringValues | internal/pack/substitute.go:10-32 | The string map iff every value is a string; else the least offending name |
| Ordering.SortedKeys | internal/pack/substitute.go:147-156 | A set's elements, once each, in byte order |
| Ordering.StrLeqIff | internal/ref/tree.go:116-117 | The comparison used throughout puts a before b iff a is a prefix of b or has the smaller character at their first difference |
| Kubeconfig.Rebrand | internal/cluster/kubeconfig.go:51-77 | A single-cluster config renamed in every place the name occurs, everything else kept; anything else refused |
| Kubeconfig.Upsert | internal/cluster/kubeconfig.go:178-194 | The in-place loop is the fold of single upserts |
| Kubeconfig.UpsertKeepsOthers | internal/cluster/kubeconfig.go:178-194 | An upsert keeps every entry of another name, in order |
| Kubeconfig.UpsertTwice | internal/cluster/kubeconfig.go:178-194 | Upserting twice is upserting once |
| Kubeconfig.Merge | internal/cluster/kubeconfig.go:79-117 | What every key holds after a merge |
| Kubeconfig.UnknownKeysKept | internal/cluster/kubeconfig.go:79-117 | No key cube-idp does not understand is ever touched |
| Kubeconfig.MergeIsIdempotent | internal/cluster/kubeconfig.go:79-117 | Merging a rebranded config again changes nothing, unless the file was empty, and then iff that config says its version |
| Kubeconfig.Remove | internal/cluster/kubeconfig.go:119-167 | What every key holds after a removal; changed iff the file referred to the cube; unchanged means the very input |
| Kubeconfig.RemovedIsGone | internal/cluster/kubeconfig.go:119-167 | Nothing refers to a removed cube |
| Kubeconfig.RemoveUndoesMerge | internal/cluster/kubeconfig.go:119-167 | Removing what was merged leaves exactly the entries not named after the cube, in order, every other key as it was, and no current-context; of an empty file, what the incoming config held besides |
| Kubeconfig.ExactReverseIff | internal/cluster/kubeconfig.go:119-127 | The documented exact reverse holds iff the file was not empty and had no current-context, no entry of that name, no empty or ill-typed list, and its own apiVersion or already the apiVersion and kind Merge would write |
| Kubeconfig.CurrentContextIsLost | internal/cluster/kubeconfig.go:119-127 | A file it does not hold for |
| Kubeconfig.InstalledIsInUse | internal/cluster/kubeconfig.go:30-117 | After installing a rebranded config current-context names the cube's context, the context names its cluster and user, and what a client finds under those names is what the provider gave |
| Kubeconfig.RenderedHeader | internal/cluster/kubeconfig.go:26-35 | A rendered config says its apiVersion and kind iff they were given |
| Kubeconfig.RenderedExtras | internal/cluster/kubeconfig.go:26-35 | And its preferences and extensions as they were given |
| Kubeconfig.NothingSaysIt | internal/cluster/kubeconfig.go:119-167 | After a removal no entry of the three lists says the cube's name, and current-context does not |
| Kubeconfig.UpsertCommutesWithRemove | internal/cluster/kubeconfig.go:119-194 | Installing one cube and removing another do not disturb each other |
| TreeFS.DirEntries | internal/ref/tree.go:88-118 | None iff the directory does not exist; otherwise every child once, in byte order of the names, nothing else |
| TreeFS.Open | internal/ref/tree.go:29-46 | A file, a directory, absent or invalid, each exactly when the paths say so |
| TreeFS.ReadDir | internal/ref/tree.go:61-72 | The listing of a directory, in the same terms |
| TreeFS.Stat | internal/ref/tree.go:74-86 | The same answer as Open's |
| TreeFS.BaseIsLast | internal/ref/tree.go:29-86 | The name reported is the path's last element |
| TreeFS.ReadFile | internal/ref/tree.go:48-59 | The stored bytes, exactly for stored paths |
| TreeFS.FileOrDir | internal/ref/tree.go:13-46 | Over prefix-free paths nothing is both a file and a directory |
| TreeFS.ListingAgrees | internal/ref/tree.go:61-118 | What a listing says of a child is what Stat says of it |
| TreeFS.ListingIsComplete | internal/ref/tree.go:61-118 | Every child there is, is listed |
| TreeFS.Walk | internal/ref/tree.go:61-118 | A recursive walk visits exactly the stored paths, each once, in component-wise order |
| TreeFS.EverythingIsUnderRoot | internal/ref/tree.go:61-118 | From the root that is every stored path |
| TreeFS.OpenTreeDir.ReadDir | internal/ref/tree.go:166-179 | One page: the next entries, and EOF exactly when a positive page finds nothing left |
| TreeFS.OpenTreeDir.ReadPages | internal/ref/tree.go:166-179 | Pages of any sizes concatenate to the entries; EOF only after all of them |
| Digest.TreeManifest | internal/ref/resolve.go:228-245 | The manifest is that of the paths in ascending byte order, in whatever order the map yields them |
| Digest.ManifestIsCanonical | internal/ref/resolve.go:225-245 | There is one such listing, so the digest's input is a function of the tree |
| Digest.ManifestIsInjective | internal/ref/resolve.go:225-245 | Trees whose paths hold no line break and whose contents do not collide are equal if their manifests are |
| Digest.NewlineConfuses | internal/ref/resolve.go:225-245 | Without the first condition two different trees can share a manifest |
| Keychain.ParseKeychainCerts | internal/ca/trust_macos.go:144-176 | The line loop computes the fold of the line automaton |
| Keychain.ParseInvertsPrint | internal/ca/trust_macos.go:144-176 | Parsing a printed listing, spelled out to the character, gives its certificates back in order, each with its own hash and its PEM text line for line |
| Keychain.Find | internal/ca/trust_macos.go:123-142 | The first certificate whose fingerprint is the same but for case, and nil iff there is none |
| Scopes.IndexCRDScopes | internal/pack/namespace.go:80-98 | The index of the bundled definitions |
| Scopes.IndexIsLastDefinition | internal/pack/namespace.go:80-98 | It knows exactly the kinds some object defines, each by its last definition |
| Scopes.DefinesIff | internal/pack/namespace.go:80-98 | What counts as a definition: a CustomResourceDefinition of apiextensions.k8s.io that names a kind and says one of the two scopes |
| Scopes.ScopedByLastDefinition | internal/pack/namespace.go:100-124 | Of a kind that is not built in, an object is outside namespaces iff the last definition of its group and kind says so |
| Scopes.KubernetesClusterKinds | internal/pack/namespace.go:20-51 | Kubernetes' own cluster-scoped kinds are outside namespaces whatever a pack defines |
| Scopes.KubernetesNamespacedKinds | internal/pack/namespace.go:100-114 | Its everyday namespaced kinds are inside unless a pack defines them otherwise |
| Scopes.ApplyNamespace | internal/pack/namespace.go:127-153 | Succeeds iff no object conflicts; then every object is placed; else stops at the first conflict |
| Scopes.ConflictIff | internal/pack/namespace.go:127-153 | A conflict is exactly where forcing the namespace would overwrite another one |
| Scopes.OnlyTheNamespace | internal/pack/namespace.go:127-153 | Nothing but metadata.namespace is ever written |
| Scopes.PlacedKeepsIndex | internal/pack/namespace.go:127-153 | Forcing the namespace cannot change the index |
| Scopes.PlacingIsIdempotent | internal/pack/namespace.go:127-153 | Forcing it again changes nothing |
| Scopes.InNamespaceIff | internal/pack/namespace.go:127-153 | A namespaced object that passed is in the namespace iff its metadata, if any, is a mapping |
| Scopes.StringMetadataPasses | internal/pack/namespace.go:127-153 | Such an object: its metadata is a string, no namespace conflicts, and it is placed nowhere |
| Plan.ResolveExternalManifests | internal/pack/external.go:22-80 | Both groups in declaration order iff every entry holds one object; else the first that does not |
| Plan.CarriesIff | internal/pack/external.go:54-80 | An entry holds an object iff it is inline, or refers to a single document that says its apiVersion and kind |
| Plan.GroupMembers | internal/pack/external.go:22-52 | Each group holds exactly the objects of the entries of its lifecycle |
| Plan.GroupConcat | internal/pack/external.go:22-52 | The split by lifecycle is stable |
| Plan.GroupsPartition | internal/pack/external.go:22-52 | It loses nothing and doubles nothing |
| Plan.PlanRaw | internal/pack/render.go:172-184 | A raw pack's objects placed by their own index, unless one conflicts |
| Plan.AttachExternal | internal/pack/render.go:106-140 | External groups placed by the index of the plan's objects; own objects first |
| Plan.RenderRawInstance | internal/pack/render.go:87-184 | A raw instance succeeds iff every entry holds its object and nothing, own or external, conflicts under the one index of its own objects; everything is then placed by it |
| Plan.PlanKustomize | internal/pack/render.go:186-208 | Flat values, then namespace, then substitution; fails exactly when one of them does |
| Plan.RenderKustomizeInstance | internal/pack/render.go:87-208 | A kustomize instance renders iff every entry holds its object, the plan succeeds and no external object conflicts under the index of the substituted objects; external groups are then placed by it |
| Plan.RebuiltIndex | internal/pack/render.go:115-140 | The index rebuilt from the substituted objects, read off the expanded texts of the definitions as they were before the call |
| Plan.JudgeAlikeIff | internal/pack/namespace.go:100-124 | Two indexes put every object on the same side iff they say the same of each key that can be asked for |
| Plan.KustomizeJudgesAlikeIff | internal/pack/render.go:115-140 | The comment's claim that own and external objects are judged alike holds of a kustomize render iff the own index and the expanded definitions' agree on each such key |
| Plan.KustomizeIndexKept | internal/pack/render.go:115-140 | In particular the index is the same when substitution changes no definition |
| Plan.KustomizeStaysPlaced | internal/pack/render.go:186-208 | Substitution leaves placed objects in the namespace |
| Plan.SubstitutedScopeDiffers | internal/pack/render.go:115-120 | A pack that renders and whose definition leaves its scope to a variable: an external object the own index places in the namespace, the rebuilt one leaves out of it |

## Left out

- Kubernetes client construction, discovery, REST-mapper caching and server-side apply itself: the cluster is an arbitrary function of time.
- Ambiguous failures of an Update: an update that reports an error is taken as not stored.
- YAML, JSON, CUE, kustomize, Helm, SemVer, x509 and hashing: the model starts at decoded values, and a content hash is a function with the properties a theorem names.
- Unicode: text is a sequence of code points where Go has bytes; nothing modelled looks inside a multi-byte character, and UTF-8 keeps byte order.
- strings.EqualFold beyond ASCII: fingerprints are hexadecimal.
- Error texts and remediations: only the code, the root cause and the pending objects are kept.
- Real time: polling is a sequence of passes, and the context is done after arbitrarily many events.
- Aliasing of rewritten maps and slices: the loops update a value step by step, so that a value shared with the caller is rewritten too is not seen.
- Readiness judges of the engines and the gateway: any function may judge.
- Document validation, defaulting, prerequisite dispatch, the trust ledger, certificate minting and static object builders: one-branch facts.
- File, environment, exec and HTTP code, and the command line.
- NaN and infinite numbers, which JSON cannot carry, are not values of the model.
- A second bootstrap of the same cluster: its first record holds only the substrate, so what is proved is about one run.
- TreeFS.DirEntries: stored paths are taken as text, so fs.ValidPath's UTF-8 check is not modelled; over trees that are not prefix-free its contract leaves open which of two like-named children is listed, as map order does.
- TreeFS.Walk: fs.WalkDir belongs to the standard library; the walk here is the recursion over ReadDir that it performs, without skipping.
- Kubeconfig.MergeIsIdempotent: over every existing file, but for the rebranded configs Merge is given, one entry a list, and not for arbitrary incoming ones.
- Plan.RenderRawInstance: starts at the decoded manifests, so the file walk, the extension filter and the empty-render error come before it.
- Keychain.ParseInvertsPrint: the other lines of an entry may be anything the parser passes over, which covers the SHA-1 line; output of any other shape is covered by no round trip.
