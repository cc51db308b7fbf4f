# Verified model of the gpui-agent control plane

A Dafny model of how an agent observes, plans for, and drives a GUI application through
gpui-agent, with proofs of the properties the design depends on. The host publishes a forest of
UI nodes keyed by id; clients hold a copy that they patch from revision diffs, run recipes against
it as dependency waves, or pursue goals by choosing from a closed menu of actions. On the other side
the application's UI thread drains the requests.

How the model stands to the program:

- Values the program owns outright (a `Vec<UiNode>`, an op, a decision) are datatypes. Objects whose
  methods update fields (`TreeCache`, the observing runner, the escalating policy, the client, the
  event ring, the todo application's drain) are classes; their methods are proved against
  specification functions or say outright what they promise. Loops over vectors, maps and byte
  strings are methods with loops.
- Whatever the model does not compute is arbitrary: the host after a dispatch, other clients, the
  policy, arbitration, text resolution, transport failures, which frame a list is painted in. Methods
  take such answers from nondeterministic choices or as functions that may answer differently each
  time, lemmas from parameters, so the results hold for every one of them.
- The goal runner is specified by a function of the replies its calls get (`GoalPlay.Play`); the methods
  of `GoalRun` are proved to follow it against a live, changing host, and the results about runs are
  theorems about that function.
- Ordered maps and sorts visit keys in `Ordering.Less` order, which is the byte order of UTF-8.

## What the proofs found

- `apply_diff` inverts `diff_trees` up to sibling order at every level (its documentation says top
  level) if and only if no node outside a re-grafted subtree loses a serialised key, `value` or
  `checked` becoming absent, `visible` becoming true, `states` becoming empty
  (`PatchTheorem.PatchInvertsDiff`; `DiffFacts.VanishedValueStays` is a smallest instance), and the next
  finding does not apply.
- A parent with an empty id is taken for the top level when grafting
  (`DiffFacts.EmptyParentIsTopLevel` is an instance). Ids and parents are restored if and only if every
  addition listed under an empty parent id travels inside a topmost addition listed before it
  (`PatchTheorem.ApplyKeepsShape`).
- Sibling order is lost in one way only: kept children stay in the order the client held them, and what is
  grafted under a node follows them in ascending id order (`SiblingOrder.PatchOrdersSiblings`).
- An empty diff can hide that a serialised key vanished (`DiffFacts.SilentDiff`), and the goal
  runner, which judges clicks by the diff of two held trees, then records `no-effect`
  (`GoalPlay.NoEffectMeans`).
- The runner keeps its old revision number when an answer carries none. A host that reports a number,
  then none, then the number again leaves the runner with the wrong tree under that number
  (`ViewSync.DroppedRevisionStrands`).
- A dispatch whose answer is lost is written again. If the first copy changed its own target, the second is
  refused as stale, and the runner, which takes a refusal for nothing dispatched, looks again and may act
  again (`ViewSync.LostAnswerLooksStale`: a ticked checkbox). If the target still looks the same, or the
  operation has no gate, the second copy runs too (`ViewSync.ResentCopy`). So a refused operation has not run
  if and only if no earlier copy was let through (`HostSession.RefusalIsExact`), and over a
  finished run the host has run nothing but the steps if and only if no call let through a copy but the one
  reported (`GoalRun.Run`).
- An action on a node whose id holds white space is offered to an escalation endpoint but refused as off
  the menu when the endpoint picks it (`Escalate.WhiteSpaceIsUnpickable` is an instance,
  `Escalate.ReplyIsExact` has the exact condition).
- The protocol's registry has no entry for `events`, so a recipe step that only reads events is planned as a
  Write, and a wave that holds one is never pipelined (`Plan.EffectsOfOperations` has every operation).
- Every menu offers the three controls, so the operation head always arbitrates: its branch for a lone kind is
  never taken (`Policy.ArbitratedKindIsFollowed`).
- A poller that advances its cursor to `latest`, as the event stream's documentation suggests, skips
  events exactly when its page was cut short (`EventStream.LatestSkipsWhenTruncated`); one that
  advances to the last number it received never does, and polling on reaches the end
  (`EventStream.PollsReachTheEnd`).
- `lagged` is right for every cursor but the largest 64-bit number (`EventStream.LaggedIsExact`). There the
  sum `s + 1` overflows: an unchecked build reports a lag that did not happen
  (`EventStream.LargestCursorLags`), a checked one panics.
- While nobody else scrolls the list, a scrolled capture leaves it where it found it if and only if
  it was painted when the capture started, or its tiles were planned later, or it stood at the top
  (`UiDrain.CaptureRestores`). The smallest failure: not painted at the start, then painted at a positive
  offset, and the tiles cannot be planned (`UiDrain.UnpaintedStartLosesItsPlace`).

## Files

| files | subject |
|---|---|
| `Ordering`, `Chars`, `UiForest`, `Protocol` | keys in order, character classes, forests and their flat reading, operations and recipes |
| `TreeDiff`, `Prune`, `Patch`, `DiffReads`, `PatchTheorem`, `SiblingOrder`, `DiffFacts` | diff and patch, and the proofs that one inverts the other and where it puts siblings |
| `SnapshotCache`, `ViewSync` | the revision ring, `snapshot since`, the runner's incremental view, the staleness gate |
| `Waves`, `Schedule`, `Placeholder`, `RecipeParams`, `Plan`, `OrderCheck` | the recipe compiler |
| `RunPlan`, `RunTheorems`, `WireClient` | the recipe executor and the pipelining client |
| `ActionSpace`, `Policy`, `Escalate`, `Dispatch` | the goal runner's menu, its policies and its dispatch table |
| `HostSession`, `GoalPlay`, `GoalFacts`, `GoalRun` | the session with a live host, the goal runner's loop as a function of its replies, what single rounds and whole runs of it mean, and the loop itself |
| `UiDrain`, `EventStream` | the UI thread's request drain, the event ring |

## Model

| member | source | states |
|---|---|---|
| UiForest.SameIffFlat | crates/gpui-agent/src/diff.rs:127-129 | Equality of two forests up to sibling order at every level is equality of what each id reads: its scalars and its parent. |
| TreeDiff.FieldPatchExact | crates/gpui-agent/src/diff.rs:101-105 | Patching a node with the fields a diff carries gives the new scalars if and only if no serialised key vanishes. |
| TreeDiff.VanishingKeys | crates/gpui-agent/src/tree.rs:70-93 | A key serialised before and not after is exactly an absent value or check mark, a node shown again, or emptied states. |
| TreeDiff.Index | crates/gpui-agent/src/diff.rs:49-60 | The explicit stack visits every node and maps each id to its node and parent, like the recursive index. |
| TreeDiff.DiffTrees | crates/gpui-agent/src/diff.rs:74-125 | The loops over both indexes and the closing sorts compute the specified diff. |
| TreeDiff.ApplyDiff | crates/gpui-agent/src/diff.rs:130-174 | Removals, edits and the retain loop compute the specified patch. |
| DiffFacts.DiffIsAscending | crates/gpui-agent/src/diff.rs:120-124 | All three lists of a diff are strictly ascending by id, so no id is listed twice in one of them. |
| DiffFacts.ChangedIsExact | crates/gpui-agent/src/diff.rs:101-111 | A field edit is listed if and only if the node keeps its parent and serialises some key differently, and it carries exactly those keys. |
| DiffFacts.AddedIsExact | crates/gpui-agent/src/diff.rs:79-100 | An addition is listed if and only if the node hangs elsewhere than before, or is new under an old parent that stays in place or at top level; it carries the new subtree whole. |
| DiffFacts.SilentDiff | crates/gpui-agent-policy/src/runner.rs:404-409 | A diff is empty if and only if every id keeps its parent and nodes differ at most by keys no longer serialised. |
| DiffFacts.VanishedValueStays | crates/gpui-agent/src/diff.rs:101-105 | A field whose value disappears: empty diff, and the patched copy keeps the value. |
| DiffFacts.EmptyParentIsTopLevel | crates/gpui-agent/src/diff.rs:152-165 | A node added under a parent with an empty id is grafted at top level. |
| Prune.RemoveAllIsCut | crates/gpui-agent/src/diff.rs:132-134 | Removing ids one after the other takes away exactly the subtrees they head, whatever the order and whether or not one is already gone. |
| Prune.SurvivesIff | crates/gpui-agent/src/diff.rs:176-182 | A node survives the removals exactly when it is not named and its parent survives. |
| DiffReads.ChangeAllReads | crates/gpui-agent/src/diff.rs:135-139 | All edits together change each surviving row once, by its own edit, and move nothing. |
| PatchTheorem.RemovedAt | crates/gpui-agent/src/diff.rs:93-119 | The removed list holds exactly the nodes that are gone or hang elsewhere. |
| PatchTheorem.WaitsForAncestor | crates/gpui-agent/src/diff.rs:81-87 | An addition that is neither topmost nor present cannot be placed before its topmost added ancestor. |
| PatchTheorem.Sweep | crates/gpui-agent/src/diff.rs:144-171 | One sweep places exactly the missing topmost subtrees among the pending additions, each once, and makes progress if and only if there is one. |
| PatchTheorem.GraftingCompletes | crates/gpui-agent/src/diff.rs:140-172 | On every diff of two forests with unique ids the graft loop ends with nothing pending, moved grandparents and swapped parents included, if additions under an empty id travel inside earlier ones. |
| PatchTheorem.ApplyReads | crates/gpui-agent/src/diff.rs:130-174 | Under the same condition the patched copy has unique ids, exactly those of the new revision, and each row is the new one or the patched kept one. |
| PatchTheorem.RidesIffPlaced | crates/gpui-agent/src/diff.rs:144-171 | When the sweep reaches an addition, its node is already in place if and only if it lies inside a topmost addition listed before it. |
| PatchTheorem.StrayBreaksShape | crates/gpui-agent/src/diff.rs:152-165 | The first addition under an empty id that is not in place when the sweep reaches it stays a root, and the shape is wrong. |
| PatchTheorem.ApplyKeepsShape | crates/gpui-agent/src/diff.rs:130-174 | Patching any client copy of the old revision's shape gives the new revision's shape if and only if every addition under an empty id travels inside an earlier topmost one. |
| PatchTheorem.PatchInvertsDiff | crates/gpui-agent/src/diff.rs:127-129 | For unique ids: the shape is restored if and only if additions under an empty id travel along, and the new revision up to sibling order if and only if, besides, no kept node loses a serialised key. |
| PatchTheorem.PatchOfCopy | crates/gpui-agent/src/diff.rs:127-129 | The same for a client that holds the old revision only up to sibling order. |
| SiblingOrder.PatchOrdersSiblings | crates/gpui-agent/src/diff.rs:140-172 | Under every kept node and at top level, the patched copy lists the kept members in the order they were held, then the topmost additions there in ascending id order; inside a grafted subtree the order is the new revision's. |
| SnapshotCache.TreeCache.Snapshot | crates/gpui-agent/src/dispatch.rs:116-137 | The cached or rebuilt tree, the trimmed ring and the rebuild counter are those of the specified step. |
| SnapshotCache.TreeCache.At | crates/gpui-agent/src/dispatch.rs:140-145 | The oldest ring entry with that revision, or none. |
| SnapshotCache.SnapshotIsFresh | crates/gpui-agent/src/dispatch.rs:93-101 | With a host that never reuses a revision number, a snapshot always equals a fresh one stamped with its revision, and the ring holds at most eight genuine revisions. |
| SnapshotCache.TreeAtIsLogged | crates/gpui-agent/src/dispatch.rs:140-145 | A tree found in the ring is the tree that revision stood for. |
| SnapshotCache.RingAscends | crates/gpui-agent/src/dispatch.rs:126-132 | With an increasing revision counter the ring's numbers are strictly increasing. |
| SnapshotCache.RebuildsCountMisses | crates/gpui-agent/src/dispatch.rs:147-150 | Over any calls the counter is the number of calls whose revision differed from the last cached one, or was unknown. |
| SnapshotCache.RingIsRecent | crates/gpui-agent/src/dispatch.rs:116-137 | Whatever the host, the ring holds exactly the last eight stamped rebuilds of the connection. |
| SnapshotCache.RecentIsRemembered | crates/gpui-agent/src/dispatch.rs:140-145 | A revision is found again if and only if one of the last eight stamped rebuilds has it. |
| SnapshotCache.TreeAtIff | crates/gpui-agent/src/dispatch.rs:140-145 | The lookup fails if and only if no entry has the revision, and otherwise finds the oldest that has. |
| ViewSync.SnapshotResponse | crates/gpui-agent/src/dispatch.rs:308-347 | `snapshot since`, in the full format, answers unchanged, a diff against the remembered tree, or the full tree. |
| ViewSync.Runner.ObserveSince | crates/gpui-agent-policy/src/runner.rs:372-402 | The runner's tree and revision become the held ones, the patched ones or the full ones. |
| ViewSync.AnswerIsExact | crates/gpui-agent/src/dispatch.rs:308-347 | For any `since`, from a host that never reuses a revision number: unchanged if and only if the stamp is the revision asked about; a diff if and only if the stamp is another and the ring still holds the revision asked about; the full tree otherwise. |
| ViewSync.ObserveAnswers | crates/gpui-agent/src/dispatch.rs:308-347 | For a client on track, which of the three answers comes is decided exactly by its revision, the host's and the ring, and a diff is from the tree its revision stood for. |
| ViewSync.ObserveCatchesUp | crates/gpui-agent-policy/src/runner.rs:370-402 | After an observation the view has the host's shape; it stays on track if and only if the host has not dropped its revision, and stays exact if and only if no key was lost. |
| ViewSync.GateIsAtomic | crates/gpui-agent/src/dispatch.rs:268-300 | An action passes if and only if its target exists with the fingerprint the agent saw; otherwise only the cache changes. |
| ViewSync.ResentCopy | crates/gpui-agent/src/client.rs:293-315 | The second copy of a gated action is refused if and only if the target is gone or looks different after the first, and otherwise runs as well. |
| ViewSync.LostAnswerLooksStale | crates/gpui-agent-policy/src/runner.rs:613-633 | A checkbox is ticked, the answer is lost, and the copy written again is refused although the first ran. |
| ViewSync.StepKeepsTracking | crates/gpui-agent/src/dispatch.rs:172-302 | Every host change, request, reconnect, observation and gated action keeps the tracking invariant. |
| ViewSync.ViewNeverDrifts | crates/gpui-agent-policy/src/runner.rs:370-402 | Over every interleaving the view has the shape of the revision it claims, and equals it up to sibling order while no observation loses a key. |
| ViewSync.DroppedRevisionStrands | crates/gpui-agent-policy/src/runner.rs:547-549 | A concrete run in which a host that drops its revision leaves the runner with a wrong tree. |
| Waves.WavesAreLevels | crates/gpui-agent-recipe/src/plan.rs:223-239 | A step in wave w has all its needs in earlier waves and, unless w is 0, one of them in wave w - 1. |
| Waves.WaveIsOneAboveItsNeeds | crates/gpui-agent-recipe/src/plan.rs:223-239 | A step's wave is 0 if and only if it needs nothing, and otherwise one more than the latest wave of its needs, repeated needs included. |
| Waves.CoveredIffAcyclic | crates/gpui-agent-recipe/src/plan.rs:240-243 | Peeling off ready steps covers all of them if and only if the needs have no cycle. |
| Waves.ListingIsIrrelevant | crates/gpui-agent-recipe/src/plan.rs:223-239 | The waves depend only on which steps there are. |
| Schedule.MakeSchedule | crates/gpui-agent-recipe/src/plan.rs:189-244 | Indegree counting succeeds if and only if the recipe has no needs at all, or all are known and acyclic; the order then lists every step once, wave after wave, each wave in id order, repeated needs included. |
| Schedule.CompleteIffLong | crates/gpui-agent-recipe/src/plan.rs:240-243 | The order is as long as the recipe exactly when the waves cover all steps. |
| Placeholder.DecodeInvertsEncode | crates/gpui-agent-recipe/src/recipe.rs:462-472 | Reading a character at a character boundary of UTF-8 text (section 3 of RFC 3629) gives that character, so the substituter's unwrap cannot fail. |
| Placeholder.ParseAgrees | crates/gpui-agent-recipe/src/recipe.rs:324-361 | At every dollar sign the byte parser finds the placeholder a character-level reference finds, of the same length. |
| Placeholder.CollectPlaceholders | crates/gpui-agent-recipe/src/recipe.rs:308-322 | The scanner adds exactly the names of the reference's holes. |
| Placeholder.SubstituteString | crates/gpui-agent-recipe/src/recipe.rs:450-476 | The substituter equals filling the reference's segments, hole by hole. |
| Placeholder.FillIffGiven | crates/gpui-agent-recipe/src/recipe.rs:450-476 | Filling succeeds if and only if every collected name is given. |
| Placeholder.NothingCollectedNothingChanged | crates/gpui-agent-recipe/src/recipe.rs:439-448 | A text without placeholders is returned unchanged, so skipping it is sound. |
| RecipeParams.OpExact | crates/gpui-agent-recipe/src/recipe.rs:363-437 | For every operation, nested invoke arguments included, substitution succeeds if and only if the names collected from it are given, and changes nothing if there are none. |
| RecipeParams.SubstitutionFills | crates/gpui-agent-recipe/src/recipe.rs:363-437 | What substitution returns is the same operation with each of its texts, nested ones included, filled in place: the lists of texts correspond, and with texts blanked the two are equal. |
| RecipeParams.CollectedIffInText | crates/gpui-agent-recipe/src/recipe.rs:230-306 | A name is collected from an operation if and only if one of its texts holds a placeholder for it. |
| RecipeParams.ValidateRecipe | crates/gpui-agent-recipe/src/recipe.rs:135-213 | Accepts exactly the recipes with the supported version, distinct well-formed ids, known needs, declared placeholders and known invokes. |
| RecipeParams.ValidatedBinds | crates/gpui-agent-recipe/src/recipe.rs:120-133 | A validated recipe binds if and only if all its params are set; binding fills the texts of operations and touches nothing else; without params it changes nothing. |
| Plan.CompilePlan | crates/gpui-agent-recipe/src/plan.rs:47-110 | Succeeds if and only if the recipe is valid, its params are set and its needs are acyclic; the plan has the scheduled waves, annotated steps in that order, and needs `yes` if and only if some step exits. |
| Plan.PlannedTexts | crates/gpui-agent-recipe/src/plan.rs:74-98 | Every planned operation is that of one recipe step with its texts filled from the params and nothing else changed. |
| Plan.PlannedNeeds | crates/gpui-agent-recipe/src/plan.rs:80-88 | A planned step waits for what its recipe step needs; in a recipe without needs, for the step listed before it. |
| Plan.EffectsOfOperations | crates/gpui-agent-recipe/src/plan.rs:138-187 | With the protocol's registry every operation is annotated by what it does: looking is Read, ending is Exit, an invoke has its declared effects, everything else, `events` included, is Write. |
| Plan.YesIffEnding | crates/gpui-agent-recipe/src/plan.rs:99 | A plan asks for confirmation if and only if some step ends the application, itself or by what its invoke declares. |
| Plan.BindingKeepsGraph | crates/gpui-agent-recipe/src/plan.rs:53-57 | Binding params leaves ids, needs and acyclicity alone. |
| OrderCheck.RelistingCompiles | crates/gpui-agent-recipe/src/plan.rs:112-120 | A recipe compiles if and only if every relisting of its steps does. |
| OrderCheck.ListingDoesNotMatter | crates/gpui-agent-recipe/src/plan.rs:223-244 | With explicit needs any permutation of the steps compiles to the identical plan, fingerprint included. |
| OrderCheck.CheckOrder | crates/gpui-agent-recipe/src/plan.rs:112-136 | Reports order dependence if and only if no step has needs and there are at least two steps. |
| RunPlan.Client.RpcOp | crates/gpui-agent/src/client.rs:293-315 | One call: the step may reach the host any number of times, and the response is to its last copy. |
| RunPlan.Client.RpcPipeline | crates/gpui-agent/src/client.rs:265-280 | The first steps of a pipeline reach the host in order, all of them on success; none twice but a lone one left over by the chunks. |
| RunPlan.SequentialWave | crates/gpui-agent-recipe/src/run.rs:150-211 | Sends each step's own operation, in order up to the first that fails; every row is its reply's, the failure is the first, and exactly the wanted steps are pictured. |
| RunPlan.RunWave | crates/gpui-agent-recipe/src/run.rs:87-211 | Pipelined or not, each step sends its own operation: the failure reported is the first, the rows are those of the replies, and what is sent after it is Read. |
| RunPlan.Execute | crates/gpui-agent-recipe/src/run.rs:62-216 | Every run hands steps to the client at most once, in plan order, each with its own operation and after ok answers to all its needs, and only Read steps after a failure; without `yes` an exiting plan sends nothing; the receipt's rows are the responses, all of them if it finishes, with a screenshot for exactly the wanted ones; a failure is the first one. |
| RunPlan.RowsAreTold | crates/gpui-agent-recipe/src/run.rs:98-211 | A row names its step, is ok if and only if it was answered ok, and repeats the error and the result that came back, or the connection's error. |
| RunPlan.ResendingIsSafe | crates/gpui-agent/src/client.rs:293-315 | On the host's side too, where a single call may run more than once: plan order, each step with its own operation, needs answered ok before, and only Read steps past a step whose last answer was not ok. |
| RunPlan.TraceIsSafe | crates/gpui-agent-recipe/src/run.rs:87-211 | A run that is fine up to a wave and then sends part of it, all Read or up to a failure, respects the needs. |
| RunTheorems.CompiledIsShaped | crates/gpui-agent-recipe/src/plan.rs:47-110 | What compilation returns has everything execution relies on: distinct ids, waves that list the steps, needs in earlier waves. |
| RunTheorems.PipelineRefinesSequence | crates/gpui-agent-recipe/src/run.rs:98-211 | Whatever was executed of a whole plan agrees with running its steps one by one, in the host's end state, in the failure and in the rows up to it, if Read operations leave the host alone, no call is lost, no Write ran twice and nobody else acts. |
| WireClient.DecimalInjective | crates/gpui-agent/src/client.rs:171-185 | Different request numbers never share an id. |
| WireClient.FormatU64 | crates/gpui-agent/src/client.rs:171-185 | Every 64-bit number is spelt in decimal within the twenty-byte buffer. |
| WireClient.AgentClient.ExchangePipeline | crates/gpui-agent/src/client.rs:102-139 | On success one response per line, in order; a retryable failure has written no line, a fatal one a non-empty prefix. |
| WireClient.AgentClient.PipelineRetry | crates/gpui-agent/src/client.rs:341-364 | However often it retries, each line goes out at most once, in order. |
| WireClient.AgentClient.Roundtrip | crates/gpui-agent/src/client.rs:293-315 | A single call may resend its own line, and no other; the response is to that line. |
| WireClient.AgentClient.Pipeline | crates/gpui-agent/src/client.rs:265-280 | Under any chunking, one response per operation in order, every line written is one of the operations under its own number, numbers are never reused, and no line written twice but that of a last chunk of one. |
| ActionSpace.SpaceIsMenu | crates/gpui-agent-policy/src/action_space.rs:310-382 | On any forest every offered action is spelt by its kind and target and has what dispatch needs, and the three controls are there; with unique ids node actions carry the observed name, role and fingerprint. |
| ActionSpace.OfferedIffViable | crates/gpui-agent-policy/src/action_space.rs:487-567 | A node action is offered if and only if the node has a suitable role and neither it nor any ancestor is hidden or disabled. |
| ActionSpace.MenuIsExact | crates/gpui-agent-policy/src/action_space.rs:310-382 | With unique ids the menu holds exactly the actions that viable nodes of suitable roles take, the listed bindings and invokes, and the three controls. |
| ActionSpace.KeyReadsBack | crates/gpui-agent-policy/src/action_space.rs:256-264 | The key of a KEY action reads back from its id, whatever colons the node id holds. |
| Policy.HabituationWeight | crates/gpui-agent-policy/src/policy.rs:513-527 | The weight falls by 250 for each futile try in an unbroken run, and not below zero. |
| Policy.LocalChoiceOnMenu | crates/gpui-agent-policy/src/policy.rs:171-356 | With any scores and any arbitration a choice names an offered action of that kind that is not dangerous. |
| Policy.TargetsAreExact | crates/gpui-agent-policy/src/action_space.rs:453-457 | The target head chooses among all offered actions of the kind that have a target, in id order. |
| Policy.KindsAreExact | crates/gpui-agent-policy/src/policy.rs:489-511 | The operation head chooses among exactly the kinds on offer, each once, in the fixed order. |
| Policy.StreakMeans | crates/gpui-agent-policy/src/policy.rs:513-527 | The streak counts the latest entries that are futile tries of the action, up to the first that is not. |
| Policy.LoneTargetIsWeighed | crates/gpui-agent-policy/src/policy.rs:608-626 | The only target of its kind is taken if and only if its score, less a quarter for each futile try in a row, reaches the threshold; a dangerous one then asks for confirmation, and one that just had the wanted effect ends the clause. |
| Policy.LoneKindIsWeighed | crates/gpui-agent-policy/src/policy.rs:544-556 | A lone kind would be weighed against the threshold in the same way. |
| Policy.ArbitratedTargetIsFollowed | crates/gpui-agent-policy/src/policy.rs:285-350 | Among several targets the one arbitration chose is taken, confirmed or ended on like a lone one, and the policy abstains if arbitration does. |
| Policy.SettledClauseIsDone | crates/gpui-agent-policy/src/policy.rs:215-238 | After a step that had an effect and whose action is gone, or did what the clause asks, the clause is declared done. |
| Policy.ArbitratedKindIsFollowed | crates/gpui-agent-policy/src/policy.rs:240-292 | On a menu arbitration always decides the kind; a choice is of that kind, or DONE in place of a repetition. |
| Escalate.ReplyIsExact | crates/gpui-agent-policy/src/escalate.rs:318-382 | A reply is a choice if and only if it is exactly an offered id with its op and not dangerous; an abstention if it says so; everything else is a marked violation. |
| Escalate.WhiteSpaceIsUnpickable | crates/gpui-agent-policy/src/escalate.rs:318-382 | A button with id `a b` is offered, and the reply that picks it is a violation. |
| Escalate.EscalatingPolicy.Decide | crates/gpui-agent-policy/src/escalate.rs:113-147 | The endpoint is consulted at most once, only after a local abstention whose contenders can be told apart. |
| Escalate.ConsultedIffToldApart | crates/gpui-agent-policy/src/escalate.rs:127-148 | The endpoint is consulted if and only if there is one, the local policy abstained, and no two of its best-ranked targets, or operations if there are none, agree in kind and title. |
| Escalate.ClosedMenu | crates/gpui-agent-policy/src/escalate.rs:113-137 | Alone or escalated, a choice is on the menu; an abstention is marked as a violation if and only if the endpoint was consulted and broke the protocol. |
| Dispatch.NodeChoiceDispatches | crates/gpui-agent-policy/src/runner.rs:755-798 | A node choice becomes the operation its kind says, on the one node its id names, gated by the fingerprint it was chosen under. |
| Dispatch.ChoiceDispatches | crates/gpui-agent-policy/src/runner.rs:755-820 | A choice on the menu always has an operation, but for an invoke whose arguments do not resolve. |
| Dispatch.SentBindingIsSafe | crates/gpui-agent-policy/src/runner.rs:799-812 | The keybinding sent is never one marked dangerous, nor one that quits, even when ids repeat in the catalog. |
| Dispatch.EveryBindingIsOffered | crates/gpui-agent-policy/src/action_space.rs:320-337 | A listed binding is offered, and marked dangerous if and only if it says so or quits the application. |
| Dispatch.EveryInvokeIsOffered | crates/gpui-agent-policy/src/action_space.rs:338-353 | Every listed invoke is offered under its name, dangerous if and only if the first of that name is. |
| Dispatch.SentInvokeIsSafe | crates/gpui-agent-policy/src/runner.rs:813-817 | A choice of an invoke sends that invoke with the arguments resolved for it, and never one marked dangerous. |
| HostSession.Session.Move | crates/gpui-agent-policy/src/runner.rs:372-402 | Any host may follow any other; the view stays in step as long as every host keeps the contract: unique non-empty ids, no revision number reused for another tree, none dropped. |
| HostSession.Session.Observe | crates/gpui-agent-policy/src/runner.rs:372-402 | With other clients acting at any time, an observation costs one call; while hosts keep the contract it leaves the view with the host's shape and revision. |
| HostSession.Session.Send | crates/gpui-agent/src/client.rs:293-315 | One dispatch, written again until it is answered: each copy runs exactly if it matches its fingerprint on the snapshot it then meets, only the last can be the one reported, and a refused operation has not run exactly if no earlier copy was let through. |
| HostSession.RefusalIsExact | crates/gpui-agent-policy/src/runner.rs:613-633 | A refusal means that nothing ran if and only if no earlier copy of the request was let through, so always when it was written once. |
| HostSession.RanAsSeen | crates/gpui-agent/src/dispatch.rs:268-300 | While hosts keep the contract, a node operation only runs on a target that is there and looks as it did when it was chosen. |
| HostSession.BooksAgree | crates/gpui-agent/src/client.rs:391-398 | Over all calls, what the host ran and reported is what the client was told. |
| HostSession.NothingElseRan | crates/gpui-agent/src/client.rs:293-315 | The host ran nothing else if and only if no call let through a copy but the one reported. |
| GoalPlay.RoundsArePaidFor | crates/gpui-agent-policy/src/runner.rs:454-686 | No round of the loop makes more calls than the budget it uses up. |
| GoalPlay.RoundsProgress | crates/gpui-agent-policy/src/runner.rs:454-686 | Every round moves on lexicographically: steps, clauses, refusals, waiting time. |
| GoalPlay.NoEffectMeans | crates/gpui-agent-policy/src/runner.rs:692-717 | A step other than TYPE and SET_VALUE is recorded without effect if and only if the held trees before and after have the same shape and differ at most by keys no longer serialised. |
| GoalPlay.CallsAreBounded | crates/gpui-agent-policy/src/runner.rs:437-688 | On any replies and with any policy a run makes at most 2 + ceil(max_wait / poll) + 2 * max_steps * (1 + max_stale) calls. |
| GoalPlay.OutcomesAreJustified | crates/gpui-agent-policy/src/runner.rs:437-688 | Over every run steps are numbered from one, no earlier step had to end it, and the final variables bear out the outcome: done, no-effects and stale exactly, cap-hit and over-wait by a cap that was reached. |
| GoalPlay.OutcomesQuoteTheirCause | crates/gpui-agent-policy/src/runner.rs:497-605 | An outcome that blames the policy, the resolver or the host quotes what it said in the run's last round, on the tree held and after the decisions made by then. |
| GoalPlay.StepsAreAccepted | crates/gpui-agent-policy/src/runner.rs:600-685 | The steps are the accepted dispatches, in order, but for one accepted just before a run breaks. |
| GoalPlay.ClosedRunsFailOutside | crates/gpui-agent-policy/src/runner.rs:553-606 | With a policy that keeps to the menu no internal error ends a run, unless the arguments of the invoke chosen in its last round do not resolve. |
| GoalPlay.HeadsKeepToMenu | crates/gpui-agent-policy/src/escalate.rs:113-137 | The local policy, alone or escalated, keeps to every menu, whatever the endpoint replies. |
| GoalFacts.MenuOfRound | crates/gpui-agent-policy/src/runner.rs:464 | In every round the policy chooses from exactly what the held tree, the catalog and the invokes offer. |
| GoalFacts.WaitRound | crates/gpui-agent-policy/src/runner.rs:466-489 | A wait clause is closed if and only if its name is on the held tree, and then nothing is asked; otherwise the round looks again after one poll, or stops when the waiting time is used up. |
| GoalFacts.ControlRound | crates/gpui-agent-policy/src/runner.rs:522-552 | DONE closes the clause and ends the run with the last one, BLOCKED ends it, WAIT looks again or hits its cap. |
| GoalFacts.AbstentionRound | crates/gpui-agent-policy/src/runner.rs:491-520 | An abstention or an error of the policy ends the run, as a bad reply if it is so marked. |
| GoalFacts.UnsentRound | crates/gpui-agent-policy/src/runner.rs:556-608 | An action dispatches nothing if and only if it left the space, its field has no text, or no operation can be made; each ends the run in its own way. |
| GoalFacts.SentAsDecided | crates/gpui-agent-policy/src/runner.rs:600-609 | A round dispatches at most one operation, that of the action chosen with the text resolved for it, and at most looks once afterwards. |
| GoalFacts.NodeSentAsDecided | crates/gpui-agent-policy/src/runner.rs:755-798 | With unique ids it acts on the one node the choice names, as its kind says, gated by the node as it was seen. |
| GoalFacts.RefusalsAreStale | crates/gpui-agent/src/dispatch.rs:36-38 | What the gate refuses with counts as stale, and a lost connection does not. |
| GoalFacts.RejectionRound | crates/gpui-agent-policy/src/runner.rs:610-635 | A stale target is looked at again while the cap allows, and ends the run after that; any other error ends it at once; no step is recorded. |
| GoalFacts.StepRound | crates/gpui-agent-policy/src/runner.rs:636-685 | An accepted dispatch, looked at, records exactly one step with its verification, counts idle steps, and ends the run if and only if they reach the cap. |
| GoalFacts.TextIsReadBack | crates/gpui-agent-policy/src/runner.rs:700-711 | TYPE and SET_VALUE succeed if and only if the field, looked at again, holds the text sent. |
| GoalFacts.IdleMeans | crates/gpui-agent-policy/src/runner.rs:646-651 | The idle count is that of the latest steps without success or change, up to the first with one. |
| GoalFacts.ClausesAreClosed | crates/gpui-agent-policy/src/runner.rs:454-530 | Over every run each clause passed was closed in a round: a wait clause on a held tree showing its name, any other by a choice of DONE; a run that ends as done has closed all of them. |
| GoalFacts.OverWaitMeans | crates/gpui-agent-policy/src/runner.rs:472-481 | A run that waited too long stopped on a wait clause for that name, the waiting time used up and the name not on the tree held. |
| GoalRun.OpIsGated | crates/gpui-agent-policy/src/runner.rs:770-798 | Whatever the decision, a node operation built from an offered action carries a gate, and with unique ids it is what was seen. |
| GoalRun.Settle | crates/gpui-agent-policy/src/runner.rs:639-685 | After a success one observation follows, the step is recorded with the verification those two trees give, and the run is blocked if and only if the idle steps reach the cap. |
| GoalRun.Perform | crates/gpui-agent-policy/src/runner.rs:600-685 | A refusal records no step and is followed by one look; a success records one step, verified on the next observation. |
| GoalRun.Turn | crates/gpui-agent-policy/src/runner.rs:454-552 | Against a changing host one round is the specified round on the replies it got: a wait clause goes by what is on screen, any other by the policy's answer. |
| GoalRun.Run | crates/gpui-agent-policy/src/runner.rs:437-688 | Every run is the one its replies determine, within the call bound; its steps are the operations the host ran and reported, and the host ran no other if and only if no call let through a copy but the one reported; with a policy that keeps to the menu no internal error ends it. |
| UiDrain.Ui.Push | crates/gpui-agent/src/mailbox.rs:41-56 | A full mailbox answers at once and keeps nothing; otherwise the request is accepted at the end. |
| UiDrain.Ui.StartFire | apps/todo/src/app.rs:921-985 | A refused fire is answered; an authorised one is recorded before its action, which runs inside the call or is queued, and the finish is queued after it. |
| UiDrain.Ui.RunEffect | apps/todo/src/app.rs:988-1011 | Every queued finish meets the fire that scheduled it, and answers ok if and only if a listener of that binding recorded success. |
| UiDrain.Ui.Advance | apps/todo/src/app.rs:596-768 | A frame of a capture on what it meets: the job, the list's offset and at most one answer are those of the specified frame. |
| UiDrain.FrameAdvances | apps/todo/src/app.rs:596-768 | Every frame brings a capture closer to its end, within 90 frames plus two for each tile, with the next tile in view, and it ends well only after its last tile. |
| UiDrain.RestoresWhatItRead | apps/todo/src/app.rs:614-640 | A frame that reads the metrics and ends the job scrolls back to the offset they were read at if and only if planning succeeded or the recorded offset was that one. |
| UiDrain.CaptureRestores | apps/todo/src/app.rs:505-568 | While nobody else scrolls the list, a capture that ends leaves it where it found it if and only if it was painted at the start, or its tiles were planned, or it stood at the top. |
| UiDrain.UnpaintedStartLosesItsPlace | apps/todo/src/app.rs:614-640 | Not painted at the start, then painted at offset 40 with tiles that cannot be planned: the list ends at 0. |
| UiDrain.CaptureShootsThePlan | apps/todo/src/app.rs:596-768 | A capture ends well if and only if its tiles were planned in time and every one was captured after a frame to paint, and the last written; the list then stood at the planned offsets, in order, when its pictures were taken. |
| UiDrain.Ui.Frame | apps/todo/src/app.rs:339-426 | In every state the answered, in-flight, backlog and mailbox requests are the accepted ones in arrival order, with at most one in flight; each frame makes progress unless a fire is pending. |
| UiDrain.Ui.Settle | apps/todo/src/app.rs:339-426 | Frames and queued effects answer everything accepted, once and in order. |
| EventStream.EventRing.Push | crates/gpui-agent/src/event.rs:104-125 | The buffer is always the last min(capacity, pushed) events of an unbounded log, numbered from one. |
| EventStream.EventRing.Since | crates/gpui-agent/src/event.rs:129-145 | A poll is the page read off that log: the oldest retained events newer than the cursor. |
| EventStream.PageShape | crates/gpui-agent/src/event.rs:129-145 | A page holds the oldest retained events newer than the cursor, as many as there are and as it has room for, and `latest` is the end of the log; without a cursor it starts at the oldest retained event. |
| EventStream.LaggedIsExact | crates/gpui-agent/src/event.rs:67-70 | `lagged` tells whether an event newer than the cursor was evicted if and only if the cursor is not the largest 64-bit number. |
| EventStream.LargestCursorLags | crates/gpui-agent/src/event.rs:143 | At that cursor a poll of an empty stream reports a lag. |
| EventStream.ReaderMissesNothingSilently | crates/gpui-agent/src/event.rs:127-145 | Over every run a reader that advances to the last number it received gets each event once, in order, but for those a poll reported lost. |
| EventStream.PollAdvances | crates/gpui-agent/src/event.rs:129-145 | A poll moves that reader's cursor if and only if it may return an event and a newer one is retained. |
| EventStream.PollsReachTheEnd | crates/gpui-agent/src/event.rs:127-145 | Polling on, never for an empty page, brings the cursor to the end of the log in at most as many polls as there are events past it. |
| EventStream.LatestSkipsWhenTruncated | crates/gpui-agent/src/event.rs:62-66 | Jumping to `latest` skips a retained event if and only if the page was cut short. |

## Left out

- PatchTheorem.PatchOfCopy: states the result for the node forest; `app`, `platform`, `ready` and `rev` keep the old tree's values in `apply_diff`.
- ViewSync.ViewNeverDrifts: hosts never give one revision number two trees, publish unique non-empty ids, and do not drop their revision for another shape while the runner holds one; each of these is the host contract or a listed finding.
- ViewSync.SnapshotResponse: the compact format and the fingerprints that may accompany a snapshot are not modelled.
- HostSession.Session.Observe: promises nothing about the view once a host has broken its contract; the view can then be wrong, as `ViewSync.DroppedRevisionStrands` shows.
- WireClient.AgentClient.Pipeline: at-most-once excludes the last chunk when it holds one operation, because single calls are resent by design; request numbers are assumed not to overflow 64 bits.
- GoalRun.Run: `waited_ms` and the counters are unbounded numbers; the policy, the text resolver and its escalation and the invoke arguments are arbitrary functions, the catalog an arbitrary answer; a transport error loses its text.
- RunPlan.Client.RpcOp: an arbitrary connection with the resending that `WireClient.AgentClient.Roundtrip` proves of the real one; no lemma ties the two logs together.
- RunPlan.Client.RpcPipeline: likewise for `WireClient.AgentClient.Pipeline`.
- HostSession.Session.Send: that a copy was written is not modelled apart from its reaching the host; reads are resent too, which shows only in the cache.
- RunPlan.Execute: the host may run a resent step more than once; that no Write does is an assumption of `RunTheorems.PipelineRefinesSequence` only.
- EventStream.EventRing.Push: fewer than 2^64 - 1 events are pushed.
- UiDrain.Ui.Advance: the macOS flavour; elsewhere no job is ever created. Window size, cropping, stitching and writing are one arbitrary success or failure each.
- Dispatch.OpFor: delivery mode and keybinding scope are not part of the operations modelled.
- RecipeParams.ValidateRecipe: error messages are not modelled, only whether there is one.
- The content fingerprint of a node is an uninterpreted function of its id, scalars and parent; that equal fingerprints mean equal nodes is not assumed.
- The fingerprint of a plan is modelled by the data it hashes.
- Node bounds are reals, so a NaN that differs from itself is not modelled.
- Trees are values: the clone that `apply_diff` edits is never shared.
- Lexical scores, effect evidence, arbitration and the splitting of a goal into clauses are parameters; arbitration picks a listed candidate, abstains or fails.
- JSON parsing is left out; replies are parsed values whose objects hold distinct keys. The text reply of an escalation is covered only as an arbitrary resolver answer.
- TCP, timeouts, sleeps and clocks appear as arbitrary failures and counters; `elapsed_ms` and `session_reused` are omitted from receipts.
- `wait`, `wait_until`, `assert_tree`, viewport checks, compact lines, authentication, discovery, path confinement and PNG work are not modelled.
- Recipe text formats, the command line, MCP, report generation and the endpoint adapters are not modelled.
