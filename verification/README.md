# SOX core, verified

SOX is a messaging server for software agents. This project models the parts of it whose correctness is
least obvious and proves what they promise, for every input, every run and every interleaving:

- **Plugin ordering** (`Graphs`, `PluginOrder`, `MiddlewareOrder`, `Registration`, `DefaultChain`, `ChainPlaces`,
  `WorkflowLint`): two Kahn sorts over ordering constraints, the registry that uses them, the greedy insertion of plugins
  into a chain, and the lint tool's depth-first cycle finder.
- **The backing store** (`StoreModel`, `StoreRuns`, `StoreOperations`, `StoreDrain`, `StoreReplay`, `StoreWatch`, `WatchRuns`,
  `StoreClearing`, `Groups`, `GroupOperations`, `MemoryBackingStore`, `SqliteBackingStore`, `SqliteSends`): one abstract
  store, two implementations proved against it, and properties of all its runs.
- **The listener buffer** (`Listener`) and **the reference agent's recovery** (`Recovery`, `RecoveryCrashes`) above it.
- **Replay protection** in the identity verifier (`Verifier`), as small steps of concurrent calls.
- **Schema migration with crashes** (`Migration`, `MigrationTargets`), for any contiguous chain of steps.
- **The middleware pipeline** and the trace it writes (`Pipeline`, `PipelineCalls`), for arbitrary middleware.
- **Smaller cores**: the channel-name codec (`ChannelCodec`), the conformance runner's matcher (`Conformance`), the
  cadence enforcer (`Enforcer`). `Sorting` states what `sorted`, `bisect.insort` and list comprehensions do, and
  `Options` what may be missing.

`dafny verify dfyconfig.toml` checks everything.

What the source updates in place is a class whose methods are proved against functions on values
(`MemoryStore.Recv` against `Step`, `PipelineRun.RunCall` against `Call`, and so on). The theorems are then about those
functions and about sequences of them, so they hold for the methods. What each of the functions does is also stated
without it, on its arguments and result alone (the lemmas named `...Exactly`, `...Means` or `...Plainly` and their like).

## Where the code differs from its documentation

The model follows the code. Each difference comes with the exact condition under which code and documentation
agree, and most with an input that shows it.

- Both sorts report, besides the members of cycles, every name that must run after one
  (`PluginOrder.CycleReport`, `PluginOrder.BystanderReported`); the documentation says the error names the cycle members.
  It does exactly when no constraint leads from a member of a cycle to a name on none (`PluginOrder.ReportExactIff`).
- The middleware sort takes any list of names, and counts the constraints of a repeated name more than once. A repeated
  name with a constraint into it makes it refuse constraints without a cycle, with an empty report
  (`PluginOrder.TopologicalSort`). For the list a, a, d, c, b with a before b, d before c and c before b it returns
  a, a, d, b, c, which breaks a constraint (`PluginOrder.ConstraintBroken`); for a, a, b, c with a before b, b before c and
  c before b it returns an order although there is a cycle (`PluginOrder.CycleAccepted`). It keeps its promise for all
  constraints exactly when no name is repeated (`PluginOrder.PromiseKeptIffDistinct`), and the constraints of an order it
  returns whenever no name follows both a repeated one and one that itself follows something
  (`PluginOrder.HarmlessRepetition`).
- A plugin is inserted without looking at the `must_run_after` of the members already in the chain, so it can end up
  behind a member that asked to run after it (`DefaultChain.UnconsultedConstraint`). That happens, although another
  place satisfies everything, exactly when the plugin is appended behind such a member
  (`DefaultChain.InsertionCompleteIff`).
- SQLite's `recv` returns one message for a limit below one, the memory store none (`StoreModel.SameSizeIffPositiveLimit`,
  `StoreDrain.DrainsBelowOne`). Both sort a batch by send time. A drain of SQLite's delivers every channel in order exactly
  when the times are monotone (`StoreDrain.SqliteAscendingIffMonotone`), one of the memory store's exactly when they are
  within each piece of the limit's size (`StoreDrain.MemoryAscendingIff`).
- Two SQLite sends that interleave can share a sequence number, and paging then loses a message
  (`SqliteBackingStore.RacingSendsShareNumber`, `StoreReplay.PagingCompleteIffDistinct`). Numbers stay dense exactly when
  nothing is inserted into a channel between a send's read and its insertion (`SqliteSends.DenseIffUndisturbed`).
- `replay` with limit 0 returns an empty page that announces more (`StoreReplay.ZeroLimit`), and the reference agent's loop
  ends exactly when its page limit is at least two or not below the number of missed messages (`Recovery.LoopEndsIff`);
  the agent uses 100.
- The agent's cursor file is documented to make it replay from the beginning when it is corrupt. Recovery iterates
  over the channels of the file, so it handles everything exactly when every channel with a message has an entry
  (`Recovery.RecoversEverythingIff`, `Recovery.LostFileReplaysIff`, `Recovery.CorruptFileLosesMessage`).
- `channels__recv` puts messages of other channels back at the end of the queue, last one first
  (`Listener.OrderKeptIff`, `Listener.OrderLost`); its documentation says they remain in the queue.
- `verify` is documented to check replay before the signature and to touch the replay cache only on success. It checks
  the signature first (`Verifier.VerdictAsDocumentedIff`), and a refused replay drops the expired entries
  (`Verifier.RefusalDropsEntry`, `Verifier.RefusalKeepsCacheIff`).
- A request dated in the future can be accepted twice (`Verifier.FutureDatedIffReplayable`), and so can any request of a
  call that read the clock long before its locked section (`Verifier.StaleReadingReplay`,
  `Verifier.EverySectionExplained`).
- A migration interrupted by crashes completes, for every consistent database, exactly when every step's change is looked
  for and the marker of a fresh database is not the first of several steps (`Migration.CompletesIffSound`,
  `Migration.MarkerOnFirstStep`, `Migration.UndetectedStepRunsTwice`); the shipped chain meets this. An untracked
  database that has `reply_to` is taken to have the whole latest shape; a database is completed exactly when such
  assumptions hold of it (`Migration.CompletesFromIff`).
- A layer that calls the rest of the chain again can leave the error code of an earlier attempt in the trace entry of a
  layer that passed later (`Pipeline.RetryLeavesCode`, `Pipeline.StaleCodeIff`).
- The matcher compares as Python does, so `true` matches `1` (`Conformance.TrueMatchesOne`,
  `Conformance.MatchBothWaysIff`), and a captured null counts as missing (`Conformance.ResolvingIsExact`).
- A receiving tool that reaches the enforcer as a plain tool event is let pass as a drain but counted as a tool call
  (`Enforcer.DecisionAgreesIff`); the bridge prevents this. Hooks of one agent that overlap miss each other's events
  (`Enforcer.OverlapDelays`).

## Model

| member | source | states |
|---|---|---|
| PluginOrder.BuildGraph | packages/python/src/sox_protocol/core/middleware/registry.py:66-81 | the successor lists hold exactly the constraints among the given names, either party's declaration, and the in-degrees count them with multiplicity |
| PluginOrder.ReleaseSuccessors | packages/python/src/sox_protocol/core/middleware/registry.py:153-157 | each in-degree drops by the node's multiplicity in the list, and exactly the listed nodes that reach zero are collected, each once |
| PluginOrder.InsortAll | packages/python/src/sox_protocol/core/middleware/registry.py:159-163 | merging the released names keeps the queue sorted and loses or adds nothing |
| PluginOrder.KahnStep | packages/python/src/sox_protocol/core/middleware/registry.py:88-94 | one turn keeps: in-degrees count the unplaced predecessors, the queue holds each ready name once, and whatever is placed has its predecessors before it |
| PluginOrder.KahnVerdict | packages/python/src/sox_protocol/core/middleware/registry.py:96-102 | the loop ends early exactly when there is a cycle, and the names left over are exactly those some cycle leads to |
| PluginOrder.TopologicalSort | packages/python/src/sox_protocol/core/middleware/registry.py:47-102 | for any list, the result of `Arranged`, which the following rows are about; for distinct names a permutation that respects every constraint exactly when the constraints have no cycle, otherwise a report, in the given order, of the names some cycle leads to; for any list a permutation or a refusal: constraints without a cycle are refused, with an empty report, exactly when a repeated name has one into it, and an order breaks a constraint at most from a name with a constraint into it to a name that a repeated one must precede |
| MiddlewareOrder.ArrangedByRelease | packages/python/src/sox_protocol/core/middleware/registry.py:84-94 | for distinct names the order lists each name after the last of those that must run before it, in the order of these last ones, and names released together, those nothing leads to included, alphabetically |
| MiddlewareOrder.OneOrder | packages/python/src/sox_protocol/core/middleware/registry.py:84-94 | at most one order respects the constraints and does so |
| MiddlewareOrder.ListingOrderIrrelevant | packages/python/src/sox_protocol/core/middleware/registry.py:84-102 | listing the same distinct names differently changes neither the order nor, up to the order of its names, the report |
| MiddlewareOrder.FreeNamesFirst | packages/python/src/sox_protocol/core/middleware/registry.py:84-85 | the names no constraint leads to come first, alphabetically |
| MiddlewareOrder.Unconstrained | packages/python/src/sox_protocol/core/middleware/registry.py:84-94 | without constraints the names come out sorted |
| PluginOrder.HarmlessRepetition | packages/python/src/sox_protocol/core/middleware/registry.py:66-102 | when no name follows both a repeated one and one that follows something, an order is returned exactly for constraints without a cycle and none into a repeated name, and respects all of them |
| PluginOrder.ConstraintBroken | packages/python/src/sox_protocol/core/middleware/registry.py:88-94 | a list with a repeated name and constraints without a cycle for which the returned order breaks a constraint |
| PluginOrder.CycleAccepted | packages/python/src/sox_protocol/core/middleware/registry.py:88-102 | a list with a repeated name for which constraints with a cycle are accepted |
| PluginOrder.PromiseKeptIffDistinct | packages/python/src/sox_protocol/core/middleware/registry.py:66-102 | on a list with two different names the sort keeps its promise for all constraints exactly when no name is repeated |
| PluginOrder.ToposortPlugins | packages/python/src/sox_protocol/core/middleware/registry.py:105-169 | returns the first, in dictionary order, of all orders that respect the constraints, exactly when there is no cycle; otherwise reports, sorted, the names some cycle leads to |
| PluginOrder.GreedyIsFirst | packages/python/src/sox_protocol/core/middleware/registry.py:146-163 | always taking the smallest ready name gives an order that comes first among all orders respecting the constraints |
| Sorting.StringLeIff | packages/python/src/sox_protocol/core/middleware/registry.py:85-90 | the string order: a beginning of a string comes before it, otherwise the smaller character where two strings first differ decides |
| Sorting.LexLeMeans | packages/python/src/sox_protocol/core/middleware/registry.py:105-169 | dictionary order on lists of names, in the same terms |
| PluginOrder.DiscoveryOrderIrrelevant | packages/python/src/sox_protocol/core/middleware/registry.py:126-169 | the same plugins discovered in another order give the same order or the same report |
| PluginOrder.OnlyDeclaredPairsMatter | packages/python/src/sox_protocol/core/middleware/registry.py:136-169 | duplicate declarations, or declarations about absent plugins, change neither the order nor the report |
| PluginOrder.CycleReport | packages/python/src/sox_protocol/core/middleware/registry.py:165-167 | every member of every cycle is reported, and with a name everything that must run after it |
| PluginOrder.ReportExactIff | packages/python/src/sox_protocol/core/middleware/registry.py:165-167 | the report of either sort is exactly the members of cycles if and only if no constraint leads from a cycle's member to a name on no cycle |
| PluginOrder.BystanderReported | packages/python/src/sox_protocol/core/middleware/registry.py:165-167 | a concrete constraint set for which a name on no cycle is reported |
| Graphs.StuckNodes | packages/python/src/sox_protocol/core/middleware/registry.py:96-97 | when every unplaced node waits for an unplaced one, the unplaced nodes are exactly those some cycle leads to |
| Graphs.OrderedMeansAcyclic | packages/python/src/sox_protocol/core/middleware/registry.py:51-54 | an order respecting every constraint exists only without cycles |
| Registration.MiddlewareRegistry.Register | packages/python/src/sox_protocol/core/middleware/registry.py:195-207 | a name can be registered once; a second registration is refused and changes nothing |
| Registration.MiddlewareRegistry.Assemble | packages/python/src/sox_protocol/core/middleware/registry.py:223-256 | the registered ones of the requested names, repeated ones included, arranged or refused exactly as the sort does; without repetition all constraints the instances declare hold, and it is refused exactly when these have a cycle and no such order of the names exists |
| Registration.MiddlewareEdges | packages/python/src/sox_protocol/core/middleware/registry.py:66-81 | the constraints sorted by are those the requested registered middlewares declare about each other |
| Registration.ProvidedCapabilities | packages/python/src/sox_protocol/core/middleware/registry.py:428-438 | collects exactly the loaded ids and the capabilities of loaded plugins other than the two behaviour flags |
| Registration.CheckRequirements | packages/python/src/sox_protocol/core/middleware/registry.py:440-446 | passes exactly when every requirement is provided, otherwise names the first unmet one in loading order and its plugin |
| Registration.ResolvePlugins | packages/python/src/sox_protocol/core/middleware/registry.py:339-446 | succeeds exactly when the allowlist is acceptable, every allowed id exists, there is no cycle and all requirements are met; otherwise the error names a real cause |
| Registration.ResolutionMeans | packages/python/src/sox_protocol/core/middleware/registry.py:339-446 | the same in terms of manifests and allowlist alone: in production exactly the discovered plugins on the allowlist are in the order, otherwise all discovered ones; it breaks no manifest's constraints and comes first among such orders; and there is none when a cycle is reported |
| Registration.ManifestEdges | packages/python/src/sox_protocol/core/middleware/registry.py:126-144 | the constraints sorted by are those the chosen plugins' manifests declare about each other |
| Registration.MiddlewareRegistry.RegisterAll | packages/python/src/sox_protocol/core/middleware/registry.py:448-471 | registers the plugins in order, keeping earlier registrations, up to the first one whose import raises |
| Registration.MiddlewareRegistry.LoadPlugins | packages/python/src/sox_protocol/core/middleware/registry.py:320-473 | the order recorded is the one of `ResolutionMeans`; the registry is unchanged when resolution fails; all selected plugins are registered beside earlier ones, which win, and their order recorded exactly when all can be imported; otherwise those before the first that cannot stay registered and nothing is recorded |
| DefaultChain.ChoosePosition | packages/python/src/sox_protocol/core/middleware/default_chain.py:186-216 | the two loops and the clamp choose the position described by the next row |
| DefaultChain.PositionFits | packages/python/src/sox_protocol/core/middleware/default_chain.py:186-216 | the position satisfies all consulted constraints whenever any position does; it is the earliest such if the plugin must precede a member and the end otherwise; what the plugin must precede always stays behind it |
| ChainPlaces.InsertedPlace | packages/python/src/sox_protocol/core/middleware/default_chain.py:186-216 | a plugin that must run before some member is put right before the first such member, if a member from there on must run before it; otherwise right behind the last member that must run before it |
| ChainPlaces.AppendedPlace | packages/python/src/sox_protocol/core/middleware/default_chain.py:186-216 | a plugin that must run before no member is appended |
| ChainPlaces.AllAppended | packages/python/src/sox_protocol/core/middleware/default_chain.py:176-218 | plugins that must run before nobody follow the base in the resolved order |
| DefaultChain.ExtendPipeline | packages/python/src/sox_protocol/core/middleware/default_chain.py:176-218 | inserting in the resolved order yields the extension the following rows are about |
| DefaultChain.ExtendNext | packages/python/src/sox_protocol/core/middleware/default_chain.py:209-216 | each plugin is inserted into the chain made so far, at its position, and what stands from there on moves back |
| DefaultChain.ExtendKeepsBase | packages/python/src/sox_protocol/core/middleware/default_chain.py:209-216 | the base chain keeps its order as a subsequence, and nothing is lost or invented |
| DefaultChain.ExtendedChainOrdered | packages/python/src/sox_protocol/core/middleware/default_chain.py:176-218 | the final chain satisfies every declared constraint exactly when the base did, no insertion was clamped, and none put a plugin behind a member that must run after it |
| DefaultChain.ConsultedConstraintsMet | packages/python/src/sox_protocol/core/middleware/default_chain.py:176-218 | whatever the base asks for and whatever its members are named: plugins in an order respecting their own constraints, none clamped, end in a chain where no pair with a plugin violates either party's must_run_before or a plugin's must_run_after |
| DefaultChain.PluginsInOrderSuffice | packages/python/src/sox_protocol/core/middleware/default_chain.py:176-218 | into an ordered base that asks nothing of the plugins, the whole final chain is ordered |
| DefaultChain.SomePlaceIff | packages/python/src/sox_protocol/core/middleware/default_chain.py:186-216 | some place satisfies all constraints with the chain's members exactly when every member that must follow the plugin stands behind every member that must precede it |
| DefaultChain.InsertionCompleteIff | packages/python/src/sox_protocol/core/middleware/default_chain.py:196-216 | the insertion finds a place satisfying everything, when there is one, exactly unless it appends the plugin behind a member that must run after it |
| DefaultChain.ResolvedOrderOrdered | packages/python/src/sox_protocol/core/middleware/registry.py:425-426 | the order plugin loading resolves is such an order when names and attributes agree with the manifests |
| DefaultChain.UnconsultedConstraint | packages/python/src/sox_protocol/core/middleware/default_chain.py:196-207 | a concrete chain where a member's must_run_after is violated although another position satisfies everything |
| WorkflowLint.CycleFinder.Dfs | tools/workflow_lint.py:290-305 | finds a path that runs into itself, or finishes the node and restores path and stack; visited nodes off the path have all their successors finished before them |
| WorkflowLint.HasCycle | tools/workflow_lint.py:284-311 | None exactly when the graph on its own keys is acyclic, otherwise a path of edges whose last node occurs earlier in it |
| WorkflowLint.DetectorsAgree | tools/workflow_lint.py:284-311 | on every graph, read as constraints in either direction, the finder finds a cycle exactly when the plugin sort and the middleware sort refuse |
| StoreOperations.ReceiveExactly | packages/python/src/sox_protocol/adapters/backing_stores/memory/store.py:164-195 | a receive returns stored, undelivered messages on the named channels or, when none are named, on channels a held pattern matches; by channel name, time and id, each once, as many as the limit allows (the memory store the oldest, SQLite the first in that order), all of them if the limit allows; exactly these become delivered |
| StoreOperations.SendExactly | packages/python/src/sox_protocol/adapters/backing_stores/memory/store.py:119-148 | a message is appended undelivered, with the fields given, the next id and the next number of its channel |
| StoreOperations.HeartbeatExactly | packages/python/src/sox_protocol/adapters/backing_stores/memory/store.py:322-366 | a heartbeat appends a message from the server on the presence channel |
| StoreOperations.SubscribeExactly | packages/python/src/sox_protocol/adapters/backing_stores/memory/store.py:197-211 | a subscribed pattern is held from then on, once and after the others; nothing else changes |
| StoreOperations.UnsubscribeExactly | packages/python/src/sox_protocol/adapters/backing_stores/memory/store.py:282-320 | exactly the named patterns are given up, and exactly the messages waiting on a channel one of them matched become delivered |
| StoreOperations.RemovedAndKept | packages/python/src/sox_protocol/adapters/backing_stores/memory/store.py:288-305 | the patterns reported as removed are the held ones that were named, those left are the others, in the order they were held in |
| StoreOperations.DropExactly | packages/python/src/sox_protocol/adapters/backing_stores/memory/store.py:479-490 | leaving a group gives up exactly the subscription to it |
| StoreOperations.StartMarkIs | packages/python/src/sox_protocol/adapters/backing_stores/memory/store.py:248-252 | a watch starts at the highest id delivered to the agent, or at 0 |
| StoreOperations.PollExactly | packages/python/src/sox_protocol/adapters/backing_stores/memory/store.py:265-280 | a poll yields, in order and each once, exactly the waiting messages above the mark that a held pattern matches |
| StoreOperations.ReplayExactly | packages/python/src/sox_protocol/adapters/backing_stores/memory/store.py:405-419 | a replay returns messages of the channel within the bounds, by number and id; those left out come later, and more is announced exactly if there are any |
| StoreOperations.NegativeLimit | packages/python/src/sox_protocol/adapters/backing_stores/memory/store.py:418-419 | with a negative limit it leaves out that many from the end and always announces more |
| StoreModel.UndeliveredAfterMark | packages/python/src/sox_protocol/adapters/backing_stores/memory/store.py:192-193 | marking a batch removes exactly that batch from what the agent is owed |
| StoreModel.UndeliveredOfOthers | packages/python/src/sox_protocol/adapters/backing_stores/memory/store.py:192-193 | marking for one agent leaves every other agent's backlog alone |
| StoreModel.BatchProperties | packages/python/src/sox_protocol/adapters/backing_stores/memory/store.py:174-195 | a batch of either store is part of the backlog, without repetition, sorted, and as large as a positive limit allows |
| StoreModel.SameSizeIffPositiveLimit | packages/python/src/sox_protocol/adapters/backing_stores/sqlite/store.py:300-313 | the stores return equally many messages for every backlog exactly when the limit is at least one |
| StoreDrain.DrainsAgree | packages/python/src/sox_protocol/adapters/backing_stores/sqlite/store.py:274-327 | draining to empty takes both stores the same number of calls with batches of the same sizes, each returns every pending message exactly once, and with monotone send times every channel arrives in log order from both |
| StoreDrain.DrainsBelowOne | packages/python/src/sox_protocol/adapters/backing_stores/sqlite/store.py:300-313 | for a limit below one the memory store returns nothing and SQLite still drains everything |
| StoreDrain.SqliteDrainSorted | packages/python/src/sox_protocol/adapters/backing_stores/sqlite/store.py:287-313 | the SQLite drain hands out the whole backlog in sorted order, whatever the limit |
| StoreDrain.SqliteAscendingIffMonotone | packages/python/src/sox_protocol/adapters/backing_stores/sqlite/store.py:287-313 | it delivers every channel in id order exactly when send times do not decrease within a channel |
| StoreDrain.MemoryAscendingIff | packages/python/src/sox_protocol/adapters/backing_stores/memory/store.py:170-196 | with a given limit the memory store's drain delivers every channel in id order exactly when the send times are monotone within each piece of that many pending messages |
| StoreDrain.MemoryAscendingIffMonotone | packages/python/src/sox_protocol/adapters/backing_stores/memory/store.py:170-196 | it does so with every limit exactly when they are monotone throughout |
| StoreDrain.BatchesDiffer | packages/python/src/sox_protocol/adapters/backing_stores/memory/store.py:174-191 | single batches of the two stores can differ |
| StoreRuns.RunDense | packages/python/src/sox_protocol/adapters/backing_stores/memory/store.py:133-148 | in every reachable state ids are 1..n in log order and the numbers of each channel are exactly 1..k with k its counter, heartbeat messages included |
| StoreRuns.DeliveryAccount | packages/python/src/sox_protocol/adapters/backing_stores/memory/store.py:164-305 | over any run the messages marked delivered to an agent number exactly those returned to it plus those reported cleared |
| StoreRuns.SettledOnce | packages/python/src/sox_protocol/adapters/backing_stores/memory/store.py:164-305 | no message is returned or cleared twice for the same agent in a run |
| StoreClearing.ClearRowsMarks | packages/python/src/sox_protocol/adapters/backing_stores/sqlite/store.py:523-537 | clearing for a channel test marks exactly the agent's pending messages on those channels |
| StoreClearing.ClearInTurn | packages/python/src/sox_protocol/adapters/backing_stores/memory/store.py:293-302 | clearing for two tests in turn marks and counts the same as one pass for either, overlaps included |
| StoreReplay.DensePaging | packages/python/src/sox_protocol/adapters/backing_stores/memory/store.py:405-419 | in a dense store reading page after page from one past the last number reproduces the requested range, once and in order, for any limit of at least one |
| StoreReplay.PagingCompleteIffDistinct | packages/python/src/sox_protocol/adapters/backing_stores/sqlite/store.py:659-690 | paging is complete for every page size exactly when no two messages of the range share a number |
| StoreReplay.ZeroLimit | packages/python/src/sox_protocol/adapters/backing_stores/memory/store.py:418-419 | limit 0 returns nothing and announces more exactly when the range is not empty |
| StoreWatch.WatchYieldsOnce | packages/python/src/sox_protocol/adapters/backing_stores/memory/store.py:246-280 | one watch never yields a message twice, nor one at or below its starting mark, whatever happens to the store between polls |
| StoreWatch.WatchComplete | packages/python/src/sox_protocol/adapters/backing_stores/memory/store.py:246-280 | on logs that only grow for the agent, under fixed subscriptions, the polls together yield exactly the matching undelivered messages above the starting mark |
| WatchRuns.StepGrows | packages/python/src/sox_protocol/adapters/backing_stores/memory/store.py:119-305 | an operation that settles nothing for the agent only appends to what the agent sees |
| WatchRuns.WatchNeverRepeats | packages/python/src/sox_protocol/adapters/backing_stores/memory/store.py:246-280 | in any run of store operations, polling at any moments, a watch yields no message twice |
| WatchRuns.WatchCompleteOverRun | packages/python/src/sox_protocol/adapters/backing_stores/memory/store.py:246-280 | over any run in which the agent neither receives nor changes its subscriptions, the polls together yield exactly what is pending above the starting mark at the last poll, each once |
| GroupOperations.CreateExactly | packages/python/src/sox_protocol/adapters/backing_stores/memory/store.py:421-436 | a creation leaves the creator alone in the group, active, and other groups alone |
| GroupOperations.InviteExactly | packages/python/src/sox_protocol/adapters/backing_stores/memory/store.py:438-458 | an active member's invitation appends the invitee unless listed; anybody else's changes nothing |
| GroupOperations.JoinExactly | packages/python/src/sox_protocol/adapters/backing_stores/memory/store.py:460-477 | a join makes the agent's first pending invitation active and changes no other entry |
| GroupOperations.LeaveExactly | packages/python/src/sox_protocol/adapters/backing_stores/memory/store.py:479-490 | a leave removes exactly the agent's entries; the others stay unchanged and in order |
| GroupOperations.LeaverGone | packages/python/src/sox_protocol/adapters/backing_stores/memory/store.py:479-490 | so the agent is not listed afterwards, and everybody else is listed and active as before |
| Groups.NoAgentTwice | packages/python/src/sox_protocol/adapters/backing_stores/memory/store.py:421-490 | in every reachable table no agent appears twice in a member list |
| Groups.MembershipHasOrigin | packages/python/src/sox_protocol/adapters/backing_stores/memory/store.py:421-490 | everybody listed is linked to the creator by a chain of invitations since the group's last creation, each by a then-active member; an active member has accepted |
| MemoryBackingStore.MemoryStore.Send | packages/python/src/sox_protocol/adapters/backing_stores/memory/store.py:119-162 | appends one message with the next id and the next number of its channel, keeping the store dense; the depth counts the channel's messages nobody received |
| MemoryBackingStore.MemoryStore.Heartbeat | packages/python/src/sox_protocol/adapters/backing_stores/memory/store.py:337-359 | the presence message is appended like a sent one |
| MemoryBackingStore.MemoryStore.Subscribe | packages/python/src/sox_protocol/adapters/backing_stores/memory/store.py:197-211 | adds the pattern once and returns, sorted, exactly the known channels it matches |
| MemoryBackingStore.MemoryStore.Select | packages/python/src/sox_protocol/adapters/backing_stores/memory/store.py:175-188 | the scan that stops early finds the first `max` pending messages in log order |
| MemoryBackingStore.MemoryStore.Recv | packages/python/src/sox_protocol/adapters/backing_stores/memory/store.py:164-195 | refines the abstract receive with the memory store's batch rule |
| MemoryBackingStore.MemoryStore.ClearPatterns | packages/python/src/sox_protocol/adapters/backing_stores/memory/store.py:289-304 | the nested loops split the subscriptions into removed and kept, and discard and count the backlog of all removed ones together |
| MemoryBackingStore.MemoryStore.Unsubscribe | packages/python/src/sox_protocol/adapters/backing_stores/memory/store.py:282-305 | refines the abstract unsubscribe: same new state, removed patterns and count as one pass over the log |
| MemoryBackingStore.MemoryStore.WatchStart | packages/python/src/sox_protocol/adapters/backing_stores/memory/store.py:248-252 | the mark is the highest id delivered to the agent, 0 if none |
| MemoryBackingStore.MemoryStore.WatchPoll | packages/python/src/sox_protocol/adapters/backing_stores/memory/store.py:265-280 | a poll yields, sorted, the pending subscribed messages above the mark and moves the mark to the highest of them |
| MemoryBackingStore.MemoryStore.GroupCreate | packages/python/src/sox_protocol/adapters/backing_stores/memory/store.py:421-436 | the group restarts with its creator as only member, who is subscribed to it once |
| MemoryBackingStore.MemoryStore.GroupInvite | packages/python/src/sox_protocol/adapters/backing_stores/memory/store.py:438-458 | refused without effect unless the inviter is an active member; a listed agent is not listed again |
| MemoryBackingStore.MemoryStore.GroupJoin | packages/python/src/sox_protocol/adapters/backing_stores/memory/store.py:460-477 | a pending invitation becomes a membership, the agent is subscribed, and the active members are counted |
| MemoryBackingStore.MemoryStore.GroupLeave | packages/python/src/sox_protocol/adapters/backing_stores/memory/store.py:479-490 | the agent and its subscription to the group are gone, everything else stays |
| SqliteBackingStore.SortedScan | packages/python/src/sox_protocol/adapters/backing_stores/sqlite/store.py:287-313 | scanning the sorted table finds the pending messages in sorted order: filtering and sorting commute |
| SqliteBackingStore.ScanBeyond | packages/python/src/sox_protocol/adapters/backing_stores/sqlite/store.py:470-489 | restricting the table to newer ids first, or the backlog afterwards, is the same |
| SqliteBackingStore.MaxSeqIsCounter | packages/python/src/sox_protocol/adapters/backing_stores/sqlite/store.py:213-220 | in a dense store the maximum number of a channel is the counter the memory store keeps |
| SqliteBackingStore.RacingSendsShareNumber | packages/python/src/sox_protocol/adapters/backing_stores/sqlite/store.py:213-236 | two sends that both read the maximum before either inserts share a number, and some page size then loses a message |
| SqliteBackingStore.DeletedPatterns | packages/python/src/sox_protocol/adapters/backing_stores/sqlite/store.py:513-518 | deleting the removed rows leaves every other agent's patterns and the agent's kept ones, in order |
| SqliteBackingStore.SqliteStore.Send | packages/python/src/sox_protocol/adapters/backing_stores/sqlite/store.py:197-246 | a send nothing interleaves with does what the abstract send does, and reports as depth the channel's messages before it |
| SqliteSends.DenseIffUndisturbed | packages/python/src/sox_protocol/adapters/backing_stores/sqlite/store.py:213-236 | in every interleaving of sends as reads and insertions, every channel is numbered 1..k in order exactly when no message was inserted into a send's channel between its read and its insertion |
| SqliteSends.InsertedRow | packages/python/src/sox_protocol/adapters/backing_stores/sqlite/store.py:210-236 | an insertion stores the send's own fields under the next row id, with the number after the highest one of its channel at the read |
| SqliteBackingStore.SqliteStore.Subscribe | packages/python/src/sox_protocol/adapters/backing_stores/sqlite/store.py:329-350 | every agent's patterns become those of the abstract subscribe; exactly the known matching channels are returned, each once |
| SqliteBackingStore.SqliteStore.Select | packages/python/src/sox_protocol/adapters/backing_stores/sqlite/store.py:300-313 | takes the first `max` pending rows of the sorted table, and at least one |
| SqliteBackingStore.SqliteStore.Recv | packages/python/src/sox_protocol/adapters/backing_stores/sqlite/store.py:266-327 | refines the abstract receive with SQLite's batch rule |
| SqliteBackingStore.SqliteStore.Unsubscribe | packages/python/src/sox_protocol/adapters/backing_stores/sqlite/store.py:496-539 | log, every agent's patterns, removed patterns and count are those of the abstract unsubscribe |
| SqliteBackingStore.SqliteStore.ClearAll | packages/python/src/sox_protocol/adapters/backing_stores/sqlite/store.py:526-537 | one pass marks exactly the pending messages on wanted channels and counts them |
| SqliteBackingStore.SqliteStore.WatchStart | packages/python/src/sox_protocol/adapters/backing_stores/sqlite/store.py:438-456 | the same starting mark as the memory store's |
| SqliteBackingStore.SqliteStore.WatchPoll | packages/python/src/sox_protocol/adapters/backing_stores/sqlite/store.py:406-490 | yields the same batch and reaches the same mark as a poll of the memory store on the same state |
| Listener.MessageListener.Put | packages/python/src/sox_protocol/core/mcp_server/listener.py:115-116 | a watched message joins the end of the queue |
| Listener.MessageListener.Drain | packages/python/src/sox_protocol/core/mcp_server/listener.py:136-155 | takes the first `max` messages, or all, and leaves the rest |
| Listener.MessageListener.ChannelsRecv | packages/python/src/sox_protocol/core/mcp_server/tools.py:236-251 | returns the drained messages on the wanted channels and requeues the others; everything ever put is returned or still queued |
| Listener.ReceiveExactly | packages/python/src/sox_protocol/core/mcp_server/tools.py:236-251 | the first messages up to the limit are taken: those of the named channels, or all, are returned in order, and the others put back behind the rest, the last one first |
| Listener.Conservation | packages/python/src/sox_protocol/core/mcp_server/tools.py:236-251 | over any mix of puts and filtered drains, what was put is, as a multiset, what was returned plus what is queued |
| Listener.ReceiveByPlaces | packages/python/src/sox_protocol/core/mcp_server/tools.py:236-251 | which places of the old queue the new queue is made of, for any queue |
| Listener.OrderKeptIff | packages/python/src/sox_protocol/core/mcp_server/tools.py:242-250 | these places are in order exactly when nothing is requeued, or one message into an otherwise empty queue |
| Listener.OrderLost | packages/python/src/sox_protocol/core/mcp_server/tools.py:249-250 | a queue whose two messages change places although neither is returned |
| Recovery.SeqState.Load | examples/reference-agent/state.py:42-60 | a missing or corrupt file reads as no cursors |
| Recovery.SeqState.Update | examples/reference-agent/state.py:92-103 | changes one entry and no other; of a missing or corrupt file only the new entry is left |
| Recovery.Agent.HandlePage | examples/reference-agent/agent.py:606-617 | every message of a page is handled in order and the cursor ends at the last one's number |
| Recovery.Agent.RecoverChannel | examples/reference-agent/agent.py:586-617 | for any page limit of two or more the loop terminates, handles the backlog as described by the next rows and leaves the cursor at its last number |
| Recovery.Agent.RecoverFromState | examples/reference-agent/agent.py:559-619 | every channel of the file is recovered in turn, and file and in-memory cursors agree afterwards; without cursors nothing is handled and the file stays as it is |
| Recovery.ChannelByChannel | examples/reference-agent/agent.py:579-620 | the channels are recovered one after the other, in the order of the file |
| Recovery.RecoversEverythingIff | examples/reference-agent/agent.py:559-619 | every message above the cursors, an absent one read as 0, is handled exactly when every channel that holds a message has an entry |
| Recovery.LostFileReplaysIff | examples/reference-agent/state.py:42-60 | after a missing or corrupt file nothing is handled, which is everything exactly for an empty log |
| Recovery.CorruptFileLosesMessage | examples/reference-agent/state.py:42-60 | a corrupt file and a log whose one message recovery does not handle |
| Recovery.HandledHowOften | examples/reference-agent/agent.py:592-617 | every missed message is handled, once, or twice if it ended a page that was not the last |
| Recovery.HandledInOrder | examples/reference-agent/agent.py:606-617 | messages are handled in nondecreasing sequence order |
| Recovery.OnlyBacklogHandled | examples/reference-agent/agent.py:592-617 | exactly the messages of the backlog are handled |
| Recovery.MissedNumbers | examples/reference-agent/agent.py:591-596 | in a dense channel the backlog is exactly what is numbered above the cursor |
| Recovery.CursorReachesEnd | examples/reference-agent/agent.py:612-617 | recovery leaves the cursor at the channel's last number, or where it was if that is further |
| Recovery.LoopEndsIff | examples/reference-agent/agent.py:586-617 | for any page limit the loop ends exactly when the limit is at least two or not below the number of missed messages |
| RecoveryCrashes.NothingSkippedEver | examples/reference-agent/agent.py:586-617 | at every moment of every run with crashes and restarts anywhere, everything numbered up to the persisted cursor has been handled |
| RecoveryCrashes.CursorNeverDecreases | examples/reference-agent/agent.py:612-617 | the persisted cursor never goes back in such a run |
| RecoveryCrashes.FinishedMeansAllHandled | examples/reference-agent/agent.py:586-619 | when recovery finishes, however often it crashed, everything missed has been handled |
| RecoveryCrashes.HandledAtMost | examples/reference-agent/agent.py:589-620 | in a run with n crashes no message is handled more than n + 1 times, or twice without a crash |
| RecoveryCrashes.BoundReached | examples/reference-agent/agent.py:608-620 | for every n a run with n crashes handles a message n + 1 times |
| RecoveryCrashes.UnbrokenRunIsTheLoop | examples/reference-agent/agent.py:586-619 | a finished run of the small steps without a crash has handled exactly what the loop hands over |
| Verifier.IdentityVerifier.PruneReplayCache | packages/python/src/sox_protocol/core/identity/verifier.py:81-89 | exactly the entries seen before now minus the window are dropped |
| Verifier.IdentityVerifier.CheckAndInsertNonce | packages/python/src/sox_protocol/core/identity/verifier.py:91-111 | prunes, refuses a nonce still present, otherwise records it with the reading |
| Verifier.IdentityVerifier.Verify | packages/python/src/sox_protocol/core/identity/verifier.py:134-258 | each verdict is returned exactly when its check is the first to fail; acceptance has recorded the nonce with the reading; any refusal but a replay changes nothing, and a replay refusal only drops expired nonces |
| Verifier.EverySectionExplained | packages/python/src/sox_protocol/core/identity/verifier.py:91-111 | in every interleaving of concurrent calls a locked section accepts its nonce exactly when every earlier acceptance of it is followed, up to this section, by a reading more than the window later |
| Verifier.ReplayNeedsExpiry | packages/python/src/sox_protocol/core/identity/verifier.py:171-258 | a nonce first accepted with reading t is accepted again only if a later section, possibly that of the second acceptance, ran with a reading beyond t plus the window |
| Verifier.FailureAddsNothing | packages/python/src/sox_protocol/core/identity/verifier.py:171-258 | no step of a call that does not end in acceptance adds a nonce |
| Verifier.VerdictAsDocumentedIff | packages/python/src/sox_protocol/core/identity/verifier.py:218-248 | the verdict is the one of the documented order of checks unless a replayed request carries a bad signature |
| Verifier.RefusalKeepsCacheIff | packages/python/src/sox_protocol/core/identity/verifier.py:81-111 | a call is refused as a replay exactly when its request passes the screen, authenticates and its nonce is still held, and a refused call leaves the cache unchanged exactly when that is not so or no entry has expired |
| Verifier.RefusalDropsEntry | packages/python/src/sox_protocol/core/identity/verifier.py:81-111 | a replayed request whose refusal drops another entry |
| Verifier.RunAttributed | packages/python/src/sox_protocol/core/identity/verifier.py:171-248 | in every run each section is that of a call whose request passed the screen with that reading, and each accepted call has one |
| Verifier.NoSecondAcceptance | packages/python/src/sox_protocol/core/identity/verifier.py:171-248 | in a run whose sections are in the order of their readings, a request not dated after its first acceptance is not accepted again |
| Verifier.AtomicCallsInOrder | packages/python/src/sox_protocol/core/identity/verifier.py:171-248 | calls that nothing interleaves with and a clock that never goes back give such runs |
| Verifier.AcceptedTwiceWasFutureDated | packages/python/src/sox_protocol/core/identity/verifier.py:171-248 | with atomic calls and such a clock, two accepted calls for one request mean that it is dated after the first reading |
| Verifier.FutureDatedIffReplayable | packages/python/src/sox_protocol/core/identity/verifier.py:171-248 | some run of atomic calls with such a clock accepts a request twice, first with a given reading, exactly when it is dated after that reading |
| Verifier.StaleReadingReplay | packages/python/src/sox_protocol/core/identity/verifier.py:171-248 | a run of three concurrent calls in which a request that is not future-dated is accepted twice |
| Migration.ChainFor | packages/python/src/sox_protocol/adapters/backing_stores/sqlite/migration_runner.py:194-236 | returns consecutive links from the recorded version to the target, refuses exactly the downgrades, and reports no path only when there is none |
| Migration.MigrationRunner.ApplyMigration | packages/python/src/sox_protocol/adapters/backing_stores/sqlite/migration_runner.py:131-191 | a step makes its script, unless its change is looked for and found, and its record; a crash leaves it undone or done without record |
| Migration.MigrationRunner.Migrate | packages/python/src/sox_protocol/adapters/backing_stores/sqlite/migration_runner.py:239-296 | for any target: the database is where a run with that budget of writes leads, and a run that does not crash would do no more with a larger one |
| MigrationTargets.RunMakes | packages/python/src/sox_protocol/adapters/backing_stores/sqlite/migration_runner.py:239-296 | a run with enough writes leaves a database at the target alone, only records the target for an untracked one with the marker, and otherwise makes exactly the steps from where it stands to the target, each script once and in order unless its change is found, or nothing if the target does not lie ahead |
| MigrationTargets.RunCutShort | packages/python/src/sox_protocol/adapters/backing_stores/sqlite/migration_runner.py:131-191 | a run that crashes has made exactly its writes, in the same order: each step's script, unless its change was found, then its record |
| MigrationTargets.OlderIff | packages/python/src/sox_protocol/adapters/backing_stores/sqlite/migration_runner.py:194-236 | versions are compared by the first component in which they differ |
| Migration.RunIsWrites | packages/python/src/sox_protocol/adapters/backing_stores/sqlite/migration_runner.py:239-296 | in a sound configuration a run is that many single writes, each determined by the database alone |
| Migration.CrashesInvisible | packages/python/src/sox_protocol/adapters/backing_stores/sqlite/migration_runner.py:239-296 | however a migration is cut up by crashes, the database is where the total number of writes leads |
| Migration.RunsKeepProgress | packages/python/src/sox_protocol/adapters/backing_stores/sqlite/migration_runner.py:153-191 | after any crashes every script has run at most once, in chain order and only where its change was missing, and the recorded version has not gone back |
| Migration.MigrationCompletes | packages/python/src/sox_protocol/adapters/backing_stores/sqlite/migration_runner.py:239-296 | repeated runs that survive enough writes reach the latest version with every change present, exactly the missing ones made, each once, and a further run writes nothing |
| Migration.CompletesIffSound | packages/python/src/sox_protocol/adapters/backing_stores/sqlite/migration_runner.py:153-282 | for any contiguous chain this holds of every consistent database and every crash pattern exactly when every step's change is looked for and the marker is not the first of several steps |
| Migration.CompletesFromIff | packages/python/src/sox_protocol/adapters/backing_stores/sqlite/migration_runner.py:265-282 | the databases completed are exactly those with every change if untracked and marked, and every change before the recorded version if tracked |
| Migration.MarkerOnFirstStep | packages/python/src/sox_protocol/adapters/backing_stores/sqlite/migration_runner.py:265-282 | with the first of several steps as marker a crash makes a restarted run record the latest version with a later change missing, for good |
| Migration.UndetectedStepRunsTwice | packages/python/src/sox_protocol/adapters/backing_stores/sqlite/migration_runner.py:153-187 | a step whose change is not looked for runs its script twice after a crash in between |
| Migration.ShippedChainSound | packages/python/src/sox_protocol/adapters/backing_stores/sqlite/migration_runner.py:72-76 | the shipped chain, with its marker and its three detections, is contiguous and meets both conditions |
| Pipeline.PipelineRun.RunCall | packages/python/src/sox_protocol/core/middleware/pipeline.py:183-228 | the nested call terminates for arbitrary middleware and writes the trace the specification of the next rows describes |
| Pipeline.PipelineRun.Dispatch | packages/python/src/sox_protocol/core/middleware/pipeline.py:89-152 | a response comes back whatever happened: outside its metadata it is the chain's, a short-circuit's, or an internal error, and its metadata hold the trace |
| PipelineCalls.TerminalDecides | packages/python/src/sox_protocol/core/middleware/pipeline.py:183-192 | past the last layer a call ends as the terminal handler does |
| PipelineCalls.LayerConverses | packages/python/src/sox_protocol/core/middleware/pipeline.py:183-228 | a layer sees exactly what the chain below answers to each of its forwards, in order, and its call ends as it decides on that |
| PipelineCalls.SameConversation | packages/python/src/sox_protocol/core/middleware/pipeline.py:183-228 | what a layer sees is determined |
| PipelineCalls.PassedThrough | packages/python/src/sox_protocol/core/middleware/pipeline.py:183-228 | when every layer forwards once and passes back what it gets, the chain ends as the terminal handler does on the last context |
| PipelineCalls.TraceUnseen | packages/python/src/sox_protocol/core/middleware/pipeline.py:183-228 | how a call ends does not depend on the trace |
| PipelineCalls.DispatchEnds | packages/python/src/sox_protocol/core/middleware/pipeline.py:140-150 | a dispatch ends as the call of the chain from its first layer on |
| PipelineCalls.TraceNames | packages/python/src/sox_protocol/core/middleware/pipeline.py:120-137 | the trace has one entry for each layer, in order, with its name, its kind and the dispatch's correlation id |
| Pipeline.AttachKeepsResponse | packages/python/src/sox_protocol/core/middleware/pipeline.py:154-181 | attaching the trace changes only the metadata, and of a metadata dict only the two entries it owns |
| Pipeline.CallTouches | packages/python/src/sox_protocol/core/middleware/pipeline.py:183-228 | a call at layer i invokes an unbroken range of layers from i on, gives each a verdict and touches no other entry |
| Pipeline.SkippedSuffix | packages/python/src/sox_protocol/core/middleware/pipeline.py:126-152 | the entries left "skipped" form a suffix made of exactly the layers never invoked |
| Pipeline.ExceptionMarks | packages/python/src/sox_protocol/core/middleware/pipeline.py:200-226 | an ended call's entry records how it ended, and an exception raised at layer o is recorded by all layers from the call's down to o |
| Pipeline.UncaughtException | packages/python/src/sox_protocol/core/middleware/pipeline.py:139-152 | an uncaught short-circuit rejects layers 0 to its raiser with its error code, any other exception marks them errored, and the caller gets the short-circuit's response or an internal error |
| Pipeline.CallWrites | packages/python/src/sox_protocol/core/middleware/pipeline.py:200-226 | the entries after a call are determined by how the calls of each layer ended, in order |
| Pipeline.EntryTells | packages/python/src/sox_protocol/core/middleware/pipeline.py:200-226 | after a dispatch an entry's verdict is that of the layer's last call and its error code that of the last rejecting one, null if none |
| Pipeline.StaleCodeIff | packages/python/src/sox_protocol/core/middleware/pipeline.py:207-224 | an entry that is not rejected carries an error code exactly when its last call was not rejected and its last rejected one had a code |
| Pipeline.NoStaleCode | packages/python/src/sox_protocol/core/middleware/pipeline.py:207-224 | when no layer forwards twice no entry does |
| Pipeline.RetryLeavesCode | packages/python/src/sox_protocol/core/middleware/pipeline.py:207-212 | with a retrying layer an entry can say "passed" and carry the first attempt's code |
| ChannelCodec.RoundTrip | packages/python/src/sox_protocol/adapters/backing_stores/filesystem/store.py:59-69 | decoding undoes encoding for every string, escapes in it included |
| ChannelCodec.EncodeIsEscaped | packages/python/src/sox_protocol/adapters/backing_stores/filesystem/store.py:59-61 | the four passes together escape each special character once, and nothing else |
| ChannelCodec.EncodedCharByChar | packages/python/src/sox_protocol/adapters/backing_stores/filesystem/store.py:59-61 | the percent sign, both slashes and the colon become a percent sign and their code in upper-case hexadecimal, every other character stays |
| ChannelCodec.EncodeInjective | packages/python/src/sox_protocol/adapters/backing_stores/filesystem/store.py:59-69 | different channels get different directory names |
| ChannelCodec.EncodingIsSafe | packages/python/src/sox_protocol/adapters/backing_stores/filesystem/store.py:59-61 | an encoded name contains neither separator nor colon |
| ChannelCodec.EncodedNames | packages/python/src/sox_protocol/adapters/backing_stores/filesystem/store.py:59-69 | encoding after decoding gives a directory name back exactly when it is well escaped |
| Conformance.MatchReflexive | tools/conformance_runner.py:297-361 | without wildcards every value matches itself |
| Conformance.MatchTransitive | tools/conformance_runner.py:297-361 | without wildcards matching is transitive |
| Conformance.SubsetMatch | tools/conformance_runner.py:334-356 | further items and keys of the actual value are ignored, missing ones are not |
| Conformance.WildcardsMean | tools/conformance_runner.py:297-327 | each wildcard matches exactly the values of its type, a boolean being a number as well; a capture matches what equals the captured value, unless nothing or null was captured |
| Conformance.MatchAntisymmetric | tools/conformance_runner.py:297-361 | without wildcards two values match both ways exactly when they are equal |
| Conformance.EqualIffSameNumbers | tools/conformance_runner.py:358-361 | Python's equality identifies exactly the values that agree once booleans are written as numbers |
| Conformance.MatchBothWaysIff | tools/conformance_runner.py:297-361 | without wildcards two values match both ways exactly when they are the same up to that |
| Conformance.TrueMatchesOne | tools/conformance_runner.py:358-361 | equality here is Python's: true and 1 match both ways |
| Conformance.ResolvedMatches | tools/conformance_runner.py:373-385 | what matches with captures still matches after resolving them, for captured values without wildcards |
| Conformance.ResolvingIsExact | tools/conformance_runner.py:373-385 | resolving first changes no verdict, for any two values, exactly when every captured value that can be referred to is a scalar other than null |
| Enforcer.StateStore.Apply | packages/python/src/sox_protocol/core/enforcer/state.py:291-362 | one agent's counters are updated by the event's type and no other agent's |
| Enforcer.StateStore.Hook | packages/python/src/sox_protocol/enforcer/cli.py:289-294 | the decision is taken on the state before the event, which is then applied |
| Enforcer.SinceRecvIsLongest | packages/python/src/sox_protocol/core/enforcer/state.py:317-321 | what the counters count over is the longest end of the run without a receive |
| Enforcer.CountersCount | packages/python/src/sox_protocol/core/enforcer/state.py:317-330 | over any run the counters equal the numbers of tool, turn and send events since the last receive |
| Enforcer.InjectsAtThreshold | packages/python/src/sox_protocol/core/enforcer/decide.py:120-138 | a reminder is injected at a tool, turn or send event exactly when the counts since the last receive reach the thresholds; a stop is blocked exactly when the inbox is known to hold messages, or not known and something was sent since |
| Enforcer.ActionsExactly | packages/python/src/sox_protocol/core/enforcer/decide.py:112-200 | for every kind of event the one action taken, in terms of the counts since the last receive; nothing is done otherwise |
| Enforcer.BridgeMaps | packages/python/src/sox_protocol/enforcer/cli.py:226-242 | the bridge turns exactly the receiving and sending tools, under either name, into their own events |
| Enforcer.LastTimes | packages/python/src/sox_protocol/core/enforcer/state.py:317-330 | the stored times are those of the last receive and the last send |
| Enforcer.NoTimes | packages/python/src/sox_protocol/core/enforcer/state.py:317-330 | there is none as long as there was no such event |
| Enforcer.CountIsSize | packages/python/src/sox_protocol/core/enforcer/state.py:317-330 | the counts are the numbers of events of a kind |
| Enforcer.NoSilentStretch | packages/python/src/sox_protocol/core/enforcer/decide.py:131-138 | a stretch without a receive that holds threshold many tool events and ends in one gets its reminder there |
| Enforcer.OverlapDelays | packages/python/src/sox_protocol/enforcer/cli.py:289-294 | a hook whose event is applied after others it did not load decides without them: it differs from an undisturbed one exactly when the threshold is reached with them and not without |
| Enforcer.BridgeEventsAreBridged | packages/python/src/sox_protocol/enforcer/cli.py:226-242 | a run of tool events built by the bridge holds no receiving tool as a plain tool event |
| Enforcer.DecisionAgreesIff | packages/python/src/sox_protocol/core/enforcer/decide.py:120-138 | on a plain tool event decision and counter agree exactly when the tool is not a receiving one or the threshold is not reached anyway |

## Left out

- Transports, JSON-RPC, subprocesses, command lines, installers and the terminal interface: I/O and bookkeeping.
- Ed25519, JSON Schema, YAML, version specifiers: library behaviour. A signature check is a boolean input.
- `fnmatch`: an arbitrary predicate on channel and pattern, so the store theorems hold for any glob.
- Manifest validation and version checks in plugin loading: `manifests` are the validated ones; how they are read is not modelled.
- PluginOrder.HarmlessRepetition: one direction. Whether a repeated name breaks a constraint also depends on the alphabetical order of the names; `Arranged` says what is returned for every list. core/middleware/protocol.py calls names unique within a chain.
- A plugin's `kind`: a comment of the insertion announces it as a key of `must_run_before`, the code looks up names only.
- Acknowledgements, liveness records, `list_channels`, `list_agents`: no property beyond one branch each.
- Back-pressure threshold: a reported number nothing depends on.
- MemoryBackingStore.MemoryStore.Recv: `delivered_to` of a stored message is replaced as a value in the log; stored messages are never handed out, so no aliasing is lost.
- SqliteBackingStore.SqliteStore.Send: sends that interleave are modelled in `SqliteSends`, not in the class; row ids have no gaps.
- SqliteBackingStore.SqliteStore.Recv: `delivered_to` is a set instead of a JSON list, and the SELECT and the updates are one step.
- SQLite's group tables: the same code as the memory store's, on a field of the same shape.
- Timers, wake-up events and poll intervals of `watch`: a poll may happen at any time.
- Listener.MessageListener.ChannelsRecv: does not model the store `recv` dispatched after draining, nor stripping `_meta`; restarts of the listener after a store error and a bounded queue are not modelled either.
- Recovery.Agent.RecoverChannel: the handler does not raise, and the log does not grow while it is replayed; a failing handler is a crash in `RecoveryCrashes`. The page limit is at least two here; `LoopEndsIff` covers the others.
- Recovery.SeqState.Load: a file that parses as something other than an object makes the source raise, which is not modelled.
- RecoveryCrashes.NothingSkippedEver: one channel at a time; the file is replaced atomically.
- Cancellation and other `BaseException`s in verifier and pipeline; audit records of the verifier.
- Migration.MigrationRunner.Migrate: a script is one atomic write, and the chain is not empty; the .sql scripts are not part of this model.
- Pipeline.PipelineRun.RunCall: a layer forwards a bounded number of times per call and one call at a time; responses are dicts and are not changed after they are returned; time stamps are not modelled.
- Filesystem store: only its channel names.
- Conformance.ResolvingIsExact: the wildcard pattern is an arbitrary classifier of strings; NaN is not a value.
- Enforcer.StateStore.Hook: hooks of one agent that overlap are modelled in `OverlapDelays`, not in the class.
