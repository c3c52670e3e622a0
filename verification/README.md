# Chimera: the orchestrator protocol and the governance gates, proved

A Dafny model of the parts of Chimera whose behaviour is hardest to see by reading one function: the two
concurrent pieces of `chimera-cli`, and the scanners, searches, ledgers and generators that guard the
repository.

- **The action orchestrator** (`ActionOrchestrator`, `CompactOrdering`, `Subscribers`). A receive loop over one
  broadcast bus spawns a detached job per request; the jobs interleave, publish their replies on the same bus, and
  the receiver may lag or stop. The model is a step system: what went over the wire, the receiver's bounded queue,
  events still held by shards, the jobs with their stages, and every publication attempted. A publication always
  answers Ok: it goes to a shard, or straight to the channel, where a pressure latch may drop it. Another
  subscriber reads the same channel at its own pace and may lag.
- **Call budgets** (`CallBudget`). One future raced against a cancellation token and a timer, under every
  schedule of polls, ticks and cancellations, with the random starting branch of `tokio::select!`.
- **The streaming scanners** (`ScopeLines`, `Tokens`, `BlockScopes`, `AwaitGuard`, `AwaitGuardScopes`, `HeldGuards`,
  `SubscribeOrder`, `Reentrancy`, `LineNoise`, `NoiseLexer`, `OffenderCount`). One pass with depth stacks and
  carried state, each proved equal to a definition that looks at whole ranges of lines at once; then what it reports
  is compared with the block that is really open and the guard that is really held at the token in question.
- **The crate contract** (`TextLines`, `CrateContract`, `ContractText`, `ContractCheck`). A header printer, an
  installer and a parser over real text, with BOM, CRLF and LF.
- **Graph gates** (`Graphs`, `CrateReachability`, `TestSurface`, `ArchitectureViews`). A stack search, a module
  worklist, and the layer law over whole dependency paths.
- **Ledgers and arithmetic** (`Tallies`, `ResidueLedger`, `CoverageGate`, `PerfRedlines`).

Loops of the tools are methods with loops here, each proved against a function or a condition on its inputs; the
theorems are lemmas about those. Regular expressions are given by what they find on a line (a token, a column, a
yes or no), except in the two noise lexers and the contract parser, where the text itself is modelled. Brace
depth, line numbers and counts are unbounded integers, as in the tools.

Where code and promise differ, the code is modelled and the exact condition is proved:

- `route_action` promises that the history event is ready when the Completed event is consumed. Publication is
  attempted in that order, but a sharded bus can deliver the history later, and a bus whose trigger level its full
  channel can reach may drop it while answering Ok (`CompactOrdering.HistoryIsSentFirstIff`). So a subscriber that
  misses nothing has the history in every run exactly when the bus does neither, or nothing is ever compacted
  (`Subscribers.AttentiveSeesHistoryIff`); a subscriber that lags can lose the history and then take in the report
  on any bus, so for all subscribers only a deployment that never compacts keeps the promise
  (`Subscribers.EveryoneSeesHistoryIff`).
- `call_with_budget` promises Ok for a future that finishes within the budget. The race starts at a random
  branch, so a late wake-up can still report a timeout (`CallBudget.RoundAnswersIff`,
  `CallBudget.ReadyInTimeMayTimeOut`).
- The await gate promises that a block scope or a `drop` releases its guard. It looks at the depth at line ends and
  at the first `drop` of a line, and tests the awaits of a line before its drops and its locks: `} else {`,
  `drop(a); drop(b);`, `}.await` and `let g = m.lock(); drop(g);` all leave a false report, and an await on the lock's
  own line is missed (`HeldGuards.ErrorsIff`). The lines that are read right among all lines read right are
  characterised exactly (`HeldGuards.LineIsReadRightIff`, `HeldGuards.CleanFileIsRight`).
- The subscribe gate promises to see subscribes inside a spawned closure and not to blame forwarding spawns. It
  counts the braces of the whole spawn line and the depth at line starts: a spawn is judged right on its own line and
  on all that follow exactly when a subscribe behind the spawn call stands in the closure, and no brace stands open
  or closed in front of the closure's own, or the line leaves none open (`SubscribeOrder.SpawnIsJudgedRightIff`).
  Otherwise wrong blame needs a line that closes the closure and reopens, or closes it before its first subscribe
  (`SubscribeOrder.OnlyClosedClosuresAreBlamedIff`). A forwarding spawn can blame the caller exactly when a
  subscribe stands behind it or its line leaves a brace open (`SubscribeOrder.ForwardingBlamesIff`).
- The reentrancy rule follows a guard for its scope; it counts the braces of the acquiring line as if all of them
  stood around the guard, and looks at line starts (`Reentrancy.MutationIsJudgedRightIff`,
  `Reentrancy.OnlyClosedScopesOverrunIff`).
- The lint ratchet's comment promises that `r"..."` is read as a raw string; backslashes still escape in it
  (`NoiseLexer.BareRawStringClosesIff`). A test attribute is promised to exempt the item it is attached to; an
  item without a body hands the exemption on (`OffenderCount.RegionOpensAtBodyIff`, `OffenderCount.RegionIsBodyIff`,
  `OffenderCount.BracelessItemHidesProduction`).
- The contract installer promises to work byte for byte in files that mix CRLF and LF; refreshing a block there
  can delete text around it (`ContractText.RefreshIsLosslessIff`, `ContractText.MixedEndingsLoseText`). A block on
  one line makes the harvester skip the rest of the file (`ContractCheck.OneLineIsKeptIff`). A block whose END
  precedes its BEGIN is accepted once and refused ever after (`CrateContract.InstallIsIdempotentIff`). The
  parser reads field lines of the whole file, the last one winning, and breaks lines where the harvester does not,
  at form feeds and U+2028 for instance (`ContractCheck.RoundTripIff`).
- The reachability gate calls a crate feature-gated when any optional edge names it, even from a crate that no
  build contains (`CrateReachability.EscapesIff`); and it blames a crate that only feature-gated crates need, though
  it advises to repay debt by feature gates (`CrateReachability.BlamedIff`).
- The test surface gate lets an undeclared `tests/foo.rs` displace a declared target named `foo`
  (`TestSurface.DeclaredSourceSurvivesIff`).
- The layer check skips edges with an unlayered end, so a path may climb through unlayered crates
  (`ArchitectureViews.RisesIffBridge`).
- A coverage floor row without a number switches the crate's floor off instead of falling back to the default
  (`CoverageGate.CrateIsGuardedIff`).
- The keyword overlap list asks for two different keywords and misses a keyword two keys share
  (`PerfRedlines.EmptyOverlapListMissesShared`).

## Model

| member | source | states |
|---|---|---|
| `ActionOrchestrator.ResolveQuestIdNeverGuesses` | crates/chimera-cli/src/action_orchestrator.rs:323-335 | A target is resolved exactly when it is named with a non-empty id, or when there is precisely one candidate |
| `ActionOrchestrator.ResolveQuestIdRefusesIff` | crates/chimera-cli/src/action_orchestrator.rs:330-334 | Without a non-empty id, no quest is refused as such and several are refused as ambiguous, and nothing else is refused |
| `ActionOrchestrator.RouteCallsIff` | crates/chimera-cli/src/action_orchestrator.rs:136-317 | An engine or bridge call is made exactly when it is the action's own and its inputs are supplied, and on exactly those inputs |
| `ActionOrchestrator.RouteCompactsIff` | crates/chimera-cli/src/action_orchestrator.rs:264-278 | Without a call only a known compact request gets past routing: to a replacement iff there are messages, else to an honest no-op; everything else fails |
| `ActionOrchestrator.RouteRefusesIff` | crates/chimera-cli/src/action_orchestrator.rs:136-317 | For every reason: routing refuses with it exactly when it applies to the action, its query, arguments and quest id, the quests, the corpus and what was injected |
| `ActionOrchestrator.RouteShape` | crates/chimera-cli/src/action_orchestrator.rs:136-317 | Whatever the payload and the engine's state, routing leads to a stage its action may be in: no engine call outside the action's own, no outcome it cannot honestly report |
| `ActionOrchestrator.StepKeepsInv` | crates/chimera-cli/src/action_orchestrator.rs:361-396 | Every step of every interleaving keeps the invariant: each job's publications fit its stage, replies balance receptions, and no event offered to the receiver vanishes |
| `ActionOrchestrator.Reachable` | crates/chimera-cli/src/action_orchestrator.rs:354-396 | The invariant holds in every reachable state |
| `ActionOrchestrator.LedgerBalances` | crates/chimera-cli/src/action_orchestrator.rs:85-127 | For every (request id, action id) in every reachable state: requests received = jobs in flight + replies attempted, also after lag and after the loop has stopped |
| `ActionOrchestrator.SpawnsAreReceptions` | crates/chimera-cli/src/action_orchestrator.rs:361-382 | One job per received request, in order of reception; replies re-entering the queue never start one |
| `ActionOrchestrator.NothingVanishes` | crates/chimera-cli/src/action_orchestrator.rs:384-393 | Everything the receiver was offered was received, is queued, or was lost to lag or shutdown |
| `ActionOrchestrator.OnlyOldestAreLost` | crates/chimera-cli/src/action_orchestrator.rs:384-393 | In every reachable state the running loop still has the latest events it was offered, and it lags only behind a full queue |
| `ActionOrchestrator.AliveUntilStop` | crates/chimera-cli/src/action_orchestrator.rs:384-394 | A run leaves the loop alive exactly when it holds no stop: a skipped lag does not end it |
| `ActionOrchestrator.LagCountsLost` | crates/event-bus/src/bus.rs:1672-1679 | Between two reports the lag grows by one for every event lost |
| `ActionOrchestrator.OnlyStopCostsTheQueue` | crates/chimera-cli/src/action_orchestrator.rs:386-394 | Skipping a lag costs nothing more and keeps the queue; stopping loses exactly what is still queued |
| `ActionOrchestrator.SlotsAreLeastPower` | crates/event-bus/src/bus.rs:531 | The channel holds the least power of two that is at least its capacity |
| `ActionOrchestrator.BusCarriesAll` | crates/event-bus/src/bus.rs:432-498 | The bus makes up nothing, and without downsampling loses nothing: what was published is on the channel or in a shard, as often as it was published |
| `ActionOrchestrator.ShardsKeepOrder` | crates/event-bus/src/shard.rs:52-55 | Whatever is merged when, each shard forwards its events in order |
| `ActionOrchestrator.PressureLetsEveryNthPass` | crates/event-bus/src/bus.rs:626-644 | While the latch is engaged critical events all go out, and of the others those whose number is a multiple of the modulus |
| `ActionOrchestrator.LatchHasADeadZone` | crates/event-bus/src/backpressure.rs:125-143 | The latch engages from the trigger level on, lets go from the release level down, and between the two keeps its state |
| `ActionOrchestrator.ExactlyOneReply` | crates/chimera-cli/src/action_orchestrator.rs:102-126 | A job publishes its one reply as its last publication, echoing its own request's ids; before that it has published none |
| `ActionOrchestrator.RepliesAreEarned` | crates/chimera-cli/src/action_orchestrator.rs:85-127 | Every reply answers a request really received, and a Completed only claims what its action can do: task actions and unknown ones are never completed |
| `ActionOrchestrator.OutcomeIsRouted` | crates/chimera-cli/src/action_orchestrator.rs:85-127 | The stage of every job in every reachable state follows from its own routing: a call reports its own result, a refusal its reason, and Completed presupposes supplied inputs |
| `ActionOrchestrator.RefusalsAreReported` | crates/chimera-cli/src/action_orchestrator.rs:102-126 | A job replies with a reason of routing only if it applies to what routing saw, and when one applies it replies with that one |
| `ActionOrchestrator.ReportsAreTrue` | crates/chimera-cli/src/action_orchestrator.rs:102-126 | In every run: a job saw the world it began in; it says finished exactly when its call came back with success, failed when with an error, timed out when its budget ran out and that was published, compacted when it published the history |
| `ActionOrchestrator.CompactReplacesThenReports` | crates/chimera-cli/src/action_orchestrator.rs:264-313 | A compact job publishes a history event exactly when it found a provider, a known policy and messages; once ended it has then published two events, the history and the Completed after it |
| `ActionOrchestrator.InternalStepDescends` | crates/chimera-cli/src/action_orchestrator.rs:361-394 | A measure over the queue, held events and job stages goes down with every step the orchestrator takes by itself |
| `ActionOrchestrator.RunIsPaidFor` | crates/chimera-cli/src/action_orchestrator.rs:361-394 | From any state satisfying the invariant, internal steps are paid for by the measure and by external publications |
| `ActionOrchestrator.RunsAreBounded` | crates/chimera-cli/src/action_orchestrator.rs:361-394 | A run with x external publications takes at most (4 * emissions per call + 13) * x internal steps |
| `ActionOrchestrator.StuckIsQuiescent` | crates/chimera-cli/src/action_orchestrator.rs:361-394 | No internal step is possible exactly when everything is drained and every job has ended: there is no deadlock |
| `ActionOrchestrator.QuiescentIsSettled` | crates/chimera-cli/src/action_orchestrator.rs:85-127 | At rest the replies attempted are the requests received, key by key |
| `CompactOrdering.RunsKeepOrder` | crates/chimera-cli/src/action_orchestrator.rs:279-301 | On a bus that does not shard and cannot come to drop an event, every compact report on the wire follows its own history event, in every run |
| `CompactOrdering.LateHistory` | crates/event-bus/src/bus.rs:432-498 | For every deployment that can compact on any other bus, a run from the start in which the report reaches the wire without its history event: held back by a shard, or dropped once the channel has filled up to the trigger level |
| `CompactOrdering.ShardsOvertake` | crates/event-bus/src/shard.rs:279-280 | History and report fall into different shards: on every sharded bus a run in which both are sharded and the report is merged first |
| `CompactOrdering.BecomesDropping` | crates/event-bus/src/backpressure.rs:125-143 | Wherever the full channel reaches the trigger level, some run engages the pressure latch with the next event due to be dropped |
| `CompactOrdering.HistoryIsSentFirstIff` | crates/chimera-cli/src/action_orchestrator.rs:279-301 | In every run the channel gets each history before its report exactly when the deployment cannot compact, or the bus does not shard and its downsampling, if any, lets every event pass or has a trigger level the full channel cannot reach |
| `Subscribers.OnlyLagLosesHistory` | crates/chimera-cli/src/action_orchestrator.rs:129-135 | On a bus that neither shards nor drops, in every run and at every pace of reading, whoever takes in a compact report has taken in its history before, or has lost it to lag |
| `Subscribers.LagHidesHistory` | crates/chimera-cli/src/action_orchestrator.rs:129-135 | On such a bus of any capacity, a run in which a lagging subscriber takes in the report and never the history |
| `Subscribers.AttentiveSeesHistoryIff` | crates/chimera-cli/src/action_orchestrator.rs:129-135 | Every subscriber that has lost nothing has the history when it takes in the report, in all runs, exactly when the bus neither shards nor can come to drop an event, or the deployment cannot compact |
| `Subscribers.EveryoneSeesHistoryIff` | crates/chimera-cli/src/action_orchestrator.rs:129-135 | With lag allowed the same holds in all runs exactly when the deployment cannot compact |
| `CallBudget.RunsKeepInv` | crates/chimera-cli/src/call_budget.rs:91-142 | Under every schedule: one drop on return, at most one publish, only after the budget elapsed, and a returned value is the last poll's |
| `CallBudget.ResultIsJustified` | crates/chimera-cli/src/call_budget.rs:65-90 | Ok(v) only if the last poll gave v and all others were pending; Timeout only after a positive budget elapsed, with exactly one publish; Cancelled only if cancelled; no event on the other outcomes; exactly one drop |
| `CallBudget.TimeoutIsNotEarly` | crates/chimera-cli/src/call_budget.rs:112-117 | A timeout is reported only after the budget has passed since the call was first polled |
| `CallBudget.MillisRoundDown` | crates/chimera-cli/src/call_budget.rs:124 | The reported budget is the duration in whole milliseconds, rounded down, below 2^64 of them |
| `CallBudget.ZeroBudgetNeverTimesOut` | crates/chimera-cli/src/call_budget.rs:112-117 | A zero budget never times out and never publishes |
| `CallBudget.PreCancelledNeverPolls` | crates/chimera-cli/src/call_budget.rs:103-108 | With a token cancelled beforehand the future is polled zero times and Cancelled is the only answer |
| `CallBudget.DecisionIsFinal` | crates/chimera-cli/src/call_budget.rs:119-141 | After the race is decided there is no further poll, and the verdict, the publish and the drop stand |
| `CallBudget.RoundAnswersIff` | crates/chimera-cli/src/call_budget.rs:68-72 | A wake-up answers Ok(v) from every starting branch exactly when the future is ready with v, the token is not cancelled and the budget has not run out |
| `CallBudget.RoundEndsIff` | crates/chimera-cli/src/call_budget.rs:119-141 | From every starting branch a wake-up gives the verdict of the first ready branch in rotation, the timer being ready iff 0 < budget <= elapsed; with none ready the call stays pending |
| `CallBudget.PendingRoundTimesOutIff` | crates/chimera-cli/src/call_budget.rs:112-117 | A pending, uncancelled call times out at a wake-up exactly when its budget is positive and used up |
| `CallBudget.ReadyInTimeMayTimeOut` | crates/chimera-cli/src/call_budget.rs:119-141 | For every positive budget, a schedule in which the future is ready before any time has passed and the call reports a timeout |
| `CallBudget.TimelyRoundAnswers` | crates/chimera-cli/src/call_budget.rs:119-123 | With interference inside the round: if the future is ready when its turn is still ahead and neither token nor budget gives out before the round ends, the call returns its value |
| `ScopeLines.StackIsSorted` | scripts/check_await_across_guard.py:155-188 | The depth stack is strictly increasing and below the current depth |
| `ScopeLines.FilterIsPop` | scripts/check_await_across_guard.py:188 | On such a stack the end-of-line filter only pops |
| `ScopeLines.PushAndRelease` | scripts/check_subscribe_order.py:128-152 | Push, advance and filter on one line turn the regions open at its start into the regions open at the next line's start |
| `ScopeLines.SomethingOpenIff` | scripts/check_subscribe_order.py:139-140 | The stack is non-empty exactly when some earlier marked line is followed only by greater end-of-line depths |
| `ScopeLines.PushedIffInside` | scripts/check_await_across_guard.py:155-181 | The non-empty test after the push means: inside some region, or on a line that opens one |
| `AwaitGuard.ScanText` | scripts/check_await_across_guard.py:123-190 | The one-pass scanner returns exactly the violations of the quadratic definition, in its order, in both test modes |
| `AwaitGuard.BindLocks` | scripts/check_await_across_guard.py:159-183 | Walking the events of a line in source order attributes the leftmost lock call to the binding pending there, and carries the rest |
| `AwaitGuard.ReportLine` | scripts/check_await_across_guard.py:145-148 | The report loop appends, in acquisition order, every live guard outside a sync closure |
| `AwaitGuard.AcquireAndRelease` | scripts/check_await_across_guard.py:150-187 | Dropping by name, adding the line's own guard and filtering by depth leaves exactly the guards that survive the line |
| `AwaitGuard.GapsAreReported` | scripts/check_await_across_guard.py:145-148 | The report of a line is the definition's, one entry per surviving guard |
| `AwaitGuardScopes.FindingsIff` | scripts/check_await_across_guard.py:123-190 | (i, g) is reported iff g was acquired on an earlier line j in no spawn_blocking region, every end-of-line depth since stays at or above that of the lock call, no first drop(g) lies strictly between, line i awaits and nowhere only to acquire a lock, and unless tests are included no line up to i carries the test marker |
| `AwaitGuardScopes.DefaultStopsAtMarker` | scripts/check_await_across_guard.py:131-143 | By default the findings are exactly those in front of the first test marker |
| `AwaitGuardScopes.MarkersAreIgnored` | scripts/check_await_across_guard.py:131-143 | With tests included the markers make no difference |
| `AwaitGuardScopes.BindingIff` | scripts/check_await_across_guard.py:159-183 | The binding pending at a token is the latest `let` of the file that no semicolon or later `let` has ended, across lines |
| `AwaitGuardScopes.AcquiredIff` | scripts/check_await_across_guard.py:159-181 | A lock call is charged to exactly that binding |
| `AwaitGuardScopes.ScopesAreNotMissed` | scripts/check_await_across_guard.py:185-187 | A guard whose scope is open after every token is never released: closing scopes miss no violation |
| `AwaitGuardScopes.TidyScopesAreExact` | scripts/check_await_across_guard.py:185-187 | On lines that never close a scope and reopen one in its place, line ends and token positions give the same scope |
| `AwaitGuardScopes.LineEndsSufficeIff` | scripts/check_await_across_guard.py:185-187 | Judging a line by its end is right for every depth and every guard taken before it exactly when the line never closes a scope and reopens one in its place |
| `AwaitGuardScopes.OwnLineEndSufficesIff` | scripts/check_await_across_guard.py:174-187 | For the guard a line takes itself the line end is right, in every file, exactly when the line does not dip below that guard's scope after the lock and end at or above it |
| `HeldGuards.ErrorsIff` | scripts/check_await_across_guard.py:123-190 | A guard outside the synchronous regions that is really held across an await is missed exactly when the await stands on the guard's own line or shares its line with an await that acquires a lock; a charged guard is not really held exactly when, from the lock call up to the first await of that line, some line dips below the guard's scope or drops its name, in whatever place |
| `HeldGuards.CleanFileIsRight` | scripts/check_await_across_guard.py:25-26 | A file is reported right, guard by guard and line by line, if each of its lines is clean by itself: deepest down at one of its ends, all drops naming one guard, no release in front of its first await, and behind a lock call no held await and no release unless the scope has ended by the line's end |
| `HeldGuards.LineIsReadRightIff` | scripts/check_await_across_guard.py:25-26 | That is the weakest such condition on single lines: among all clean lines a line is read right exactly when it is clean |
| `HeldGuards.OverlookedReleases` | scripts/check_await_across_guard.py:150-153 | `} else {`, `drop(a); drop(b);`, `}.await;` and `drop(g); io().await;` are not clean |
| `HeldGuards.OverlookedOnOwnLine` | scripts/check_await_across_guard.py:159-183 | Nor are `let g = m.lock(); drop(g);` and `let g = m.lock(); io().await;` |
| `AwaitGuardScopes.ElseArmIsBlamed` | scripts/check_await_across_guard.py:25-26 | `} else {` defeats the documented release by block scope: a concrete false report |
| `SubscribeOrder.ScanText` | scripts/check_subscribe_order.py:107-154 | The scanner flags exactly the lines of the quadratic definition, in order, in both test modes |
| `SubscribeOrder.InsideIffOlderOpen` | scripts/check_subscribe_order.py:139-140 | "Deeper than some pushed depth" after this line's push means inside an older spawn's region |
| `SubscribeOrder.FindingsIff` | scripts/check_subscribe_order.py:107-154 | Line i is flagged iff it subscribes, an earlier spawn that is not blocking is followed only by greater end-of-line depths or such a spawn stands in front of a subscribe on the line, and unless tests are included no line up to i carries the test marker |
| `SubscribeOrder.DefaultStopsAtMarker` | scripts/check_subscribe_order.py:114-125 | By default the findings are exactly those in front of the first test marker |
| `SubscribeOrder.ClosureEndsAtMatch` | scripts/check_subscribe_order.py:139-140 | A closure that closes on its line covers the tokens up to the matching brace |
| `SubscribeOrder.SpawnIsJudgedRightIff` | scripts/check_subscribe_order.py:107-154 | A spawn that opens its closure on its own line is judged right on that line, on the closing line and on every line between and after, whatever orderly lines follow, exactly when a subscribe behind the spawn call stands in the closure, and no brace stands open or closed in front of the closure's own or the closure ends there and no brace is left open |
| `SubscribeOrder.OnlyClosedClosuresAreBlamedIff` | scripts/check_subscribe_order.py:139-152 | Over any lines, a closure that opens in front of the other braces of its line misses no subscribe, and blames a line wrongly exactly when a line in between went below the closure and came back, or the line closes the closure before its first subscribe |
| `SubscribeOrder.VerdictsAddUp` | scripts/check_subscribe_order.py:139-150 | If every spawn is judged right at a line and forwarding spawns blame nobody, the line is flagged exactly when a subscribe of it stands in some closure |
| `SubscribeOrder.ForwardingBlamesIff` | scripts/check_subscribe_order.py:33-37 | A forwarding spawn, which has no closure, blames its own or some later line exactly when a subscribe stands behind it on its line or that line leaves a brace open |
| `SubscribeOrder.SplitSpawnIsMissed` | scripts/check_subscribe_order.py:132-152 | A spawned closure that opens on the next line goes unreported |
| `SubscribeOrder.SpawnBehindBraceIsMissed` | scripts/check_subscribe_order.py:132-152 | A closure behind a closing brace loses its subscribe when an inner block ends |
| `SubscribeOrder.ClosingLineIsBlamed` | scripts/check_subscribe_order.py:139-140 | A subscribe behind the brace that closes the closure is blamed |
| `SubscribeOrder.ForwardedSpawnIsBlamed` | scripts/check_subscribe_order.py:33-37 | A forwarding spawn blames the caller's own subscribe, behind an opening brace and behind the spawn itself |
| `BlockScopes.MissesIff` | scripts/check_subscribe_order.py:132-152 | For some following lines the depth stack misses lines of the block exactly when the block outlives its line and the region is shut there or lies no shallower than the block: it opens on a later line, or behind a closing brace |
| `BlockScopes.BlamesIff` | scripts/check_subscribe_order.py:132-152 | For some tidy following lines it covers lines past the block exactly when the region is open at the line's end and the block has ended or lies more than one brace deeper |
| `BlockScopes.RegionIsBlockIff` | scripts/check_subscribe_order.py:132-152 | Stack region and block are the same lines, whatever tidy lines follow, exactly when no brace stands open or closed in front of the block's own, or the block ends on a line that leaves no brace open |
| `SubscribeOrder.Decide` | scripts/check_subscribe_order.py:196-204 | Gaps are the findings not allowed, stale the allowances unused; both are empty iff findings and allowances are the same set |
| `Reentrancy.ScanReentrancy` | scripts/check_await_across_guard.py:233-264 | Each acquisition is reported at most once, and exactly when a mutation of its map is the first thing that happens to its guard while it is taken to live |
| `Reentrancy.Walk` | scripts/check_await_across_guard.py:250-263 | The forward walk returns the line of that mutation, or shows that there is none |
| `Reentrancy.FindingsIff` | scripts/check_await_across_guard.py:233-264 | (i, j) is reported iff line i binds an entry of a known map to a name, line j mutates that map without dropping the name, no line between does either, and up to j fewer braces have closed than line i left open, or than one |
| `Reentrancy.MissesIff` | scripts/check_await_across_guard.py:250-252 | For some following lines the walk stops before the guard's scope ends exactly when the guard survives its line and outlives more closing braces than the line leaves waiting |
| `Reentrancy.OverrunsIff` | scripts/check_await_across_guard.py:250-252 | For some tidy following lines it looks past the scope exactly when the guard does not survive its line or outlives fewer closing braces than the line leaves waiting |
| `Reentrancy.WindowIsScopeIff` | scripts/check_await_across_guard.py:250-252 | At line starts the window is the guard's scope after every brace, whatever tidy lines follow, exactly when the guard survives its line and outlives as many closing braces as the line leaves waiting |
| `Reentrancy.ScopeInDepths` | scripts/check_await_across_guard.py:233-264 | The guard's scope in depths: a `let` guard lives while no brace takes the depth below that of its acquisition, an `if let` guard while it stays above |
| `Reentrancy.MutationIsJudgedRightIff` | scripts/check_await_across_guard.py:250-263 | At the mutating call itself: on every later line the walk looks at it exactly when the guard is held there, whatever orderly lines follow, exactly under that condition |
| `Reentrancy.OnlyClosedScopesOverrunIff` | scripts/check_await_across_guard.py:253-263 | In any file, for such a guard no mutation made while it is held is overlooked, and one is looked at wrongly exactly when a line in between goes below the guard's scope and comes back, or the mutation's own line closes that scope in front of it |
| `Reentrancy.ElseArmIsReported` | scripts/check_await_across_guard.py:253-263 | `} else {` again: a mutation in the second arm is reported for a guard of the first |
| `LineNoise.StripNoise` | scripts/check_await_across_guard.py:87-110 | The cursor loop keeps what the recursive definition keeps |
| `LineNoise.AgreesWithLexerIff` | scripts/check_subscribe_order.py:78-104 | On a line without a raw string opener the simple filter agrees with the full lexer exactly when it keeps no apostrophe |
| `LineNoise.NetAgreesIff` | scripts/check_await_across_guard.py:87-110 | On a line without a raw string opener whose char literals hold no double quote and no `//`, the filter's net brace count is the full lexer's exactly when the braces inside char literals balance; lifetimes do no harm |
| `LineNoise.QuoteLiteralNetIff` | scripts/check_await_across_guard.py:87-110 | For a quote literal behind text without quotes, slashes and the letter r, and in front of text without a double quote, the net counts agree exactly when the braces behind the literal balance |
| `LineNoise.QuoteLiteralHidesTheRest` | scripts/check_await_across_guard.py:87-110 | After a quote in a char literal the simple filter loses the rest of the line, braces included, where the full lexer goes on |
| `NoiseLexer.StripLineNoise` | scripts/check_lint_ratchet.py:63-134 | The cursor loop over one line computes the kept text and the state carried out |
| `NoiseLexer.ScanCharLiteral` | scripts/check_lint_ratchet.py:97-108 | The bounded lookahead finds the close of a char literal or tells a lifetime |
| `NoiseLexer.CharLiteralIsTakenWhole` | scripts/check_lint_ratchet.py:91-108 | A char literal of up to nine characters between its apostrophes, escapes counted as written, leaves no trace; a longer one is taken for a lifetime |
| `NoiseLexer.CodeIsKept` | scripts/check_lint_ratchet.py:63-134 | Text without quotes, slashes and the letter r is kept as it is, and a line comment behind it is dropped |
| `NoiseLexer.StripFile` | scripts/check_lint_ratchet.py:170-171 | Lexing a file line by line with the carried state keeps what one lexing of the whole text keeps, and ends in its state |
| `NoiseLexer.KeptSplits` | scripts/check_lint_ratchet.py:63-134 | Cut a text after any newline: lexing the parts in turn keeps exactly what lexing the whole keeps |
| `NoiseLexer.StateSplits` | scripts/check_lint_ratchet.py:63-134 | The same for the state |
| `NoiseLexer.KeptIsCleanSubsequence` | scripts/check_lint_ratchet.py:63-134 | The output is a subsequence of the input without a double quote |
| `NoiseLexer.RawStringIsInvisible` | scripts/check_lint_ratchet.py:64-66 | A raw string with hashes, whatever it contains and however many lines it spans, leaves no trace in the kept text or the state |
| `NoiseLexer.BareRawStringClosesIff` | scripts/check_lint_ratchet.py:125-129 | A raw string without hashes is closed by its own quote exactly when its body ends with an even number of backslashes |
| `OffenderCount.CountOffendersFile` | scripts/check_lint_ratchet.py:137-200 | The file's count is the total over its non-exempt lines as declared by regions, or 0 under a file-level allow |
| `OffenderCount.CountIsSum` | scripts/check_lint_ratchet.py:158-200 | The count is 0 when an allow stands in the unbroken run of header lines, else the sum of the offenders over exactly those lines that are neither documentation nor in a test region |
| `OffenderCount.CodesAreText` | scripts/check_lint_ratchet.py:170-171 | The lines it judges are, together, the noise-free text of the whole file |
| `OffenderCount.ScanHeader` | scripts/check_lint_ratchet.py:158-168 | The header loop answers whether an allow stands in the unbroken run of header lines |
| `OffenderCount.ScanIsTotal` | scripts/check_lint_ratchet.py:148-200 | The counter's depth, exemption and total at every line are those of the declarative definition of exempt regions |
| `OffenderCount.RegionIsUnique` | scripts/check_lint_ratchet.py:174-191 | Exempt regions do not nest: at most one is open |
| `OffenderCount.TestBodiesDoNotInterfere` | scripts/check_lint_ratchet.py:174-178 | Two files that agree outside the bodies of their test regions, however many, have the same count, if each body stays inside its region and hands over the same depth and lexer state, and the file-top region ends before the first |
| `OffenderCount.RegionOpensAtBodyIff` | scripts/check_lint_ratchet.py:179-191 | The exempt region opens on the line of the attributed item's body, found by matching brackets, exactly when the item has a body below the attribute's line and no earlier line below it holds an opening brace |
| `OffenderCount.SeekIff` | scripts/check_lint_ratchet.py:174-191 | On one line the item's body is the first brace or semicolon outside all brackets, if it is an opening brace |
| `OffenderCount.RegionIsBodyIff` | scripts/check_lint_ratchet.py:174-191 | Opened there, it is that body, whatever tidy lines follow, exactly when the braces in front of the body's own balance; for a body that ends on its line, when the line leaves no brace open |
| `OffenderCount.BracelessItemHidesProduction` | scripts/check_lint_ratchet.py:179-191 | After a test attribute on an item without a body the next production body is exempt |
| `TextLines.JoinSplit` | scripts/crate_contract.py:374-388 | Splitting a text at its line ending and joining it again gives it back |
| `TextLines.SplitJoin` | scripts/crate_contract.py:374-388 | Lines in which no ending begins survive joining and splitting |
| `TextLines.UniversalPrefix` | scripts/crate_contract.py:120-122 | Text mode reads a block in front of any text as the block's lines, whatever endings follow |
| `CrateContract.ReadWrite` | scripts/crate_contract.py:366-390 | Reading what was written gives the same BOM flag, line ending and lines |
| `CrateContract.InstallKeepsShape` | scripts/crate_contract.py:357-391 | Installing keeps the BOM first, the line-ending style, and introduces no stray break |
| `CrateContract.InstalledFile` | scripts/crate_contract.py:357-391 | The installed file is the rendered block followed by the file's own lines, character for character |
| `CrateContract.InstallIsIdempotentIff` | scripts/crate_contract.py:374-391 | Installing twice is installing once on every accepted file, except exactly those whose END precedes BEGIN, where the second install fails |
| `CrateContract.RefreshForgetsOldFields` | scripts/crate_contract.py:383-388 | A refresh with other fields is an install into the original |
| `CrateContract.UninstallUndoesInstall` | scripts/crate_contract.py:357-391 | Deleting the block restores the original; for a file without a block, byte for byte |
| `CrateContract.RenderedIndices` | scripts/crate_contract.py:330-337 | A rendered block holds each marker exactly once, first and last |
| `CrateContract.RenderedText` | scripts/crate_contract.py:330-337 | The block, literally: its eight lines in order, with keys and values aligned |
| `CrateContract.InstallAcceptsIff` | scripts/crate_contract.py:374-382 | A file is accepted exactly when it holds no marker, or each marker on exactly one line |
| `ContractCheck.FirstRoleLines` | scripts/crate_contract.py:102-134 | The flag loop collects the leading doc lines outside the block |
| `ContractCheck.HarvestsTheHead` | scripts/crate_contract.py:119-133 | In a file without a block the harvest is the doc lines above the first line that is neither a doc line nor blank, stripped, in order |
| `ContractCheck.StripIsWhole` | scripts/crate_contract.py:131 | Stripping takes white space only, and all of it, at both ends |
| `ContractCheck.BlockIsSkipped` | scripts/crate_contract.py:119-133 | A block over several lines contributes no doc line, wherever it stands |
| `ContractText.RefreshIsLosslessIff` | scripts/crate_contract.py:360-388 | On every accepted file a refresh keeps exactly the text lines outside the block iff the begin marker stands in the first text line of its piece and the end marker in the last text line of its own; without a block, and with the markers misordered, nothing is lost |
| `ContractText.MixedEndingsLoseText` | scripts/crate_contract.py:360-384 | A family with mixed endings in which a refresh deletes the line in front of the block |
| `ContractText.InstalledLines` | scripts/crate_contract.py:357-391 | Read with every ending accepted, an installed file is the rendered block followed by the file's own lines |
| `ContractCheck.HarvestCommutesIff` | scripts/crate_contract.py:110-133 | After a lossless install the harvested doc lines are the original's exactly when the harvest ended above the old block, or the flag resumes behind its last end marker with the lines that stand there |
| `ContractCheck.SeveralLinesAreKept` | scripts/crate_contract.py:119-133 | That is so for every block over several lines without an end marker inside |
| `ContractCheck.OneLineIsKeptIff` | scripts/crate_contract.py:119-133 | For a block on one line it is so exactly when the harvest ended above it or no doc line follows |
| `ContractCheck.DerivedInstallIsFixpoint` | scripts/crate_contract.py:312-327 | After a lossless install that keeps the harvest, re-deriving gives the same fields, and installing them again changes no byte unless the markers were misordered |
| `ContractCheck.RoleIsPlain` | scripts/crate_contract.py:137-152 | A harvested role always fits on its line: no break, no marker, trimmed, never empty |
| `ContractCheck.RoleIsFirst` | scripts/crate_contract.py:137-152 | The role is the first harvested line that is neither empty nor a tag nor about the contract, and "(untitled)" exactly when there is none |
| `ContractCheck.ParseBlock` | scripts/crate_contract.py:395-414 | The parser reads every field line of the file, the last match winning, and names what is missing |
| `ContractCheck.MatchFieldIff` | scripts/crate_contract.py:407 | A line matches with a key and a value iff it is `//!`, white space, the key in capitals, perhaps white space, a colon, and a rest that strips to the value |
| `ContractCheck.ParsedInstalled` | scripts/crate_contract.py:395-414 | Parsing an installed file always succeeds and gives, key by key, what the rendered block says, overridden by the file's own field lines |
| `ContractCheck.RoundTripIff` | scripts/crate_contract.py:395-414 | Parsing returns exactly the installed fields iff every value is trimmed and free of the separators only `str.splitlines` knows, and none of the file's own lines reads as a key with another value |
| `ContractCheck.CheckCleanAfterInstallIff` | scripts/crate_contract.py:417-455 | Right after an install of derived fields into any accepted file the check is silent iff block and own lines together say the derived value under every key other than ROLE and an acceptable ROLE; for readable values: iff no own line overrides another key and the ROLE in force is non-empty, titled and not field-shaped |
| `ContractCheck.AcceptableRoleIff` | scripts/crate_contract.py:433-447 | A role is refused iff it is empty, untitled, or starts with three or more capitals, perhaps white space, and a colon |
| `CrateReachability.Reachable` | scripts/check_crate_reachability.py:112-121 | The stack search terminates and returns exactly the crates some path of non-optional edges leads to |
| `CrateReachability.Evaluate` | scripts/check_crate_reachability.py:136-176 | Reachable, gated and island members are disjoint and cover the workspace; islands, repaid debt and the exit status are the ratchet's |
| `CrateReachability.EdgesNeverHurt` | scripts/check_crate_reachability.py:136-176 | Adding edges of either kind to any graph creates no island and turns no passing verdict into a failing one |
| `CrateReachability.ReachStaysInWorkspace` | scripts/check_crate_reachability.py:97-109 | On a graph built from manifests the search never leaves the members and entry points |
| `CrateReachability.EdgesKeepTheirKind` | scripts/check_crate_reachability.py:97-109 | The graph has the manifests' edges between members, optional ones as optional and the others as always, and no others |
| `CrateReachability.NeverBuiltIff` | scripts/check_crate_reachability.py:141-146 | A crate is in no build, whatever the features, iff it lies in a group that no edge of either kind enters and no entry point is in |
| `CrateReachability.EscapesIff` | scripts/check_crate_reachability.py:143-148 | A member is no island though no build can contain it iff it lies in such a group and some crate lists it as optional |
| `CrateReachability.BlamedIff` | scripts/check_crate_reachability.py:143-163 | A member is an island though some build contains it iff some feature brings in a crate that needs it, no optional edge names the member itself, and the entry points do not need it |
| `CrateReachability.IslandsAreTheUnbuiltIff` | scripts/check_crate_reachability.py:141-148 | The islands are exactly the members no build can contain iff every optional target is in some build, and whatever a crate of some build needs is needed by the entry points or named by an optional edge |
| `CrateReachability.GatedNeedIsBlamed` | scripts/check_crate_reachability.py:161-163 | Gating a crate behind a feature makes an island of what it alone needs: a concrete graph |
| `CrateReachability.MutualOptionalsEscape` | scripts/check_crate_reachability.py:141-146 | Two crates that only list each other as optional pass with an empty freeze list though nothing can build them |
| `Graphs.ClosedReachedIsReach` | scripts/check_crate_reachability.py:112-121 | A closed set of reached nodes that holds the start is exactly what paths reach: the least closed set |
| `TestSurface.ModuleClosure` | scripts/check_test_surface_liveness.py:72-90 | The worklist terminates and marks exactly the files reached from the targets by declarations that lead to existing files |
| `TestSurface.DeclaresIff` | scripts/check_test_surface_liveness.py:80-88 | A file dir/f declares exactly the existing files dir/<mod>.rs and dir/<mod>/mod.rs for its modules and dir/<path> for its path attributes, normalised |
| `TestSurface.ParseTargets` | scripts/check_test_surface_liveness.py:49-69 | The target dictionary: declared tables, the later of one name winning, then every undeclared top-level test file under its stem |
| `TestSurface.TargetsIff` | scripts/check_test_surface_liveness.py:49-69 | A name leads to a path iff the path is the undeclared tests/<name>.rs, or there is none and the last table of that name declares it, a leading "./" dropped |
| `TestSurface.DeclaredSourceSurvivesIff` | scripts/check_test_surface_liveness.py:56-68 | A declared source stays a target iff some table naming it is not displaced by an undeclared file of the same stem |
| `TestSurface.Scan` | scripts/check_test_surface_liveness.py:93-113 | The findings are the silenced targets and the test files nothing compiles |
| `TestSurface.Judge` | scripts/check_test_surface_liveness.py:133-152 | 2 when manifest or registry is missing or fewer than 30 targets parse; else 0 iff the registered keys are exactly the findings' |
| `TestSurface.MoreModulesOnlyStale` | scripts/check_test_surface_liveness.py:133-152 | After a green run more module declarations bring up no new finding, only a stale entry for a file now compiled |
| `ArchitectureViews.BandsTile` | scripts/emit_architecture_views.py:53-64 | The bands are disjoint and cover exactly layers 0 to 10 |
| `ArchitectureViews.UpwardEdges` | scripts/emit_architecture_views.py:75-84 | The edges between two layered crates that point up, and no others |
| `ArchitectureViews.BandSum` | scripts/emit_architecture_views.py:402-403 | The band sum equals the member count iff every layer lies in a band |
| `ArchitectureViews.Check` | scripts/emit_architecture_views.py:390-419 | 0 iff every crate on disk is layered, every layer is in a band and no edge points up |
| `ArchitectureViews.LayersNeverRise` | scripts/emit_architecture_views.py:75-84 | After a passing check the layer never rises along a dependency path of any length through layered crates |
| `ArchitectureViews.CyclesAreFlat` | scripts/emit_architecture_views.py:75-84 | Every dependency cycle through layered crates lies in one layer |
| `ArchitectureViews.RisesIffBridge` | scripts/emit_architecture_views.py:78-81 | With no upward edge, some path rises iff some path between layered ends rises through unlayered crates only |
| `ArchitectureViews.PassingCheckIsTheLaw` | scripts/emit_architecture_views.py:394-400 | When every edge end is a crate on disk, a passing check rules out every rising path |
| `ArchitectureViews.BridgePassesTheCheck` | scripts/emit_architecture_views.py:394-400 | Without the on-disk comparison a climb through an unlayered crate passes all checks |
| `ArchitectureViews.DomainEdgeMatrix` | scripts/emit_architecture_views.py:87-95 | Each cell counts exactly the edges between its two bands, and no cell is empty |
| `ArchitectureViews.CellIs` | scripts/emit_architecture_views.py:87-95 | An edge's cell is given by the bands of its ends, an end without a layer being unmapped |
| `Tallies.TallySumsToSize` | scripts/emit_architecture_views.py:88 | Summed in any order the cells give the number of edges |
| `ArchitectureViews.NoUnmappedBucketIff` | scripts/emit_architecture_views.py:91-93 | No unmapped bucket iff every end of every edge has a layer from 0 to 10 |
| `ArchitectureViews.MatrixIsTriangular` | scripts/emit_architecture_views.py:87-95 | With no upward edge no mapped cell leads from a lower band to a higher one |
| `ResidueLedger.LoadBaseline` | scripts/check_retired_crate_residue.py:163-183 | One allowance per row by occurrence; the first malformed row refuses the ledger |
| `ResidueLedger.Decide` | scripts/check_retired_crate_residue.py:186-210 | The four lists hold exactly the keys that are unlisted, grown, shrunk or gone, with both counts |
| `ResidueLedger.JudgedIff` | scripts/check_retired_crate_residue.py:186-210 | Key by key: a count is in a list iff it holds the measured and the allowed number, and these are 0 and positive, smaller, larger, or positive and 0 |
| `ResidueLedger.GreenIff` | scripts/check_retired_crate_residue.py:186-210 | All four lists are empty iff the measured multiset is the ledger's |
| `ResidueLedger.ExactlyOneList` | scripts/check_retired_crate_residue.py:189-193 | Every differing key is in exactly one list, once |
| `ResidueLedger.DebtNeverReturns` | scripts/check_retired_crate_residue.py:163-168 | Over green commits whose ledgers only shrink debt never rises and no repaired reference returns |
| `ResidueLedger.NewDebtIsRed` | scripts/check_retired_crate_residue.py:186-210 | While the ledger shrinks, a commit that adds a reference is red, and names it |
| `CoverageGate.Aggregate` | scripts/coverage_gate.py:162-177 | Per-crate and total line counts are those of the records, attributed by path |
| `CoverageGate.TotalsAddUp` | scripts/coverage_gate.py:162-177 | The figures of two lists of records add up, covered and total lines apart |
| `CoverageGate.PathBelongs` | scripts/coverage_gate.py:90-98 | With either kind of slash a path belongs to the directory below its first crates/; an empty one counts as (other) |
| `CoverageGate.OtherPaths` | scripts/coverage_gate.py:90-98 | So does every path without crates/ |
| `CoverageGate.NoLineIsLost` | scripts/coverage_gate.py:162-177 | The crates together have exactly the covered and total lines of the records |
| `CoverageGate.OrderDoesNotMatter` | scripts/coverage_gate.py:162-177 | Equal multisets of records give equal figures |
| `CoverageGate.AggregateMeetsCommonFloor` | scripts/coverage_gate.py:176-177 | A percentage every crate meets is met by the aggregate |
| `CoverageGate.AggregateStaysUnderCeiling` | scripts/coverage_gate.py:176-177 | A percentage no crate exceeds is not exceeded by the aggregate |
| `CoverageGate.CheckCoverage` | scripts/coverage_gate.py:181-211 | The errors are exactly the violations of the five rules |
| `CoverageGate.ViolatedIff` | scripts/coverage_gate.py:181-211 | The five rules in percentages: a crate's floor is its own row's number, without a row the default, and a floor that is no number is none; a crate without lines is not low |
| `CoverageGate.FloorsSubsumeTheMinimum` | scripts/coverage_gate.py:197-210 | Without exemptions, floors of at least the minimum make the aggregate rule redundant |
| `CoverageGate.ExemptCrateSinksTheAggregate` | scripts/coverage_gate.py:197-210 | With an exemption they do not |
| `CoverageGate.CrateIsGuardedIff` | scripts/coverage_gate.py:204-210 | A crate can ever be found low iff it is not exempt and its floor is a positive number; a floor row without a number takes the default away |
| `CoverageGate.CheckMinRatchet` | scripts/coverage_gate.py:246-283 | Error-free iff the readable history is sorted and its last value is at most the current minimum; a missing current minimum crashes |
| `CoverageGate.CurrentMinimumIsTheHighest` | scripts/coverage_gate.py:246-283 | Then the current minimum bounds every value that was ever readable |
| `PerfRedlines.Collect` | scripts/check_perf_redlines.py:489-513 | Buckets, unmatched and ambiguous lists are the first-match ones, in path order; a bucket without a threshold is a lookup error |
| `PerfRedlines.FirstKeyWins` | scripts/check_perf_redlines.py:500-506 | A path goes to the first key in document order one of whose keywords it contains, and to none iff it contains none |
| `PerfRedlines.RowsAre` | scripts/check_perf_redlines.py:489-513 | A bucket holds exactly the readable estimates that fall to it |
| `PerfRedlines.NoEstimateIsLost` | scripts/check_perf_redlines.py:499-513 | Every readable estimate is in exactly one bucket or unmatched |
| `PerfRedlines.Judge` | scripts/check_perf_redlines.py:516-524 | The worst row is the first maximum; the key passes iff every row is under its limit |
| `PerfRedlines.AssertThresholds` | scripts/check_perf_redlines.py:598-646 | 0 iff every row of every key is under its limit and, in strict mode, nothing is ambiguous |
| `PerfRedlines.OrderIsIrrelevantIff` | scripts/check_perf_redlines.py:492-511 | A path's bucket is the same under every order of the keys iff the path is not ambiguous |
| `PerfRedlines.KeywordOverlaps` | scripts/check_perf_redlines.py:462-481 | All pairs of keys with two different keywords one inside the other |
| `PerfRedlines.RulesOverlapIff` | scripts/check_perf_redlines.py:462-481 | Two keys overlap iff they have different keywords, one of each, one inside the other |
| `PerfRedlines.ForcesAmbiguityIff` | scripts/check_perf_redlines.py:465-468 | Every path that contains a keyword is ambiguous iff the keyword contains or equals one of another key |
| `PerfRedlines.EmptyOverlapListMissesShared` | scripts/check_perf_redlines.py:474-478 | With an empty overlap list some keyword still forces ambiguity iff two keys share one |

## Left out

- ActionOrchestrator.RunsAreBounded: an engine call is taken to emit boundedly many non-request events, because `QuestEngine`, the overwindow bridge and the curation policy are not part of this model; result texts and the metadata of events are left out.
- ActionOrchestrator.QuiescentIsSettled: jobs end by themselves; the runtime killing detached jobs at shutdown is not modelled.
- ActionOrchestrator.ShardsKeepOrder: the shard numbers of the five event types are given, not computed from their names.
- CallBudget.ResultIsJustified: time is abstract ticks, and a failed publish of the timeout event is only logged, so it is not told apart.
- Subscribers.EveryoneSeesHistoryIff: the subscriber subscribes before the first event; one that comes later is not modelled.
- HeldGuards.LineIsReadRightIff: a further lock call of a line is not looked at, as in the gate; a `drop` on one arm only counts as a drop; guards the gate exempts as synchronous are left out (`BlockScopes.RegionIsBlockIff` says when such a region is its closure).
- AwaitGuard.ScanText: a line is the sequence of its braces, `let` names, semicolons, lock calls, awaits and drops, plus what the test-marker and spawn_blocking patterns find; the regular expressions themselves are given.
- Reentrancy.ScanReentrancy: the names of the two methods in a finding, and which receivers are declared as maps, are given.
- Reentrancy.MutationIsJudgedRightIff: a mutation on the acquiring line itself and the order of a `drop` and a mutation on one line are not judged; the guard of an `if let` is taken to end with its first arm, as the rule does, while up to edition 2021, the workspace's, the language keeps that temporary through `else`.
- LineNoise.NetAgreesIff: no count is stated for lines with a raw string opener, with a char literal that holds `//`, or with a double quote besides a single quote literal's; for that literal alone `LineNoise.QuoteLiteralNetIff` states it.
- OffenderCount.CountOffendersFile: the attribute, offender and header patterns are given as functions of a noise-free line.
- SubscribeOrder.SpawnIsJudgedRightIff: which brace opens a spawn's closure is given; a further spawn call of a line is not looked at, as in the gate.
- OffenderCount.RegionIsBodyIff: whole lines, as the tool counts them; code behind the closing brace on its line is exempt too.
- ContractCheck.ParseBlock: field names other than the six keys are not kept; decoding errors, which the tool replaces, are left out.
- ContractCheck.DerivedInstallIsFixpoint: backend, producers, consumers, maturity and layer are given; the manifest reader behind the consumers row is left out.
- CrateContract.InstallKeepsShape: install is a function of the file's text; writing it back to disk is left out.
- CrateReachability.Evaluate: sets instead of sorted lists, and the printed guidance is left out.
- TestSurface.ModuleClosure: path normalisation is a given function; paths use forward slashes.
- ArchitectureViews.Check: problems are counted, their texts left out; grouping by layer and rendering are left out.
- CoverageGate.Aggregate: percentages are exact reals, not floating point; the record formats of the coverage tools are given as (path, covered, total).
- PerfRedlines.Judge: medians are exact integers.
- The mode inventory, the ignored-test classification and the SLO filter of the redline tool: counting and set comparison in easier forms.
- The allowlist parity check, the ledger verdict of the lint ratchet and other set-difference gates: they repeat the ledger theorems in an easier form.
- Walking directories, reading TOML and JSON, git, cargo, argument parsing, printed text, self-tests.
