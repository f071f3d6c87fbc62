# Decision logic of gait

gait decides whether an agent's tool call may go ahead, records what happened, and lets an
operator replay and inspect it. This project models the parts of that program where a decision
is computed, and proves what the parts promise, over every input, every run and every schedule.

- **Gate** (`GateDecision`, `GateStages`, `GatePipeline`, `GateTheorems`, `GateSafety`): the pipeline
  of `gait gate eval` from the policy outcome to the exit code. `GateDecision` declares the outcome;
  `GatePipeline` runs the stages on an object, as the program does; `GateStages` proves that the
  stages add up to the declared outcome; `GateTheorems` says what the outcome guarantees. What the
  pipeline asks of other components is an arbitrary answer in the `Request`. `GateSafety` puts the
  rate limiter and the delegation matcher behind those answers.
- **Rate limiter** (`RateLimiter`, `RateKeys`, `RateStore`, `RateLock`) and **delegation chains**
  (`DelegationChain`): the two components whose own state or algorithm decides the gate's answers.
  `RateLimiter` follows the counters over a run of calls, `RateKeys` says which calls are counted
  together, `RateStore` keeps the counters in the state file under text keys, and `RateLock` lets several
  processes run the limiter behind its lock file, step by step.
- **Canonical lists** (`CanonicalList`): trimmed, duplicate-free, sorted lists of codes and paths.
- **Flag reordering** (`FlagReorder`, `FlagMeaning`): the rewriting of a command line before Go's
  `flag` package parses it, and its meaning under two parsers.
- **Retention** (`Retention`), **telemetry counters** (`Telemetry`), **run inspection** (`InspectJoin`),
  **policy simulation** (`PolicySimulation`), **reference drift** (`RefsDrift`), **versions**
  (`VersionResolver`), **run ids and ticket footers** (`RunIdentity`).
- **Scripts** (`Percentile`, `BalancedPairs`, `LaneScorecard`): arithmetic and recognisers of the
  budget, docs and scorecard checks.
- `Strings`, `Sequences`, `Sorting`, `Counting` and `Wrappers` hold the library operations the rest
  relies on.

Library sorts are a function (`Sorting.SortBy`) that sorts, keeps the elements, and forgets their
order; an unstable `sort.Slice` with ties is a method of which only that is known. Numbers are
unbounded integers and exact reals. Exit codes are those of `docs/failure_taxonomy_exit_codes.md`.

Some properties one might expect turn out to be false of the code. Each is shown at an input, and
proved under the exact condition:

- Reordering flags keeps a command line's meaning: not in `FlagMeaning.ReorderCanChangeMeaning`, and
  exactly under the condition of `FlagMeaning.ReorderPreservesMeaning`.
- The telemetry health file shows the current counters: not in `Telemetry.FileCanLagBehind`, and
  exactly when `Telemetry.FileIsCurrentIff` says.
- The rate limiter decides as if it remembered every admitted call: not in
  `RateLimiter.BackwardClockForgets`, and exactly when `RateLimiter.LimiterIsExact` says, namely when no
  call was admitted in another bucket of the key's window since one was admitted under the key.
- Different tools never share a counter: not in `RateKeys.BudgetCollision`. Under the scope tool they
  never do, under the scope identity they all do, and under tool_identity they do for some identities
  exactly when one name goes on after the other with a bar and no space behind it
  (`RateKeys.ToolsCollideIff`, `RateKeys.KeysSeparateCallers`).
- A destructive budget has counters of its own: a script's budget call is counted together with its
  rate-limit call (`RateKeys.FirstScriptIsRefused`), exactly as `RateKeys.BudgetSharesOwnKeyIff` says.
- The lock file admits one process at a time: not when a holder is slow or two processes suspect the
  lock of a crashed one (`RateLock.SlowHolderBreaksLimit`, `RateLock.TwoTakersBreakLimit`), and exactly in
  the schedules in which no lock is removed while somebody is inside (`RateLock.AlwaysExclusiveIff`).
- With the lock undisturbed and a clock that never goes back, the limit is kept: not in
  `RateLock.LateWaiterBreaksLimit`, since a call takes its time before it waits for the lock, and exactly
  when the calls lead to no excess in the order of their decisions (`RateLock.LimitHoldsAcrossProcesses`);
  they do not when each is decided in the bucket it began in (`RateLock.TimelyRunsKeepLimit`).
- Classifying drift twice on the same storage answers the same: not in `RefsDrift.SecondCallExample`, and
  exactly when `RefsDrift.SecondCallForgets` says.
- The order of a side's receipts does not matter to drift: not in `RefsDrift.SharedIdExample`, and exactly
  when receipts with one id are equal (`RefsDrift.SameReceiptsDriftIff`).
- The comment at `cmd/gait/mcp_server.go:726-727` says runpack retention spares packs in a shared
  directory: not `pack_a_cp_1.zip` (`Retention.RunpackSweepTakesPack`), and exactly the names without
  `_cp_` (`Retention.RunpackSweepSparesPacks`).

One check turns out to be needed: first-come matching of delegation tokens finds a complete matching
if there is one (`DelegationChain.GreedyIsOptimal`) because normalisation refuses links without a
delegator; with such a link next to others it would not (`DelegationChain.GreedyNeedsSpecificLinks`).

## Model

| member | source | states |
|---|---|---|
| GatePipeline.Evaluate | cmd/gait/gate.go:485-811 | the run ends in the declared outcome: the first error met, or verdict, both code lists, exit code and simulation fields |
| GatePipeline.GateRun.constructor | cmd/gait/gate.go:472-521 | a run starts from the policy's verdict and lists with exit code OK |
| GatePipeline.GateRun.ConsultRateLimit | cmd/gait/gate.go:487-497 | a refused rate limit blocks and is recorded in both lists; an error ends the run; otherwise nothing changes |
| GatePipeline.GateRun.ConsultBudget | cmd/gait/gate.go:498-510 | the destructive budget is consulted only for destructive intents and blocks in the same way |
| GatePipeline.GateRun.LoadKey | cmd/gait/gate.go:547-558 | the strict profile refuses to go on without an explicit key source; a key that fails to load ends the run |
| GatePipeline.GateRun.ReadDelegations | cmd/gait/gate.go:568-574 | the first unreadable delegation token ends the run |
| GatePipeline.GateRun.NoteChainErrors | cmd/gait/gate.go:585-589 | the non-blank codes of the invalid entries, and only those, join the reasons |
| GatePipeline.GateRun.ConsultDelegation | cmd/gait/gate.go:533-602 | a required delegation blocks unless tokens are given and the chain is complete |
| GatePipeline.GateRun.SettleDelegation | cmd/gait/gate.go:582-602 | an incomplete chain blocks with its codes; a complete one is noted and leaves the verdict |
| GatePipeline.GateRun.ConsultApproval | cmd/gait/gate.go:605-702 | approval is consulted exactly when the verdict still is require_approval |
| GatePipeline.GateRun.CountApprovals | cmd/gait/gate.go:637-680 | every token is read once; the number of valid ones and the set of named approvers are exact; the first unreadable one ends the run |
| GatePipeline.GateRun.SettleApproval | cmd/gait/gate.go:627-702 | no token, too few tokens and too few approvers each leave require_approval; otherwise allow |
| GatePipeline.GateRun.CloseCount | cmd/gait/gate.go:682-701 | both shortages are reported, and allow is given only when there is neither |
| GatePipeline.GateRun.CheckReceipt | cmd/gait/gate.go:755-767 | the findings of all matched rules are merged |
| GatePipeline.GateRun.ConsultBroker | cmd/gait/gate.go:720-794 | a required credential is asked for only under allow, and anything short of an issued one without findings blocks |
| GatePipeline.GateRun.Finish | cmd/gait/gate.go:796-811 | simulation rewrites verdict, lists and exit code, enforcement leaves them, and the exit code follows the verdict |
| GateDecision.ParseCsv | cmd/gait/approve.go:134-145 | the trimmed non-blank parts of a comma list, in order and as often as they occur |
| GateDecision.SplitJoins | cmd/gait/approve.go:134-145 | the parts have no comma, and joined by commas they are the text |
| GateDecision.GatherTokenPaths | cmd/gait/gate.go:1009-1016 | the canonical list of the set of paths named by both arguments |
| GateDecision.NonBlankJoins | cmd/gait/approve.go:134-145 | the values of a list are the values of its parts, part by part from left to right |
| GateDecision.NamedPathIff | cmd/gait/gate.go:1009-1016 | a path is a delegation (approval) path iff, trimmed and not blank, it is the token argument or a part of the chain argument |
| GateStages.VerdictAfterDelegation | cmd/gait/gate.go:485-602 | after the first three stages the verdict is block if one of them refused, else the policy's, and the exit code is set only by a denied delegation |
| GateStages.VerdictAfterApproval | cmd/gait/gate.go:605-702 | after approval the verdict is block, allow by quorum, or the policy's |
| GateStages.VerdictAfterBroker | cmd/gait/gate.go:720-794 | the last stage gives the declared final verdict |
| GateStages.ExitAgrees | cmd/gait/gate.go:811-811 | the exit code left by the stages, mapped with the verdict, is the one the verdict stands for |
| GateStages.ListsAfterBroker | cmd/gait/gate.go:485-794 | after the last stage both lists are the canonical lists of what they began with and what the stages added |
| GateStages.BrokerCarries | cmd/gait/gate.go:485-794 | the codes added are exactly those of the stages that spoke, and a list nobody added to is untouched |
| GateTheorems.AllowIff | cmd/gait/gate.go:485-794 | an enforcing run without error allows iff limits, delegation, policy or approval quorum, and credential all clear the request |
| GateTheorems.BlockIff | cmd/gait/gate.go:485-794 | it blocks iff the policy does, a limit or the delegation is missed, or only the credential is; it asks for approval iff only the approvals are missing |
| GateTheorems.DecidedIff | cmd/gait/gate.go:485-794 | a run is decided iff everything it comes to ask is answered: limits, signing key, keys (named, under the strict profile), readable tokens, chain and target binding; simulating under the strict profile exits with 6 |
| GateTheorems.LimitExit | cmd/gait/gate.go:487-519 | else it ends with the exit code of the first that failed: rate limit, budget, signing key |
| GateTheorems.DelegationExit | cmd/gait/gate.go:533-582 | then with 6 for a missing delegation key under the strict profile, or the exit code of the key that fails to load (the approval key if no delegation key is named), the first unreadable token in sorted order, or the chain |
| GateTheorems.ApprovalExit | cmd/gait/gate.go:617-650 | then likewise for the approval key and tokens, if approval is asked for |
| GateTheorems.BrokerExit | cmd/gait/gate.go:720-740 | then with that of the target binding |
| GateTheorems.ReportSays | cmd/gait/gate.go:485-794 | a reason or violation is in an enforcing report iff it was the policy's or one of the stages says it, for exactly the stated reason; a run that is not stopped and not short of approvals leaves the violations as they are |
| GateTheorems.BlockAbsorbs | cmd/gait/gate.go:485-794 | once a stage has blocked, no later stage reopens the request |
| GateTheorems.ExitCodeFollowsVerdict | cmd/gait/gate.go:1165-1175 | exit 0 iff allow or dry_run, 3 iff block, 4 iff require_approval, enforcing or simulating |
| GateTheorems.ReasonsAreKept | cmd/gait/gate.go:485-811 | no non-blank reason of the policy or of a stage is missing from the report, and an enforcing report has no others |
| GateTheorems.DecidedReports | cmd/gait/gate.go:796-811 | verdict and exit of a decided run are the ones the theorems are about, and an enforcing run says nothing about a simulation |
| GateTheorems.SimulationIsFaithful | cmd/gait/gate.go:796-811 | under the same answers a simulated run errs when the enforcing run errs and otherwise reports its verdict and reasons, adds the two simulation codes, and clears the violations only if it would have blocked or asked |
| GateTheorems.SimulationNeverEnforces | cmd/gait/gate.go:796-811 | a simulated run exits OK with allow or dry_run |
| GateTheorems.ApprovalsAreASet | cmd/gait/gate.go:605-702 | two ways of naming the same set of approval tokens give the same report |
| GateTheorems.ExtraApprovalsAreHarmless | cmd/gait/gate.go:605-702 | further readable tokens, valid or not, never take an allow back |
| GateTheorems.NoReceiptReasons | cmd/gait/gate.go:755-772 | the merged findings are empty iff no matched rule has a non-blank one |
| GateSafety.AllowsStayWithinLimit | cmd/gait/gate.go:485-510 | in any run of evaluations sharing one state file, for rate limits and destructive budgets alike, no more are allowed under a key than the limiter admitted, so no more than the limit unless the limiter itself admitted an excess, which calls decided in bucket order exclude |
| GateSafety.AllowedWasAdmitted | cmd/gait/gate.go:487-510 | an allowed evaluation was admitted by every limit it asked |
| GateSafety.DelegationNeedsAssignment | cmd/gait/gate.go:559-602 | a required delegation passes iff different tokens among those at the paths the request names can be assigned to all its links |
| RateStore.Store.EnforceRateLimit | core/gate/rate_limit.go:53-121 | one call on any state file: errors, the decision its own counter gives, and the file afterwards; on a file that holds the limiter's counters, the decision and the counters of the model of runs; without a path nothing is stored and nothing refused |
| RateStore.Store.LoadCounters | core/gate/rate_limit.go:136-161 | no counters without a path or a file, an error for one that cannot be read or parsed, else what its entries come to |
| RateStore.Store.WriteCounters | core/gate/rate_limit.go:163-200 | the counters worth keeping, sorted by key, unless there is no path or the file cannot be written |
| RateStore.Store.PruneCounters | core/gate/rate_limit.go:202-218 | keys that do not have four parts and keys of other buckets of the window are dropped |
| RateStore.LoadedIff | core/gate/rate_limit.go:151-160 | a key has the count of its last entry with a positive count, or none; blank keys have none |
| RateStore.WrittenIff | core/gate/rate_limit.go:174-187 | the file has exactly one entry for each counter with a positive count and a key that is not blank, in the order of the keys |
| RateStore.StaysIff | core/gate/rate_limit.go:202-218 | pruning keeps exactly the keys of four parts of another window or of the current bucket |
| RateStore.RoundTripIff | core/gate/rate_limit.go:136-200 | reading back what was written gives the counters again iff every key is trimmed and not blank and every count positive |
| RateStore.SplitTextKey | core/gate/rate_limit.go:85-85 | splitting a text key at its first three bars gives window, scope, bucket and scope key again, whatever bars the last contains |
| RateStore.TextKeysDiffer | core/gate/rate_limit.go:85-85 | different keys have different texts |
| RateStore.SpelledCall | core/gate/rate_limit.go:87-120 | pruning, counting and incrementing on text keys is pruning, counting and incrementing on keys |
| RateLimiter.CountersRemember | core/gate/rate_limit.go:202-218 | in every run a stored counter is at most the number of calls admitted under its key, and equal to it iff no later call was admitted in another bucket of the window |
| RateLimiter.AnswerAddsUp | core/gate/rate_limit.go:93-120 | used and remaining add up to the limit, the stored count is what was used, a refusal has used the whole limit and changes nothing; scope and key are those of the call |
| RateLimiter.FailsIff | core/gate/rate_limit.go:53-120 | a limited call fails iff it is malformed, the state cannot be read, or it would be admitted and the state cannot be written; a limit of zero or less allows and counts nothing |
| RateLimiter.WellFormedIff | core/gate/rate_limit.go:58-80 | the calls turned away as malformed are those of an unsound intent, without identity or tool, or of an unknown window or scope |
| RateLimiter.BlankMeansDefault | core/gate/rate_limit.go:63-70 | a blank window is a minute, a blank scope tool and identity, and every script one tool |
| RateLimiter.LimiterIsExact | core/gate/rate_limit.go:84-120 | after any run the next call under a key is decided as by a limiter that forgets nothing, whatever its limit, iff the key was not lost |
| RateLimiter.LimitIsKept | core/gate/rate_limit.go:84-120 | a key is admitted more often than its limit iff some call was admitted beyond it after the key was lost |
| RateLimiter.BucketOrderLosesNothing | core/gate/rate_limit.go:202-218 | when no counted call comes after one of a later bucket of its window, no call finds its own key lost |
| RateLimiter.BucketOrderKeepsLimit | core/gate/rate_limit.go:84-120 | then no key is admitted more often than its limit |
| RateLimiter.BackwardClockForgets | core/gate/rate_limit.go:202-218 | a clock that returns to an earlier bucket gets a second call admitted under a limit of one |
| RateLimiter.BucketsAreClockWindows | core/gate/rate_limit.go:220-227 | two times share a bucket iff they lie in the same clock minute, or hour, and a bucket starts where that does |
| RateKeys.KeysSeparateCallers | core/gate/rate_limit.go:78-85 | calls counted under one key agree on clock window and scope, and on tool, identity or both as the scope says, iff in the last case neither tool name goes on after the other with what the identity begins with |
| RateKeys.SharedKeyIff | core/gate/rate_limit.go:123-134 | under the scope tool calls in one bucket share a key iff they have one tool, under identity iff they have one identity |
| RateKeys.JoinedEqualIff | core/gate/rate_limit.go:129-130 | the exact pairs of tool and identity that are joined to one text |
| RateKeys.ToolsCollideIff | core/gate/rate_limit.go:123-134 | two tools share a key for some identities iff they are the same or one name goes on after the other with a bar |
| RateKeys.BudgetTool | cmd/gait/gate.go:498-501 | the name a destructive budget is counted under survives normalisation |
| RateKeys.BudgetSharesOwnKeyIff | core/gate/intent.go:223-226 | the two calls of one evaluation share a counter, given one scope and window, iff the scope is identity or the intent is a script |
| RateKeys.FirstScriptIsRefused | cmd/gait/gate.go:487-510 | the first destructive script under a limit of one and a budget of one is refused by its own rate-limit call |
| RateKeys.BudgetsAreSeparate | cmd/gait/gate.go:498-501 | for tools without a bar budgets of different tools are apart, and apart from rate limits but for that of a tool called destructive_budget |
| RateKeys.BudgetMeetsTool | cmd/gait/gate.go:498-501 | that tool meets a budget iff its identity is the budget's tool, a bar and the budget's identity |
| RateKeys.BudgetCollision | cmd/gait/gate.go:498-501 | the budget of rm for alice and a tool called destructive_budget for rm followed by a bar and alice are counted together |
| RateLock.QuietRunsAreSerial | core/gate/rate_limit.go:229-281 | in every schedule of any number of processes in which no lock is removed while somebody is inside, the state file and every decision are those of the calls made one by one |
| RateLock.StepKeepsSerial | core/gate/rate_limit.go:87-120 | every atomic step but such a removal keeps that agreement |
| RateLock.PromptRunsAreQuiet | core/gate/rate_limit.go:322-347 | if the lock file never gets older than 15 seconds, no lock is taken over at all |
| RateLock.SuspectsAfterFifteen | core/gate/rate_limit.go:322-347 | a lock is suspected when it is older than fifteen seconds, and not before |
| RateLock.NeverStuck | core/gate/rate_limit.go:229-281 | in every schedule every process that has begun and not ended can take a step, if need be after a while |
| RateLock.AlwaysExclusiveIff | core/gate/rate_limit.go:229-281 | in a schedule no second process is ever inside, and none without the lock, iff no lock is removed while somebody is inside |
| RateLock.TakeOverIsHarmlessIff | core/gate/rate_limit.go:265-269 | after a take-over the taker can enter, and is alone inside iff nobody was inside before |
| RateLock.LimitHoldsAcrossProcesses | core/gate/rate_limit.go:53-121 | without an intrusion no more processes are allowed under a key than the calls, in the order of their decisions, admit, and just as many once every decided process was told; then the limit is kept iff that order leads to no excess |
| RateLock.TimelyRunsKeepLimit | core/gate/rate_limit.go:71-120 | without an intrusion the limit is kept when every call is decided in the bucket it began in |
| RateLock.LateWaiterBreaksLimit | cmd/gait/gate.go:488-488 | with a forward clock, no intrusion and nobody slow, a process that began a second before the minute and is served after one of the new minute makes a limit of one allow two |
| RateLock.SlowHolderBreaksLimit | core/gate/rate_limit.go:265-269 | a holder that takes sixteen seconds and one taker are both allowed under a limit of one |
| RateLock.TwoTakersBreakLimit | core/gate/rate_limit.go:265-269 | two processes that suspect the lock of a crashed one are both allowed under a limit of one, though neither is slow |
| DelegationChain.ValidateDelegationChain | core/gate/delegation.go:278-391 | an error iff the delegation is not well formed; complete iff different fitting tokens can be assigned to all links; the valid token ids are the canonical list of the matched tokens' ids; the entries list the links' outcomes, then the tokens left over with the reason |
| DelegationChain.ValidTokenIdsIff | core/gate/delegation.go:322-388 | an id is among the valid token ids iff it is the trimmed non-blank id of a matched token |
| DelegationChain.NormalizeDelegation | core/gate/intent.go:1067-1117 | refuses exactly the delegations without a requester, with a nameless or disconnected link, a last delegate other than the requester, or an expiry not after the issue; else trims every identity |
| DelegationChain.WellFormedIff | core/gate/intent.go:1067-1117 | let through iff the trimmed names run without a gap to the requester and, where both times are set, issue precedes expiry, for the delegation and for every link |
| DelegationChain.NormalIs | core/gate/intent.go:1067-1117 | requester and both names of every link are trimmed, link by link |
| DelegationChain.MatchLinks | core/gate/delegation.go:302-345 | link by link the first unused fitting token is taken |
| DelegationChain.PickToken | core/gate/delegation.go:304-338 | the first unused token that fits |
| DelegationChain.FirstFitFinds | core/gate/delegation.go:304-338 | the token found fits and is unused, no earlier one does, and none is found only if none does |
| DelegationChain.ValidateIs | core/gate/delegation.go:214-276 | why a token is not good for a link: first its form, then its delegator, its delegate, and what it claims |
| DelegationChain.LoneLink | core/gate/delegation.go:287-293 | without a chain one token made out to the requester is asked for, by whomever |
| DelegationChain.MatchedSize | core/gate/delegation.go:321-321 | the count of valid delegations is the number of links that got a token |
| DelegationChain.LinkEntryIs | core/gate/delegation.go:326-344 | a link's entry names its token, or says delegation_token_missing |
| DelegationChain.LeftoverCodeIs | core/gate/delegation.go:351-373 | a leftover token is reported with what keeps it from the first link without one, and as a chain mismatch when every link has one |
| DelegationChain.ExplainToken | core/gate/delegation.go:351-373 | a leftover token is explained by the first link left without one |
| DelegationChain.ListLeftovers | core/gate/delegation.go:347-383 | every unused token is listed once, in order |
| DelegationChain.GreedyIsSound | core/gate/delegation.go:302-338 | no token is used twice or for a link it does not fit |
| DelegationChain.GreedyIsOptimal | core/gate/delegation.go:302-391 | the first-come matching is complete iff a complete matching exists |
| DelegationChain.CompletenessForgetsOrder | core/gate/delegation.go:302-391 | the order of the tokens does not decide completeness |
| DelegationChain.GreedyNeedsSpecificLinks | core/gate/intent.go:1079-1087 | with a link that names no delegator next to others, the first-come matching would not be optimal: the check that excludes such chains is needed |
| DelegationChain.LeftoversDoNotFit | core/gate/delegation.go:347-372 | an unused token fits no link left without one |
| DelegationChain.FitsIff | core/gate/delegation.go:214-276 | a token is good for a link iff its own checks pass and it has every identity the link names |
| CanonicalList.MergeUniqueSorted | cmd/gait/gate.go:1383-1401 | the strictly increasing list of exactly the trimmed non-blank inputs |
| CanonicalList.UniqueSortedStrings | cmd/gait/registry.go:493-512 | the same list as merging into an empty one |
| CanonicalList.ListsUnique | cmd/gait/gate.go:1383-1401 | a set has only one strictly increasing list |
| CanonicalList.CleanMember | cmd/gait/gate.go:1388-1398 | what survives is exactly the non-blank trimmed inputs |
| CanonicalList.MergedIsUnion | cmd/gait/gate.go:1383-1401 | merging is commutative, associative and idempotent |
| CanonicalList.MergedIsCanonical | cmd/gait/gate.go:1383-1401 | two inputs merge to the same list iff they have the same trimmed non-blank members |
| FlagReorder.ReorderInterspersedFlags | cmd/gait/args.go:5-39 | flags with their values first, then the positionals |
| FlagReorder.OrderIsKept | cmd/gait/args.go:5-39 | flags and positionals each keep their original order |
| FlagReorder.OnlyDashesAreDropped | cmd/gait/args.go:13-17 | every argument is kept as often as it was given, but for the one terminator that was reached |
| FlagReorder.ReorderIsIdempotent | cmd/gait/args.go:5-39 | reordering again changes nothing when no terminator is reached |
| FlagReorder.FlagRequiresValueIff | cmd/gait/args.go:45-56 | a flag needs a value iff the map says so of its full text, or, where it is silent on that, of the text without dashes |
| FlagReorder.FlagMoves | cmd/gait/args.go:24-36 | a leading flag stays in front, alone if it carries its value or needs none, else with the next argument |
| FlagReorder.PositionalStays | cmd/gait/args.go:15-22 | any other argument, a lone dash too, goes between the flags and the positionals of the rest; what follows a terminator is left as it is |
| FlagMeaning.ReorderPreservesMeaning | cmd/gait/args.go:5-56 | for a correct value-flag map, stop-at-first-positional parsing of the reordered line is interspersed parsing of the original iff the line is safe (first positional no flag, no value missing) or a flag is wrong anyway |
| FlagMeaning.ReorderCanChangeMeaning | cmd/gait/args.go:27-35 | a trailing value flag takes a positional for its value; a flag-like positional after the terminator becomes a flag |
| FlagMeaning.FlagsThenTail | cmd/gait/args.go:18-38 | parsing the collected flags before any tail is parsing the flags of the original and then the tail |
| FlagMeaning.PositionalsAgree | cmd/gait/args.go:12-22 | the collected positionals are the meant ones, and only the last flag can lack its value |
| FlagMeaning.MissingValueIsStolen | cmd/gait/args.go:31-35 | a flag still waiting for its value swallows the first positional |
| FlagMeaning.WidthAgrees | cmd/gait/args.go:45-56 | under a correct map the reorderer and the parser agree on what a flag covers |
| Retention.Directory.ApplyRetentionClass | cmd/gait/mcp_server.go:649-716 | inactive limits and listing errors change nothing; otherwise the files behind the cut are removed up to the first refusal, and the counters are exact; directories and files of other classes stay |
| Retention.Directory.Collect | cmd/gait/mcp_server.go:658-682 | exactly the plain files of the class, newest first, unless one cannot be examined |
| Retention.Directory.Remove | cmd/gait/mcp_server.go:683-715 | the tail behind the cut is removed in order up to the first refusal |
| Retention.KeepSet | cmd/gait/mcp_server.go:683-688 | under a count limit the first maxCount paths are kept |
| Retention.AgeSplits | cmd/gait/mcp_server.go:692-692 | in newest-first order the expired files are a tail |
| Retention.SurvivorsAreAPrefix | cmd/gait/mcp_server.go:691-709 | survivors are a prefix of the newest-first order, at most maxCount long; a file survives iff it is young enough and among the first maxCount; all other files are untouched |
| Retention.OldestGoFirst | cmd/gait/mcp_server.go:685-709 | no removed file is younger than a kept one, files of one age go by descending name, kept files are within the age limit, and without a count limit removed ones are beyond it |
| Retention.MatchesIff | cmd/gait/mcp_server.go:718-739 | the names each class covers, written as prefix, part and ending |
| Retention.RemovedIsTheLargerCount | cmd/gait/mcp_server.go:704-715 | the number of files removed is the larger of the two counters |
| Retention.SweepsCompose | cmd/gait/mcp_server.go:649-716 | a sweep now and one later leave what one later sweep leaves |
| Retention.RunpackSweepSparesPacks | cmd/gait/mcp_server.go:718-732 | a pack file falls under the runpack class iff its name contains _cp_ |
| Retention.RunpackSweepTakesPack | cmd/gait/mcp_server.go:718-732 | the pack pack_a_cp_1.zip is swept with the runpacks |
| Retention.TracesAreSessionFiles | cmd/gait/mcp_server.go:721-735 | every trace file also falls under the session class |
| Telemetry.EveryRunIsSound | cmd/gait/main.go:241-274 | after every schedule of any number of calls the map, the snapshots and the file agree with the calls that are through |
| Telemetry.StepKeepsInvariant | cmd/gait/main.go:241-274 | every atomic step keeps that agreement |
| Telemetry.FreeLockCountsCalls | cmd/gait/main.go:246-255 | whenever the lock is free each stream has attempts = success + failed = the calls through, and success counts the successful ones |
| Telemetry.StreamNameIff | cmd/gait/main.go:242-245 | streams are counted together iff they are equal when trimmed, a blank one being unknown |
| Telemetry.NeverStuck | cmd/gait/main.go:241-274 | in every schedule some step is possible while some call is not done |
| Telemetry.SnapshotsGrow | cmd/gait/main.go:256-266 | in lock order snapshots are pointwise non-decreasing and never equal |
| Telemetry.FileHoldsASnapshot | cmd/gait/main.go:268-274 | the health file, once written, is one complete consistent snapshot, that of the call that wrote it |
| Telemetry.FileIsCurrentIff | cmd/gait/main.go:268-274 | the file shows the current counters iff its writer was the last to leave the critical section |
| Telemetry.FileCanLagBehind | cmd/gait/main.go:268-274 | two finished calls whose writes land out of order leave a file that counts one |
| InspectJoin.InspectRun | cmd/gait/run_inspect.go:106-169 | entry i carries the fields of the first result with intent i's id, or none; the unmatched results are sorted; one warning per repeated shown id, sorted |
| InspectJoin.IndexResults | cmd/gait/run_inspect.go:113-123 | the map answers like a search for the first result, and the results are the distinct raw ids plus the counted repeats |
| InspectJoin.JoinEntries | cmd/gait/run_inspect.go:125-142 | looking an id up in the map gives what the search gives |
| InspectJoin.LineIs | cmd/gait/run_inspect.go:125-142 | line k shows intent k, numbered from one, with every field of the first result recorded for its id, or blanks |
| InspectJoin.ByIdThenDigestIs | cmd/gait/run_inspect.go:152-157 | unmatched results are ordered by id and, under one id, by digest |
| InspectJoin.ShownIdIs | cmd/gait/run_inspect.go:115-118 | ids are shown trimmed, and blank ones as (empty) |
| InspectJoin.CollectUnmatched | cmd/gait/run_inspect.go:144-157 | a sorted permutation of the results whose id is no intent's |
| InspectJoin.Warnings | cmd/gait/run_inspect.go:159-169 | one warning per key of the duplicate counter, in sorted order |
| InspectJoin.WarnedIffRepeated | cmd/gait/run_inspect.go:113-122 | an id is warned about iff two results with one raw id are shown under it |
| InspectJoin.OrphansAreTheUnknown | cmd/gait/run_inspect.go:145-151 | unmatched results are those of unknown ids, each as often as recorded |
| PolicySimulation.RunPolicySimulate | cmd/gait/policy.go:452-517 | the first failing fixture aborts with its exit code; otherwise both histograms count every fixture once, the changed list is exact, and the recommendation means what it says about all fixtures |
| PolicySimulation.SortedVerdictCounts | cmd/gait/policy.go:764-775 | each verdict once, in sorted order, with its count |
| PolicySimulation.RecommendSimulationStage | cmd/gait/policy.go:789-810 | observe iff some change relaxes to allow; enforce iff no change relaxes or newly blocks |
| PolicySimulation.StageMeaning | cmd/gait/policy.go:789-810 | judged on the changes alone, no relaxation means the candidate allows a subset of what the baseline allowed, and no tightening that it blocks a subset |
| PolicySimulation.HistogramsAreClose | cmd/gait/policy.go:476-499 | for every verdict the two counts differ by at most the number of changed fixtures |
| PolicySimulation.ChangesAreTheDifferences | cmd/gait/policy.go:479-499 | a fixture is listed iff verdict, reasons, violations or rule differ |
| PolicySimulation.ChangedIff | cmd/gait/policy.go:479-499 | a fixture has an entry iff its verdicts, reasons, violations or rules differ; an entry gives both verdicts |
| PolicySimulation.ChangesRise | cmd/gait/policy.go:479-499 | at most one entry per fixture, in the order of the fixtures |
| PolicySimulation.NoMoreIff | cmd/gait/policy.go:789-810 | the two judgements spelled out: no fixture goes from another verdict to allow, none from another to block |
| PolicySimulation.SpelledTotal | cmd/gait/policy.go:764-775 | the written histogram adds up to the counters |
| RefsDrift.ClassifyRefsDrift | core/contextproof/diff.go:12-54 | an error for a bad header on either side; else the classification of normal forms of both sides, where they share all of their storage or none, and of what normalising left and then right makes of it, where they share any; afterwards the storage holds those, with all retrieval times overwritten unless there was no drift |
| RefsDrift.NormalizeRefs | core/contextproof/contextproof.go:253-288 | refuses exactly the bad headers, before it writes anything; else normalises the header, and the window holds the normalised receipts sorted by id, and nothing else changes |
| RefsDrift.NormalReceiptIff | core/contextproof/contextproof.go:270-281 | receipts are normalised to one iff they agree on everything but letter case and blanks in digests and immutability, blank for unknown, and no time for 1980 |
| RefsDrift.NormalReceiptFixes | core/contextproof/contextproof.go:270-281 | a receipt is left alone iff its digests and immutability are trimmed and lower-case, the latter not blank, and its time is set |
| RefsDrift.NormalHeaderIs | core/contextproof/contextproof.go:254-287 | mode and set digest are trimmed and lowered, a count of zero becomes the number of receipts, and nothing else changes |
| RefsDrift.GoodHeaderIff | core/contextproof/contextproof.go:253-275 | a header passes iff its trimmed mode is empty or spells one of the two modes in any case, its trimmed set digest is empty or 64 hexadecimal digits of either case, and its count is not negative |
| RefsDrift.NormalFormIsUniqueIff | core/contextproof/contextproof.go:283-283 | the unstable sort leaves only one result iff receipts with one id are equal once normalised |
| RefsDrift.NormalFormForgetsOrder | core/contextproof/contextproof.go:253-288 | listing the receipts in another order gives the same normal forms |
| RefsDrift.SameReceiptsDriftIff | core/contextproof/diff.go:12-54 | one header and the same receipts on both sides never drift iff receipts with one id are equal |
| RefsDrift.SharedIdExample | core/contextproof/diff.go:12-54 | two receipts under one id can be left in either order by the sort, and the two orders are semantic drift |
| RefsDrift.ClassifyNormalized | core/contextproof/diff.go:22-54 | on normalised refs the classification of the values before the call, wherever the windows overlap |
| RefsDrift.CompareRuntime | core/contextproof/diff.go:37-53 | overwriting one window does not disturb the comparison of the other |
| RefsDrift.RuntimeComparableRefs | core/contextproof/diff.go:56-63 | every retrieval time in the window, and nothing else in the storage, is overwritten |
| RefsDrift.DriftIsExact | core/contextproof/diff.go:31-53 | with an injective digest: none iff equal, runtime-only iff equal but for times and set digest, else semantic |
| RefsDrift.HeadersAreCompared | core/contextproof/diff.go:31-53 | with any digest: sides of different mode or count drift semantically, sides of different set digest drift, and a digest fails the call only where it is asked for |
| RefsDrift.DriftIsEquivalence | core/contextproof/diff.go:12-54 | symmetric; no drift and at most runtime drift are equivalences, the second containing the first |
| RefsDrift.SecondCallForgets | core/contextproof/diff.go:56-63 | a second call on what the first one left answers the same iff the sides do not differ in retrieval times alone; otherwise it reports no drift after runtime drift |
| RefsDrift.SecondCallExample | core/contextproof/diff.go:56-63 | two one-receipt refs retrieved a second apart: first runtime drift, then none |
| RefsDrift.StorageStaysNormal | core/contextproof/contextproof.go:253-288 | what a call leaves in the storage is its own only normal form, when ids tell the receipts apart |
| VersionResolver.IsPseudoVersion | cmd/gait/version_resolver.go:81-116 | accepts iff, trimmed and cut at the first plus, the string is base, separator, 14 digits, dash and at least 12 hex digits |
| VersionResolver.AnySeparator | cmd/gait/version_resolver.go:97-113 | the loop finds a separator iff one of the three fits |
| VersionResolver.PseudoIffTried | cmd/gait/version_resolver.go:87-113 | the only split a pseudo-version can have is the one at its last dash |
| VersionResolver.GoPseudoFormsAreRecognised | cmd/gait/version_resolver.go:81-116 | the three forms of the Go Modules Reference, section "Pseudo-versions", are recognised |
| VersionResolver.StrippingKeepsRelease | cmd/gait/version_resolver.go:70-79 | taking the leading v off a release version never yields a pseudo-version |
| VersionResolver.TrustedBuildInfoVersion | cmd/gait/version_resolver.go:52-68 | a version is returned iff it is semver-like, not the development default, not dirty and no pseudo-version, and what is returned is no pseudo-version either |
| VersionResolver.SemverLikeIff | cmd/gait/version_resolver.go:15-16 | the version pattern from left to right: optional v, three numbers, optional pre-release, optional build |
| VersionResolver.NormalizeExplicitIs | cmd/gait/version_resolver.go:41-50 | a stamp is trimmed, and loses its leading v iff it is a version |
| VersionResolver.ResolveCliVersion | cmd/gait/version_resolver.go:24-39 | never empty; a real stamp wins; else trusted build information, without its v, and without that the development default; only a stamp can make the result a pseudo-version |
| VersionResolver.NormalizeExplicitIsIdempotent | cmd/gait/version_resolver.go:41-50 | a normalised stamp stays as it is |
| RunIdentity.NormalizeRunIdShape | cmd/gait/mcp.go:1017-1031 | the result is empty or a run_ id over the alphabet without trailing underscore, and empty iff the input has no letter, digit or dash |
| RunIdentity.PiecesAreJoined | cmd/gait/mcp.go:1015-1031 | ids with any runs of other characters between them are joined by one underscore each, and prefixed unless they begin with run_ |
| RunIdentity.EndsDoNotMatter | cmd/gait/mcp.go:1017-1027 | whatever is no letter, digit or dash makes no difference at either end |
| RunIdentity.GapExample | cmd/gait/mcp.go:1015-1031 | "a b" and "a, b" become run_a_b, "ab" becomes run_ab |
| RunIdentity.NormalizeRunIdFixes | cmd/gait/mcp.go:1017-1031 | the fixed points are exactly the empty string and such ids |
| RunIdentity.NormalizeRunIdIsIdempotent | cmd/gait/mcp.go:1017-1031 | normalising twice changes nothing |
| RunIdentity.CapturesAreUnique | cmd/gait/ticket_footer.go:8-8 | the footer pattern can match a text in one way only |
| RunIdentity.ContractIffFormatted | cmd/gait/ticket_footer.go:10-25 | a text meets the contract iff the formatter writes it for some id and digest |
| RunIdentity.FooterText | cmd/gait/ticket_footer.go:10-17 | the text of a footer |
| RunIdentity.FooterRoundTrip | cmd/gait/ticket_footer.go:8-25 | reading a footer back gives the id and digest it was written with |
| RunIdentity.NormalizedIdsFit | cmd/gait/ticket_footer.go:10-25 | every non-empty normalised id with a valid digest gives an accepted footer |
| Percentile.PercentileInRange | scripts/check_command_budgets.py:193-207 | a percentile lies between the smallest and the largest sample |
| Percentile.PercentileInterpolates | scripts/check_command_budgets.py:201-207 | a rank of k and a fraction w lies that fraction of the way from the k-th smallest sample to the next |
| Percentile.PercentileEdges | scripts/check_command_budgets.py:194-200 | no samples give infinity; at or below 0 it is the least sample, at or above 100 the greatest |
| Percentile.PercentileRisesWithP | scripts/check_command_budgets.py:193-207 | it never falls as p grows |
| Percentile.PercentileForgetsOrder | scripts/check_command_budgets.py:193-207 | it does not depend on the order of the samples |
| Percentile.PercentileFiftyIsMedian | scripts/check_command_budgets.py:200-207 | at 50 it is the median |
| Percentile.OrderStatisticsDominate | scripts/check_command_budgets.py:200-200 | the k-th smallest of larger samples is larger |
| Percentile.PercentileRisesWithSamples | scripts/check_command_budgets.py:193-207 | it never falls when every sample is replaced by one at least as large |
| Percentile.AtMonotone | scripts/check_command_budgets.py:201-207 | interpolation between order statistics is monotone in the rank |
| BalancedPairs.HasBalancedPairs | scripts/check_docs_site_validation.py:102-111 | true iff the text is derivable in S -> empty, other S, open S close S; for equal brackets, iff the bracket does not occur |
| BalancedPairs.AcceptsIffDerives | scripts/check_docs_site_validation.py:102-111 | the depth counter accepts exactly the language of that grammar |
| BalancedPairs.AcceptedIsParsed | scripts/check_docs_site_validation.py:103-111 | from an accepted text the derivations of its pending pairs can be read off |
| BalancedPairs.YieldIsNeutral | scripts/check_docs_site_validation.py:103-110 | a derived text leaves the counter where it was |
| BalancedPairs.DerivationIsUnique | scripts/check_docs_site_validation.py:102-111 | the grammar is unambiguous |
| LaneScorecard.EvaluateLane | scripts/check_integration_lane_scorecard.py:118-144 | the rounded metrics, the rounded scores of the five metrics, and their rounded weighted sum |
| LaneScorecard.RankLanes | scripts/check_integration_lane_scorecard.py:147-150 | the lanes by falling score, then by id |
| LaneScorecard.DecisionFor | scripts/check_integration_lane_scorecard.py:153-186 | the decision read off the lead of the first over the second, which is never clipped |
| LaneScorecard.MetricWeights | scripts/check_integration_lane_scorecard.py:12-18 | raising one metric alone moves the score by its weight: a quarter each for setup time and failure rate, a fifth each for determinism and policy correctness, a tenth for reach |
| LaneScorecard.ReportedItem | scripts/check_integration_lane_scorecard.py:118-144 | a lane is reported with its own metrics, the part of each that counts, and the weighted sum of those parts |
| LaneScorecard.DecisionMeaning | scripts/check_integration_lane_scorecard.py:153-186 | the winner is one of the lanes; confidence is low, medium or high by whether another comes within 0.03 or 0.08; expansion takes 0.75 and nobody within 0.03; the runner-up and the confidence are those of the second |
| LaneScorecard.RankedApart | scripts/check_integration_lane_scorecard.py:147-150 | ranked lanes have different ids, falling scores, and ascending ids under one score |
| LaneScorecard.ScoreIsInUnit | scripts/check_integration_lane_scorecard.py:107-129 | a valid lane's unrounded score lies between 0 and 1 |
| LaneScorecard.SetupScoreShape | scripts/check_integration_lane_scorecard.py:107-111 | setup time counts fully at zero, not at all from 30 minutes on, and proportionally between |
| LaneScorecard.ImprovementRaisesScore | scripts/check_integration_lane_scorecard.py:107-129 | improving metrics never lowers the unrounded score |
| LaneScorecard.RankingForgetsOrder | scripts/check_integration_lane_scorecard.py:147-186 | ranking and decision do not depend on the order of the input |
| LaneScorecard.PositionIsCount | scripts/check_integration_lane_scorecard.py:147-150 | a lane's position is the number of lanes ahead of it |
| LaneScorecard.ImprovementNeverHurts | scripts/check_integration_lane_scorecard.py:107-150 | improving metrics of one lane never moves it down |
| LaneScorecard.WinnerIsBest | scripts/check_integration_lane_scorecard.py:153-186 | the selected lane has the best score, leads every other by the stated margin, and expansion is allowed iff the score is at least 0.75 and the confidence is not low |

## Left out

- Flag declarations, usage texts, explain texts, JSON and console output: plumbing without a decision.
- The start of `gait gate eval` up to the policy outcome (profile keys, kill switch, context envelope, inventories, the approved-script fast path): each is an early exit or an input of the modelled pipeline; only the strict profile's refusal of simulation is kept.
- Policy rule matching, approval token validation, credential issuing and receipt checks: arbitrary answers in the gate's `Request`; no property of them is claimed.
- Writing traces and audit files after the decision, token references and credential details in the report: copied values that decide nothing.
- Approval tokens are counted per path, as the code does; two paths holding the same token id count twice.
- Signatures, digests and JSON: parameters; a digest is assumed injective only in `RefsDrift`.
- RateLock: the lock file's age is its creation time on one clock; failing writes of its metadata and platform errors count as giving up.
- DelegationChain.ValidateDelegationChain: the link-independent checks of a token are given by their codes; the used flags are a set of indices; scopes, times and references of links, tokens and entries decide nothing else and are not modelled.
- RateStore.Store.EnforceRateLimit: checks of an intent other than tool name and identity are one answer; the time format is any that gives different bar-free texts for different buckets; the schema fields of the state file are not modelled.
- GateSafety.AllowsStayWithinLimit: for a state path that is not blank and a lock that is never taken over from a holder; without a path nothing is ever refused.
- Retention.Directory.ApplyRetentionClass: one class in one directory at a time, on file names instead of joined paths; a file that is already missing counts as removed, as in the code.
- Telemetry: a call that cannot write the health file, or has no path for it, is a write that changes nothing; each call is its own thread, which includes every order of calls within one thread.
- VersionResolver.IsPseudoVersion: strings are ASCII; for other text the code cuts bytes and accepts any Unicode digit.
- Strings are code points; lower-casing covers the letters that can decide equality with an ASCII word.
- InspectJoin.InspectRun: results come with verdict, reasons and violations already taken from their payload; the session-chain branch of the command is not modelled.
- PolicySimulation.RunPolicySimulate: fixtures are numbered instead of named, and the digests and code lists copied into a change are not modelled.
- LaneScorecard.EvaluateLane: rounding is any map, monotone where ranks are compared.
- Floating-point rounding and 64-bit overflow: exact reals and unbounded integers.
- Per-command value-flag maps: the meaning theorem takes any map that matches the flag set.
