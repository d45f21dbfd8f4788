# SynapBus verification

A Dafny model of the parts of SynapBus that keep rules of their own, with proofs that they keep them. A database
table is a `map` from ids to rows, an SQL statement is one atomic step, and a service that changes tables is a `class`
whose fields are those tables. Every method that changes state is proved against a value-level step function, and the
main results are lemmas about that step function over every run. `dafny verify dfyconfig.toml` checks the whole
project.

| file | what it covers |
|---|---|
| `Common.dfy`, `Text.dfy` | options and results, listings of sets, the Go string functions used elsewhere |
| `TaskTypes.dfy`, `TaskTable.dfy` | goal tasks as rows, the ancestry size cap, what the denormalized ancestry means in terms of parent pointers |
| `TaskTree.dfy` | flattening a task specification into rows and reading the tree back |
| `Rollup.dfy` | costs of a subtree in three ways, conservation under grouping by billing code and over whole goals |
| `TaskLifecycle.dfy` | claims and transitions over every interleaving, with a transition split into its read and its write |
| `TaskStore.dfy` | the goal task store and service as a class |
| `Report.dfy` | the report's tree rebuild, totals and billing rows |
| `Auction.dfy` | the task auction, whole calls and overlapping ones, and batched expiry |
| `Channels.dfy` | channel membership, invites, the my-agents helpers |
| `Slug.dfy`, `Goals.dfy` | slugs and their allocation, goals and the channels that back them, goal status, the budget cascade over the task rollup |
| `Wiki.dfy` | the printer and parser of exported wiki articles |
| `Bm25.dfy` | the action index and ranked search |
| `SseHub.dfy`, `SseRuns.dfy` | the event hub, and every interleaving of its calls with broadcasts taken send by send |
| `LoginLimiter.dfy` | the login throttle |

How the outside world enters:

* Row ids are handed out by a counter, so a new id exceeds every id in its table. Unset optional columns are `None`.
* A database refusal that does not depend on the row itself (a foreign key, a full disk, a lost connection) is a
  parameter of `CreateTree`: `refuses`, the ids whose insert fails, and `begin` and `commit` for the transaction. The rules that do
  depend on the row (status check, a creator is named, ancestry size) are in the model.
* The clock is a parameter of each call, in integers. The login limiter takes every single reading as its own argument.
* `float64` is `real`, `math.Log` is any function that is positive above one, `strconv.IsPrint` and the lower-casing of
  a rune are function parameters.
* Where Go iterates over a map or SQL leaves an order open, the model picks elements arbitrarily, so each result holds
  for every order.
* A budget check is `EvaluateBudget` followed by the two setters its verdict asks for, as the comment on
  `EvaluateBudget` prescribes (`CheckBudget`).

Where the code and its comments differ, the model follows the code:

* `goals.Complete` is documented as allowing any status to become cancelled, and stuck only from draft or active. In
  the code a completed goal cannot be cancelled, and paused goals may complete, get stuck or be cancelled.
* The comment on `goals.TransitionStatus` leaves out moves the code allows, among them paused and draft to completed
  or stuck, and stuck to completed. `LegalMoves` is the exact rule.
* A root task's ancestry is stored as the text `null`, not as an empty list; it is read back as the empty chain.

Properties that do not hold without a condition, each with an input that breaks it and the exact condition:

| property | breaks | holds exactly |
|---|---|---|
| a claimed task has an assignee | `TaskLifecycle.ClaimedByNobody` | `TaskLifecycle.UnassignedExactly`: unless a transition moved it to claimed |
| an assigned task is not proposed or approved, under interleaving | `TaskLifecycle.StaleWriteReapproves` | `TaskLifecycle.ProperExactly`: unless an approval lands on an assigned task |
| a task's rank never falls, under interleaving | `TaskLifecycle.StaleWriteReapproves` | `TaskLifecycle.RankExactly`: unless a write lands on a task that is further on |
| a final goal status stays, under interleaving | `Goals.PausedAfterCompletion` | `Goals.FinalExactly`: unless a change to another status lands on a final goal |
| the auction stays settled, under overlapping calls | `Auction.TwoWinners`, `Auction.ExpiredButAssigned` | `Auction.SettledExactly`: unless a bid or an accept lands stale |
| a late invitation leaves no member with a pending invite | `Channels.LateInvite` | `Channels.LateInvite`: unless the agent has joined an invite-only channel |
| a client sees broadcasts in the order they began | `SseRuns.OrdersDiffer` | `SseRuns.OrderExactly`: unless a send overtakes an older broadcast |
| the three failures before a refusal lie within a minute | `LoginLimiter.SlowFailuresRefused` | `LoginLimiter.RefusedExactly`: what counts is the time from recording one failure to letting the next attempt through |
| the announced wait is at most one second too long | `LoginLimiter.WaitPastTheMinute` | `LoginLimiter.WaitIsTight`: unless the minute ran out between the two clock readings, and not by whole seconds |

## Model

| member | source | states |
|---|---|---|
| TaskTypes.NullableString | internal/goaltasks/store.go:288-293 | an empty string is never stored, only NULL |
| TaskTypes.AncestryBytesGrow | internal/goaltasks/types.go:104-118 | the stored chain gets strictly longer with each level, so a child never fits where its parent did not |
| TaskTypes.AncestrySize | internal/goaltasks/types.go:104-118 | the size compared with the cap is the number of UTF-8 bytes of the JSON text in the column, escapes and the dropped empty criteria included |
| TaskTable.SnapshotIsChain | internal/goaltasks/service.go:62-97 | rows that agree with their parent's row are exactly the rows whose ancestry is the whole root-to-parent chain of ids, titles and criteria and whose depth is its length |
| TaskTable.SnapshotEntries | internal/goaltasks/service.go:62-97 | in a correct index the last entry is the parent, each entry is the parent of the next, and each carries the id, title and criteria of its row |
| TaskTable.UnderIsListed | internal/goaltasks/types.go:109-130 | a task is below another by parent pointers if and only if its ancestry lists it |
| TaskTable.UnderOneRoot | internal/goaltasks/service.go:56-101 | every task belongs to exactly one tree, of its own goal |
| TaskTable.LinkedSameShape | internal/goaltasks/store.go:109-161 | updates of working columns leave the denormalized index correct |
| TaskTable.ChildIds | internal/goaltasks/store.go:164-170 | the children of a row, each once and in id order, and nothing else |
| TaskTree.GrownLinked | internal/goaltasks/service.go:56-103 | adding the rows of a whole tree to a table with a correct index gives a table with a correct index |
| TaskTree.HeldTree | internal/goaltasks/service.go:56-103 | wherever a table holds the rows of a specification, and points into their ids only from within, its pointers read back as the tree that was asked for, siblings in order |
| TaskTree.ReadsAsUnique | cmd/docgardener/report.go:240-255 | there is one ordered tree that agrees with the pointers at a row |
| TaskTree.AskedAgrees | internal/goaltasks/service.go:57-78 | node by node, a row holds what its node asks for: texts, budgets, verifier and heartbeat, the node's own billing code or else the default one or else NULL, the given status or else approved, the creator, and no assignee, spend or times |
| TaskTree.FlattenRebuild | internal/goaltasks/service.go:42-110 | flatten, then rebuild from parent pointers: for every specification and every table the tree at the new root agrees with the specification, node by node and child by child |
| TaskTree.KeptTree | internal/goaltasks/store.go:109-161 | as long as rows keep what was asked for and nothing new hangs under an old row, the tree at an old row has the same shape and in every row the same asked-for columns |
| Rollup.TreeCovers | internal/goaltasks/store.go:164-178 | the tree of a row lists each of its descendants exactly once, and its recursive total is the total over them |
| Rollup.SumEnumerated | internal/goaltasks/store.go:164-178 | the total over a set of rows is the sum of spent tokens, the sum of spent cents and the number of rows, in whatever order they are listed |
| Rollup.SumCount | internal/goaltasks/store.go:173-174 | the count is the number of the rows, whatever is in them |
| Rollup.RollupThreeWays | internal/goaltasks/store.go:164-178 | totals by parent pointers, by ancestry snapshot and by tree shape agree (tokens, cents and count) |
| Rollup.RollupCounts | internal/goaltasks/store.go:164-178 | the rollup of a task counts it and everything below it, by pointers or by ancestry entries |
| Rollup.SpendReachesAncestors | internal/goaltasks/store.go:154-178 | a spend raises the rollup of the task and of each task above it by its amount, and no other rollup |
| Rollup.GroupsConserve | internal/goaltasks/store.go:181-206 | grouping by billing code loses and doubles nothing, in any order of the groups |
| Rollup.GoalIsItsTrees | cmd/docgardener/report.go:216-231 | a goal's total is the sum of the rollups of its roots, however many it has |
| TaskLifecycle.StatementsKeepShape | internal/goaltasks/store.go:109-161 | claim, status and spend statements keep the index correct |
| TaskLifecycle.StatementEffects | internal/goaltasks/store.go:109-151 | column by column, what a claim and a status write set, and that they leave every other column and row alone; a given failure reason or message is stored and a missing one leaves the old |
| TaskLifecycle.RunKeepsIndex | internal/goaltasks/service.go:42-140 | over every interleaving of creations, claims, spends, and transition reads and writes, every ancestry is the true chain and every depth its length |
| TaskLifecycle.RunKeepsTree | internal/goaltasks/service.go:42-140 | over every interleaving the tree at a row keeps its shape and every column that was asked for |
| TaskLifecycle.StepWritesOnce | internal/goaltasks/store.go:109-151 | a non-null assignee, a set start time and the fact of completion survive every single statement |
| TaskLifecycle.ClaimedOnce | internal/goaltasks/store.go:109-151 | over every interleaving, stale writes included, at most one claim of a task succeeds, none does once it has an assignee, and the assignee is the winner from then on |
| TaskLifecycle.StaleWriteReapproves | internal/goaltasks/service.go:118-127 | a concrete interleaving puts a claimed task back to approved; a second claim still fails |
| TaskLifecycle.StepProper | internal/goaltasks/service.go:118-127 | one step puts an assigned task back to the start exactly if a stale approval lands, and lowers its rank exactly if a late write lands |
| TaskLifecycle.ProperExactly | internal/goaltasks/service.go:118-127 | over every interleaving an assigned task is never proposed or approved, if and only if no approval lands on an assigned task |
| TaskLifecycle.RankExactly | internal/goaltasks/service.go:118-127 | over every interleaving a task's rank never falls, if and only if no write lands on a task that is further on |
| TaskLifecycle.LegalByRank | internal/goaltasks/service.go:155-172 | a live task may be cancelled or go up one rung, a claimed one may skip one rung; nothing else is legal |
| TaskLifecycle.FreshTidy | internal/goaltasks/service.go:43-45 | with which initial statuses a task starts its life in order |
| TaskLifecycle.CallAdvances | internal/goaltasks/service.go:112-127 | an accepted call strictly raises the task's rank, a refused one changes neither status, assignee nor times |
| TaskLifecycle.Lifecycle | internal/goaltasks/service.go:112-172 | under serialized calls a task takes at most five accepted steps, final statuses absorb, completed_at is set exactly in them, started_at is written at most once, an assigned task is never proposed or approved |
| TaskLifecycle.ClaimedByNobody | internal/goaltasks/service.go:162-163 | a transition can claim a task for nobody, and no claim wins it any more |
| TaskLifecycle.AssigneeSettled | internal/goaltasks/service.go:112-172 | past its starting statuses a task's assignee never changes and nothing moves it to claimed |
| TaskLifecycle.UnassignedExactly | internal/goaltasks/service.go:112-172 | a task that has left its starting statuses, not by being cancelled, has nobody assigned if and only if a transition moved it to claimed |
| TaskStore.AskedPreorder | internal/goaltasks/service.go:79-97 | the order of insertion is preorder, so the ids are consecutive |
| TaskStore.FitsIsInsertable | internal/goaltasks/service.go:79-97 | the walk goes through if and only if every single row is accepted, at whatever depth |
| TaskStore.Store.Insert | internal/goaltasks/store.go:29-81 | a row is accepted exactly if its ancestry text has at most 16384 bytes, its status is one of the eight, a creator is named and the database takes it; a refusal changes nothing and says whether the ancestry was too long |
| TaskStore.Store.Walk | internal/goaltasks/service.go:56-99 | the recursive walk inserts exactly the planned rows and appends their ids in order; if it fails, it has inserted exactly the rows before the first refused one, in preorder, and reports that row's error |
| TaskStore.Store.WalkChildren | internal/goaltasks/service.go:92-96 | the loop over children does the same for a list of subtrees |
| TaskStore.Store.CreateTree | internal/goaltasks/service.go:42-110 | succeeds exactly when no row and no transaction step is refused; then the tree at the returned root agrees with the specification node by node and the returned ids are its preorder; otherwise the table is unchanged and the error is that of the first refused row, an ancestry overflow included, or of the transaction |
| TaskStore.StopsOnce | internal/goaltasks/service.go:79-97 | there is only one first refused row, so the error is determined |
| TaskStore.Store.ClaimAtomic | internal/goaltasks/store.go:109-132 | wins exactly if the task is approved and unassigned, and is reported as already claimed otherwise; the columns it sets |
| TaskStore.Store.TransitionStatus | internal/goaltasks/store.go:136-151 | the unconditional update column by column, which keeps the index |
| TaskStore.Store.Transition | internal/goaltasks/service.go:118-127 | one serialized read, check and write is one call step of the lifecycle; the three errors; the columns it sets |
| TaskStore.Store.AddSpend | internal/goaltasks/store.go:154-161 | after a spend the rollup of every task is the old one, plus the amount exactly for the task and those above it |
| TaskStore.Store.Subtree | internal/goaltasks/store.go:165-171 | the worklist over parent pointers terminates and visits each descendant once and nothing else |
| TaskStore.Store.RollupCosts | internal/goaltasks/store.go:164-178 | tokens and cents are the sums over the descendants in any listing of them, the count is their number; the same by the rows that list the root and by the tree |
| TaskStore.Store.RollupByBillingCode | internal/goaltasks/store.go:181-206 | one entry per code among the descendants, none overwritten, and the entries add up to the rollup of the same root |
| TaskStore.GroupTotal | internal/goaltasks/store.go:182-191 | one group holds exactly the selected rows with that code |
| TaskStore.EntriesConserve | internal/goaltasks/store.go:196-205 | the entries of the map add up to the whole, in whatever order they are listed |
| Report.LooselySame | cmd/docgardener/report.go:239-255 | two trees that agree with the pointers differ in nothing but the order of siblings |
| Report.LooseIsTableTree | cmd/docgardener/report.go:239-255 | such a tree has every descendant exactly once and is the tree of its root up to sibling order |
| Report.RebuildRoundTrip | cmd/docgardener/report.go:216-255 | create a tree in any table, rebuild at the goal's newest root in any order: the specification's tree up to sibling order, each new row exactly once |
| Report.Resolve | cmd/docgardener/report.go:243-254 | the recursion ends, and whatever order the map is met in, the result agrees with the pointers |
| Report.LoadRows | cmd/docgardener/report.go:216-231 | totals over all rows of the goal; the root with the largest id wins |
| Report.AppendChildren | cmd/docgardener/report.go:233-239 | the first pass leaves only the children lists in doubt |
| Report.LeastCode | cmd/docgardener/report.go:263-265 | the next code in text order, a missing one first |
| Report.AtMostExactly | cmd/docgardener/report.go:263-265 | text order: a prefix comes first, otherwise the first differing character decides |
| Report.BillingRows | cmd/docgardener/report.go:262-277 | one row per code, in the order of the codes, each over exactly its tasks, adding up to the goal's total |
| Report.BuildSnapshot | cmd/docgardener/report.go:216-277 | tree, totals and billing rows of any goal, and when the tree is missing |
| Report.SingleTreeGoal | cmd/docgardener/report.go:228-229 | for a goal with a single tree the report's total is the rollup of its root and the total of its tree |
| Report.SingleTreeBilling | cmd/docgardener/report.go:262-277 | for such a goal the report's billing rows are the entries of the root's rollup by billing code |
| Auction.CallKeepsInv | internal/channels/swarm_service.go:32-262 | one call keeps the auction settled, moves statuses legally, and changes no earlier assignment or decision |
| Auction.RunKeepsInv | internal/channels/swarm_service.go:32-262 | the same over every run; status only goes open, assigned, completed or open, cancelled |
| Auction.AuctionOutcome | internal/channels/swarm_service.go:153-262 | in every state reached from empty tables: open or cancelled tasks have only pending bids and no assignee; others have exactly one accepted bid, its agent is the assignee and not the poster, and every other bid is rejected and by someone else |
| Auction.RefusedUnlessAllowed | internal/channels/swarm_service.go:32-262 | each call is refused if and only if its caller may not make it (members post and bid, the poster accepts an open task's own bid, the assignee completes), and the error names a reason that is true |
| Auction.AcceptGives | internal/channels/swarm_service.go:153-220 | after an accept the task is assigned to the accepted bid's agent, that bid is accepted, every other pending bid of the task rejected, everything else as before |
| Auction.WhoseCall | internal/channels/swarm_service.go:32-262 | a new task, a new bid, an assignment, a completion and a cancellation each come only from the one kind of call entitled to it |
| Auction.OnlyPosterAssigns | internal/channels/swarm_service.go:153-202 | over every run an open task is assigned or completed only if its poster accepted a bid on it |
| Auction.CancelKeepsInv | internal/channels/task_store.go:327-376 | cancelling any set of open tasks keeps the auction settled |
| Auction.CheckThenLand | internal/channels/swarm_service.go:94-262 | with nothing in between, the checks and the writes of a bid, accept or completion make up the whole call |
| Auction.StepGrounded | internal/channels/swarm_service.go:94-262 | under overlap, writes still to come are about rows that exist |
| Auction.StepGoesWell | internal/channels/swarm_service.go:94-262 | one step of overlapping calls keeps the auction settled and moves statuses legally, if and only if it is no stale landing |
| Auction.SettledExactly | internal/channels/swarm_service.go:94-262 | over every run of overlapping calls and expiry batches the auction stays settled, if and only if no bid lands on a decided task and no accept on a task neither open nor already given to the same bid |
| Auction.TwoWinners | internal/channels/swarm_service.go:153-202 | two accepts that both found the task open leave it with two accepted bids |
| Auction.ExpiredButAssigned | internal/channels/swarm_service.go:153-202 | an accept that found the task open assigns it after it has expired |
| Auction.ExpireBatch | internal/channels/task_store.go:331-360 | a batch of due rows adds to what is cancelled and counted, and leaves fewer due rows |
| Auction.SwarmService.PostTask | internal/channels/swarm_service.go:32-91 | posts exactly for a member of an auction channel with a deadline that is not past; the new open row; its refusals in order |
| Auction.SwarmService.BidOnTask | internal/channels/swarm_service.go:94-150 | bids exactly for members of the channel other than the poster, on an open task, once per agent; the row it adds; its refusals in order |
| Auction.SwarmService.UpdateTaskStatus | internal/channels/task_store.go:175-197 | the assignee is overwritten only if one is given |
| Auction.SwarmService.AcceptBid | internal/channels/swarm_service.go:153-220 | succeeds if and only if the caller posted the task, the task is open and the bid is one of its bids; then that bid is accepted, every other pending bid of the task rejected whatever the order, no other task's bid touched |
| Auction.SwarmService.CompleteTask | internal/channels/swarm_service.go:223-262 | only by the assignee of an assigned task; completing again changes nothing |
| Auction.SwarmService.PickBatch | internal/channels/task_store.go:340-345 | at most 500 of the eligible rows, any of them, and all of them if there are fewer |
| Auction.SwarmService.ExpireRows | internal/channels/task_store.go:308-361 | the batched loop terminates and cancels exactly what one unbounded update would, changes no other row and returns their number; stopped between batches, the total counts the rows cancelled so far |
| Auction.SwarmService.ExpireTasks | internal/channels/swarm_service.go:320-336 | the same through the service, which drops the count of an interrupted run; then only due tasks have been cancelled and nothing else has changed |
| Auction.CancelsOnlyDue | internal/channels/task_store.go:308-361 | whatever part of an expiry run went through, it cancelled only open tasks past their deadline, and all of them if it finished |
| Auction.SwarmService.CancelTasksByChannel | internal/channels/task_store.go:364-376 | exactly the channel's open tasks are cancelled, and counted |
| Channels.CallKeepsInv | internal/channels/service.go:42-723 | one call keeps an owner in every channel, names unique, and members free of pending invites in invite-only channels; a member who stays keeps the role |
| Channels.RunKeepsInv | internal/channels/service.go:42-723 | the same over every run; a deleted channel never comes back |
| Channels.ValidNameExactly | internal/channels/validate.go:9-25 | the name pattern in plain terms |
| Channels.LowerExactly | internal/channels/validate.go:27-30 | lower-casing shifts the letters A to Z and nothing else |
| Channels.TrueReason | internal/channels/service.go:42-723 | the error of a refused call names a reason that is true |
| Channels.JoinDoes | internal/channels/service.go:101-153 | after a join the agent has a seat, a new one as member, a private channel's invite is used up, and nothing else changes |
| Channels.LeaveDoes | internal/channels/service.go:156-194 | after leaving the seat is gone and nothing else changes |
| Channels.InviteDoes | internal/channels/service.go:220-268 | after an invitation it is pending from the inviter, or the agent was a member already, and nothing else changes |
| Channels.KickDoes | internal/channels/service.go:271-311 | after a kick the seat is gone and nothing else changes |
| Channels.MineDoes | internal/channels/service.go:635-684 | afterwards the human has a seat in the channel of that name, as owner if the seat is new; a new channel is a private system channel |
| Channels.InviteLedger | internal/channels/service.go:101-311 | in an invite-only channel, one call's entries and remaining invites balance with the invites before it and those an owner writes |
| Channels.EntriesArePaid | internal/channels/service.go:101-311 | over every run, the entries of an agent to an invite-only channel are exactly the invitations owners wrote, plus one pending at the start, less one left at the end |
| Channels.ReentryNeedsInvite | internal/channels/service.go:156-311 | after leaving or being kicked from an invite-only channel, an agent is back only if an owner invited it again in between |
| Channels.MineElsewhere | internal/channels/service.go:628-723 | the my-agents helpers touch no channel whose name does not begin as theirs do |
| Channels.LateInvite | internal/channels/service.go:220-268 | an invitation written after its membership check went stale breaks the rule about pending invites, if and only if the agent has become a member of an invite-only channel |
| Channels.Service.AddMember | internal/channels/store.go:202-219 | re-adding a member changes nothing, the role least of all |
| Channels.Service.RemoveMember | internal/channels/store.go:222-236 | removes the seat, or reports that there was none |
| Channels.Service.CreateInvite | internal/channels/store.go:308-324 | the invite is pending afterwards, new or old, from the latest inviter |
| Channels.Service.AcceptInvite | internal/channels/store.go:357-371 | only a pending invite is accepted |
| Channels.Service.ChannelByName | internal/channels/store.go:101-117 | finds the one channel of that name, or none |
| Channels.Service.CreateChannel | internal/channels/service.go:42-98 | refused exactly for a bad or taken name; the creator becomes owner |
| Channels.Service.JoinChannel | internal/channels/service.go:101-153 | a successful join seats the agent, in any kind of channel; idempotent for members; private channels take a pending invite in exchange |
| Channels.Service.LeaveChannel | internal/channels/service.go:156-194 | refused in order for unknown and system channels, strangers and owners |
| Channels.Service.DeleteChannel | internal/channels/service.go:197-217 | takes its seats and invites along and nothing else; never for a system channel |
| Channels.Service.InviteToChannel | internal/channels/service.go:220-268 | only an owner's invitation counts, and members are not invited again |
| Channels.Service.KickFromChannel | internal/channels/service.go:271-311 | only by an owner, never oneself |
| Channels.Service.AutoJoin | internal/channels/service.go:493-511 | senders join public channels, and are members afterwards; private ones refuse them, even with an invite |
| Channels.MineName | internal/channels/service.go:628-630 | every such name begins with `my-agents-`, whatever the user name |
| Channels.Service.EnsureMyAgentsChannel | internal/channels/service.go:635-684 | the human owns the channel afterwards unless already a member |
| Channels.Service.JoinMyAgentsChannel | internal/channels/service.go:688-723 | joins the channel if it exists, and does nothing otherwise |
| Slug.ScanJoins | internal/goals/store.go:177-196 | at each rune the builder holds the words so far joined by dashes |
| Slug.SlugIsItsWords | internal/goals/store.go:177-200 | a slug is the title's words joined by single dashes, or `goal`: never empty, over a-z, 0-9 and inner single dashes |
| Slug.SlugOfTwo | internal/goals/store.go:177-200 | between two plain words a blank, dash, underscore, slash or dot becomes one dash, a plain character stays, and any other character vanishes |
| Slug.SlugIdempotent | internal/goals/store.go:177-200 | making a slug of a slug changes nothing |
| Slug.Slugify | internal/goals/store.go:177-200 | the loop over the runes computes it |
| Slug.CandidateIsSlug | internal/goals/service.go:42-53 | numbered candidates are slugs too, and `goal-` plus a slug matches the channel name pattern of internal/channels/validate.go |
| Slug.CandidatesDiffer | internal/goals/service.go:42-53 | the candidates are all different |
| Slug.FirstFreeUnique | internal/goals/service.go:42-53 | the choice among the candidates is forced |
| Slug.PickSlug | internal/goals/service.go:42-53 | the first free of base, base-2 up to base-98, or base-99 if all are taken |
| Goals.GoalChannelName | cmd/synapbus/goals_adapter.go:18-37 | a slug's channel name is stored unchanged and can be refused for its length only, exactly above 59 characters of slug |
| Goals.LegalMoves | internal/goals/service.go:169-188 | the legal moves in one rule |
| Goals.AtLeastScaled | internal/goals/service.go:145-162 | reaching a percentage is the integer comparison a budget owner would make |
| Goals.VerdictExactly | internal/goals/service.go:145-162 | in whole cents and with the limits 80 and 100: when a spend calls for the alert and when for a pause |
| Goals.FinishedAs | internal/goals/service.go:117-129 | field by field, what completing a goal records, and that a refused or repeated completion records nothing |
| Goals.AlertOnce | internal/goals/service.go:138-167 | over every run the 80% alert is posted exactly once if any check sees at least 80% and it was not posted before, otherwise never |
| Goals.CheckPauses | internal/goals/service.go:138-167 | right after an applied check at 100% or more the goal is not active; a check changes no other status |
| Goals.FinalStays | internal/goals/service.go:95-129 | completed and cancelled goals keep their status over every run |
| Goals.ReadThenWrite | internal/goals/service.go:95-129 | with nothing in between, the read and the unconditional write of a status change make up the whole call |
| Goals.FinalExactly | internal/goals/service.go:95-129 | over every interleaving final statuses stay, if and only if no change to another status lands on a final goal |
| Goals.PausedAfterCompletion | internal/goals/service.go:95-129 | a pause decided before the goal was completed, and written after, reopens it |
| Goals.SpendGrows | internal/goaltasks/store.go:154-178 | under a fixed root no event lowers the spend |
| Goals.AlertFollowsRollup | internal/goals/service.go:138-167 | under a fixed root, after a run that ends with a check the alert has been posted exactly if the final rollup is at least 80% |
| Goals.FreeSlug | internal/goals/service.go:42-53 | a goal's slug is the first free candidate for its title |
| Goals.ChannelCallMakes | cmd/synapbus/goals_adapter.go:18-37 | the channel made for a goal is private, a system channel, named `goal-` and the slug, and owned by the goal's owner |
| Goals.SystemStays | internal/channels/service.go:197-217 | a system channel is never deleted and never changes |
| Goals.ChannelsStay | cmd/synapbus/goals_adapter.go:18-37 | over every run of channel calls each goal keeps its private system channel, named after its slug |
| Goals.Service.BackAndInsert | internal/goals/service.go:55-76 | the channel, then the goal that points at it, or nothing |
| Goals.Service.CreateGoal | internal/goals/service.go:35-77 | the new row has the caller's title, description, owner and budgets, spawn depth 3 unless given, and status draft; the channel that backs it; exactly when it is refused; a refused goal leaves no channel behind; slugs stay unique |
| Goals.Service.SetStatus | internal/goals/store.go:136-141 | changes the status and nothing else |
| Goals.Service.TransitionStatus | internal/goals/service.go:95-105 | moves exactly along legal moves |
| Goals.Service.Complete | internal/goals/service.go:117-129 | idempotent in the target status; records summary and message, and the time for final or stuck goals |
| Goals.Service.EvaluateBudget | internal/goals/service.go:145-162 | reads only; the verdict of a goal on a spend |
| Goals.Service.MarkSoftAlertPosted | internal/goals/store.go:170-174 | sets the flag and nothing else |
| Goals.Service.CheckBudget | internal/goals/service.go:138-167 | evaluating and applying a verdict is one check step of the cascade |
| Wiki.FormatArticleExport | cmd/synapbus/wiki.go:97-112 | the builder's text is the rendered article |
| Wiki.RenderedText | cmd/synapbus/wiki.go:97-112 | the six fields in order, a blank line, and the body with one line end |
| Wiki.UnescapeAll | cmd/synapbus/wiki.go:100 | unquoting undoes `%q`: no two titles are printed alike |
| Wiki.ParseFrontmatter | cmd/synapbus/wiki.go:197-225 | the parser's loop computes the last value of each key |
| Wiki.LastLineWins | cmd/synapbus/wiki.go:211-224 | the value of a key is that of the last line that has it, and empty without one |
| Wiki.ReadUnfenced | cmd/synapbus/wiki.go:198-206 | a file without an opening `---`, or without an end line after it, is all body, trimmed, with no slug and no title |
| Wiki.ReadFenced | cmd/synapbus/wiki.go:203-224 | otherwise the lines before the first end line give slug and title, and what follows is the body |
| Wiki.IndexIsFirst | cmd/synapbus/wiki.go:204-213 | the search finds the first occurrence, or there is none |
| Wiki.IndexOfEnd | cmd/synapbus/wiki.go:204-210 | the front matter ends at its own end line, whatever `---` lines the body has |
| Wiki.SplitJoin | cmd/synapbus/wiki.go:211-214 | splitting into lines undoes joining |
| Wiki.FieldOf | cmd/synapbus/wiki.go:213-224 | reading a printed `key: value` line gives the key and the trimmed, unquoted value, colons in the value included |
| Wiki.ExportParse | cmd/synapbus/wiki.go:97-225 | for every article whose fields stay on their lines, what parsing its export gives |
| Wiki.SlugSurvives | cmd/synapbus/wiki.go:197-225 | the slug comes back if and only if it has no blanks and no quotes around it |
| Wiki.TitleSurvives | cmd/synapbus/wiki.go:97-225 | the title comes back if and only if `%q` leaves it unescaped and it has no single quote at either end |
| Wiki.NormalBodyStable | cmd/synapbus/wiki.go:197-225 | the normal form of a body is stable |
| Wiki.RoundTrip | cmd/synapbus/wiki.go:97-225 | exactly which articles come back with slug and title, the body in normal form always, and a second round trip changes nothing |
| Wiki.ImportFile | cmd/synapbus/wiki.go:167-173 | the defaults for a missing slug and title; a file without front matter comes in under its file name with its whole trimmed text |
| Wiki.ExportImport | cmd/synapbus/wiki.go:154-191 | export to `<slug>.md` followed by import restores the article, an empty title becoming the slug |
| Bm25.FieldsOfWord | internal/actions/index.go:139-160 | a text without blanks is one word |
| Bm25.FieldsAtBlank | internal/actions/index.go:139-160 | a blank anywhere separates words, so the words of every text are determined |
| Bm25.SplitOnJoins | internal/actions/index.go:139-160 | the parts of a compound word have no separator in them and joined give the word back |
| Bm25.Tokenize | internal/actions/index.go:139-160 | the loops over the texts and words compute the tokens; each token occurs as often as the name, category, description and parameters together give it |
| Bm25.TokensAreWordsAndParts | internal/actions/index.go:139-160 | the tokens are the words and the parts of the compound words, and nothing else |
| Bm25.TokensCount | internal/actions/index.go:139-160 | how often an action has a token: the sum over its name, category, description and parameters, each once |
| Bm25.TermFrequency | internal/actions/index.go:163-169 | the map counts each token and has no other key |
| Bm25.CountDocument | internal/actions/index.go:37-45 | a document raises the frequency of each of its terms by one, however often it has it |
| Bm25.FrequenciesSnoc | internal/actions/index.go:37-45 | after one more document, each frequency is the number of documents containing the term |
| Bm25.IndexDocuments | internal/actions/index.go:30-46 | the loop keeps the documents' tokens, their total length and the document frequencies |
| Bm25.NewIndex | internal/actions/index.go:27-62 | each idf is the logarithm of (n + 1) / (c + 0.5) for a term in c of n documents, the average length times the number of documents is the total length; terms in no document have no idf |
| Bm25.RightScorable | internal/actions/index.go:48-51 | no document with a token is divided by a zero average length |
| Bm25.RightIdfs | internal/actions/index.go:53-58 | the idf equation for every indexed term |
| Bm25.RightAverage | internal/actions/index.go:48-51 | the average length is the total length over the number of documents |
| Bm25.RarerIsLarger | internal/actions/index.go:53-58 | under an increasing logarithm a term in fewer documents has the larger idf |
| Bm25.WeightExactly | internal/actions/index.go:95-108 | the weight of a term as one equation, with k1 = 1.2 and b = 0.75 |
| Bm25.WeightOrder | internal/actions/index.go:95-108 | the weight rises with the number of occurrences and falls with the length of the document |
| Bm25.ScoreAdds | internal/actions/index.go:90-113 | the words of a query add up, and a repeated word counts again |
| Bm25.WeightBounds | internal/actions/index.go:95-108 | a term that occurs adds something, but less than 2.2 times its idf; one that does not adds nothing |
| Bm25.ScoreBounds | internal/actions/index.go:90-113 | a document scores above zero if and only if it has a query term, and then less than 2.2 times the summed idf |
| Bm25.ScoreOf | internal/actions/index.go:90-113 | the accumulation for one document |
| Bm25.SortHits | internal/actions/index.go:115-117 | what the sort promises: a permutation in descending order |
| Bm25.TopIsRanked | internal/actions/index.go:115-136 | cutting a sorted list of all matches leaves none out that scores higher than one returned |
| Bm25.Search | internal/actions/index.go:66-136 | only matches, each once with its score, descending, as many as the clamped limit allows, and no omitted match outscores a returned one; a blank query lists the first actions |
| SseHub.OwnsAfter | internal/api/sse_handler.go:82-111 | who owns which channel after each call |
| SseHub.ClosedAfter | internal/api/sse_handler.go:69-111 | a channel is closed after a call exactly if it was before or the call closes it |
| SseHub.ClosesOpen | internal/api/sse_handler.go:69-111 | whatever is closed was open |
| SseHub.CallKeepsInv | internal/api/sse_handler.go:35-111 | one whole call keeps registered channels open and with one owner, no owner with an empty set, no buffer over 32 |
| SseHub.CastsOffer | internal/api/sse_handler.go:35-80 | a broadcast puts the event at the end of every buffer with fewer than 32 events among the channels addressed and leaves all others alone; closing closes everybody and forgets the owners |
| SseRuns.StepKeepsSound | internal/api/sse_handler.go:35-111 | so does one step when broadcasts under the read lock interleave send by send, and what they have yet to send to stays registered |
| SseRuns.RunKeepsSound | internal/api/sse_handler.go:35-111 | the same over every interleaving |
| SseRuns.StepAndClosing | internal/api/sse_handler.go:35-111 | whatever is sent to or closed is open |
| SseRuns.ClosedIsLeftAlone | internal/api/sse_handler.go:35-111 | over every interleaving a closed channel is neither closed again nor sent to |
| SseRuns.ClosedAtMostOnce | internal/api/sse_handler.go:69-111 | over every interleaving no channel is closed twice |
| SseRuns.Fifo | internal/api/sse_handler.go:35-66 | over every interleaving, what a client received followed by what waits for it is what waited at the start followed by the sends that found room |
| SseRuns.AcceptedInOrder | internal/api/sse_handler.go:35-66 | the sends that found room are an in-order subsequence of the sends to that channel |
| SseRuns.FewSendsAllAccepted | internal/api/sse_handler.go:35-66 | nothing is lost while no more than a bufferful can be outstanding |
| SseRuns.OwnedStays | internal/api/sse_handler.go:82-111 | a channel is never handed to another owner |
| SseRuns.EachBroadcastOnce | internal/api/sse_handler.go:35-66 | over every interleaving each broadcast to its owner or to all, begun while the channel is registered, is sent to it exactly once or still on its way, and nothing else is |
| SseRuns.OrderExactly | internal/api/sse_handler.go:35-66 | a channel sees broadcasts in the order they began, if and only if no send overtakes an older broadcast |
| SseRuns.OrdersDiffer | internal/api/sse_handler.go:35-66 | two overlapping broadcasts can reach two clients in different orders |
| SseRuns.BroadcastIsItsSends | internal/api/sse_handler.go:35-66 | a broadcast that no other overlaps, its sends in any order, is the whole call |
| SseRuns.ClientSees | internal/api/sse_handler.go:35-111 | all of this for one client from the moment it connects |
| SseHub.Hub.AddClient | internal/api/sse_handler.go:82-94 | registers a fresh open channel |
| SseHub.Hub.RemoveClient | internal/api/sse_handler.go:96-111 | closes the channel only if it is still registered, and forgets an owner without channels |
| SseHub.Hub.Broadcast | internal/api/sse_handler.go:35-51 | offers the event once to each channel of the owner, in any order, and to no other |
| SseHub.Hub.BroadcastAll | internal/api/sse_handler.go:54-66 | offers the event exactly once to every registered channel |
| SseHub.Hub.CloseAll | internal/api/sse_handler.go:69-80 | closes every registered channel once and forgets all owners |
| LoginLimiter.RateLimiter.IsBlocked | internal/auth/handlers.go:63-79 | blocked exactly at three failures less than a minute old; otherwise an old entry is forgotten |
| LoginLimiter.RateLimiter.RecordFailure | internal/auth/handlers.go:81-91 | one more failure at the given time, other addresses untouched |
| LoginLimiter.RateLimiter.ClearFailures | internal/auth/handlers.go:93-97 | forgets the address and no other |
| LoginLimiter.RateLimiter.HandleLogin | internal/auth/handlers.go:172-215 | the order of the checks and what each outcome does to the table |
| LoginLimiter.TableReflectsStreak | internal/auth/handlers.go:63-97 | at every point of a run the table agrees with the failures an onlooker has seen |
| LoginLimiter.AtMostThree | internal/auth/handlers.go:63-91 | no address is ever charged with more than three failures |
| LoginLimiter.FourTakeAMinute | internal/auth/handlers.go:63-97 | four successive failed verifications with no success between them take at least a minute |
| LoginLimiter.RefusedExactly | internal/auth/handlers.go:180-189 | a login is refused if and only if its address has failed three times with no success since the first, each let through within a minute of the one before, the last less than a minute ago |
| LoginLimiter.SlowFailuresRefused | internal/auth/handlers.go:180-204 | three failures two minutes apart from first to last, and a refusal |
| LoginLimiter.WaitIsEnough | internal/auth/handlers.go:180-189 | an attempt made after the announced wait is not refused |
| LoginLimiter.WaitIsTight | internal/auth/handlers.go:180-189 | the announced wait is at most one second more than the time left, if and only if time was left at the second clock reading or the overrun is a whole number of seconds; never more than two |
| LoginLimiter.WaitPastTheMinute | internal/auth/handlers.go:180-189 | a refusal half a second past the minute's end still announces a whole second |
| LoginLimiter.OthersDoNotMatter | internal/auth/handlers.go:63-97 | dropping every login from elsewhere changes neither the entry nor the streak of an address |

## Left out

- Widths of integers: sums of spend, counters and ids are unbounded, int64 overflow is not modelled.
- Auction.RunKeepsInv: runs of whole calls; overlapping ones are in SettledExactly.
- Auction.SettledExactly: the writes of one accept, from the assignment to the last rejection, land as one step; failed single statements are not modelled.
- Channels.CallKeepsInv: calls are serialized, and creating a channel and inserting its owner are one step; other interleavings of the statements of two calls than the late invitation are not modelled.
- TaskStore.Store.Transition: as a method it is one serialized call; its split into read and write is in TaskLifecycle.
- TaskLifecycle.Lifecycle: serialized transitions; what interleaving changes is in ProperExactly and RankExactly.
- Goals.FinalStays: runs of whole calls; reads and writes that interleave are in FinalExactly.
- Goals.CheckBudget: no caller of the budget verdict is part of this model; the order of evaluating and applying follows the comment in the code. The token budget is not enforced by the code either.
- Report.BuildSnapshot: keeps the whole task row per node; assignee names, agents, timeline, artifacts and the spent fraction are left out.
- TaskTypes.AncestrySize: rows keep the chain, not its text, and reading the text back is encoding/json's affair; surrogate and invalid code points are not treated.
- Wiki.FormatArticleExport: times are the texts they are printed as; the generated index page, directory handling and the wiki database (insert or update on import) are left out.
- Bm25.SortHits: any order among equal scores is as good as another; the sort is an insertion sort with the promise of the library's sort.
- Bm25.NewIndex: the Returns and Examples of an action are not indexed by the code and not modelled.
- SseHub.Hub.Broadcast: as a method it is one whole call; as the read lock lets broadcasts interleave, it is in SseRuns.
- SseRuns.RunKeepsSound: that a waiting writer holds back new readers is not modelled, so more interleavings are covered than can happen; heartbeats, HTTP streaming and logging are left out.
- LoginLimiter.RateLimiter.HandleLogin: logins of one address do not overlap; verifying passwords and making sessions are inputs.
- Lower-casing of channel and user names is ASCII; of goal titles and search queries it is any map of single characters.
- Timestamps such as created_at, updated_at and approved_at; verifier and heartbeat settings are values, not JSON text.
- SQL faults of single statements outside CreateTree, and deletion of agents (their tasks would lose the assignee).
- Channel updates, topics, listings, settings, and everything of BroadcastMessage but the auto-join.
- HTTP, MCP and socket handlers, tracing, attachments, webhooks, embeddings, messaging, reactions, trust, marketplace: plumbing or foreign code with no rules of this kind.
