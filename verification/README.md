# A verified model of the download cluster

This project models the control plane of a clustered Usenet downloader and proves what its protocols promise.
One elected node leases work to the others through replicated tables, hands each of them a share of every provider
account's connections, splits large files into independently leased article ranges, and publishes finished output
crash-safely. Around that core it models job placement, the resumable event stream, the XML-RPC bridge, the log
rings and the build stamp's calendar.

`dafny verify dfyconfig.toml` checks everything.

## How it is laid out

| files | what they hold |
|---|---|
| `Prelude` | options, results, facts about sequences, sums over maps |
| `BudgetHandoff`, `BudgetSafety`, `BudgetCommands`, `BudgetConvergence`, `BudgetBlocked`, `BudgetRetirement`, `BudgetWorker`, `LeaseClock`, `LeasedCluster`, `SweepSafety`, `SweepRuns` | shrink-first, grow-after-acknowledgement connection budgets: the leader's ledger, the cluster as a transition system, what every holder is told in it, when a handoff completes and a run in which it never does, when retiring a holder is safe, the worker process, its local deadline against the leader's sweep, the cluster with its lease tables and clock, and which sweeps are safe |
| `ControlTables`, `ControlStore`, `ControlRuns`, `ControlReceipts`, `LeaseExclusion` | the replicated tables with each SQL statement and its triggers as one atomic step, the store's operations, what every run of statements keeps, and when a resource can be leased again |
| `Completion`, `Heartbeats`, `Mutations` | delivery of a completion, lease heartbeats across takeovers, speculative queue mutations |
| `Tiling`, `Ranges`, `Assembly`, `WholePath` | splitting a file, its work views, the tiling check, reassembly, and the path from split to assembled file |
| `Scheduling`, `Delegation` | weighted range ownership, greedy placement |
| `Publication`, `Recovery` | publishing a generation one file step at a time, and recovery; which accepted result it ends on |
| `EventStream`, `EventRuns` | the event hub and one connection, in every interleaving |
| `XmlTokens`, `XmlRpc`, `XmlRoundTrip`, `XmlReader`, `XmlDialect` | escaping, the reader's events, printing, parsing, and what clients send that the printer never writes |
| `LogRings`, `LogTail`, `CivilDate` | the two-budget log ring and its live tail; days to year, month and day |

Code that updates state is a class or a method with loops, proved against a specification function; the properties
are lemmas about those functions and about runs. Clock readings are arbitrary arguments everywhere.

## Main results

* **An account's cap is never exceeded** (`BudgetSafety.AccountCapNeverExceeded`). In every reachable state the
  connections in use, allowed or still in flight as a command sum to at most the cap. Hypotheses: a worker acts on
  its commands oldest first (it has one outstanding request), a command reaches a worker only after the record
  it came from was saved, one leader issues commands at a time, and a holder is retired only while it uses, or may
  yet be told, no more than its share of the pending target, or nothing when none is pending. The last one is exact
  (`BudgetRetirement.RetirementIsSafeExactlyWhen`): from any reachable state, a retirement that meets it can never
  lead over a cap, and one that does not always can.
* **Every holder is told exactly what it is due** (`BudgetCommands.CommandsAreDue`, `AnswerIsDue`): in every reachable
  record the lesser of its grant and its pending share, or its whole grant when no move is pending; and a move waits for
  exactly the holders that lose by it. The worker hands that to its engine unless it only post-processes
  (`BudgetWorker.WorkerNode.OnReply`).
* **When a sweep is safe.** With lease tables and clock in the state, a sweep retires a node if and only if some lease
  of it is overdue and none is left (`LeasedCluster.SweepRetiresExactlyWhen`), and the cap survives that in every
  continuation exactly under the same condition (`SweepSafety.SweepIsSafeExactlyWhen`). It is met by holders that are
  cut off and shut in time (`SweepRuns.CutOffClusterStaysWithinCaps`), for which `LeaseClock` gives the exact timing.
  The sweep looks at leases, not at connections, and two runs with the default intervals reach twice the cap:
  `SweepRuns.AHangingHolderOverspends` and `SweepRuns.ACancelledHolderIsRetiredAllowed`.
* **A handoff converges when its holders answer, and only then**: `HandoffConverges`,
  `HandoffMovesOnExactlyWhenReleased`; `RetiredHolderCanBlockForever` is the case in which it never does, and
  `BudgetBlocked.ADeadHolderBlocksForever` a run that reaches it.
* **Revisions, tokens, fences, ranges and script receipts are each spent once, with no clock assumption**:
  the lemmas of `ControlRuns` and `ControlReceipts.RevisionCountsReceipts`.
* **A lease excludes other claimants until it expires**: in any run a claim succeeds exactly when its clock has reached
  what the last statement on the resource left (`LeaseExclusion.LaterClaimIsGrantedExactlyWhen`, `HeldUntilExpiry`), and a
  holder that beats in time keeps its lease through any number of takeovers (`Heartbeats.AnExtendedLeaseIsKept`).
* **From split to assembled file**: the views rejoin the file; completed, intact ranges assemble exactly when none
  lacks or repeats an article of its view and the articles tile the file (`WholePath.AssemblesExactlyWhenWhole`);
  the verdict and the bytes are the same in any range order; and a gap once accepted can never be assembled away.
* **Completion is idempotent** over lost replies and leader changes; a reused receipt is refused exactly when the
  result it names differs. The node, the lease id and the parameters the leader overwrites are not compared.
* **Acknowledged mutations are durable and exact** among other writers, and a request is acknowledged exactly when every
  row it changed can still be set (`Mutations.Authority.CommitMutation`): with nobody else writing and revisions left,
  always. An update between reading the rows and the transaction is never lost, and one before that read is lost
  exactly in the case stated.
* **Publication never loses output and never shows a partial copy**, and recovery ends in the same outputs from any
  crash: over every run, in the generation accepted last exactly when its acceptance time is the latest.
* **The stream is gap free** whenever it resumes without a reset and sees no lag notice; a live log tail misses
  nothing exactly when each of its reads keeps up.
* **Parsing inverts printing** for XML-RPC exactly on the clean values; what clients may send besides is read as
  `XmlDialect` states.

Properties the code does not have, each with a concrete input and the exact condition under which it holds:

| expectation | what happens | member |
|---|---|---|
| a heartbeat carrying the predecessor of a renewed token is accepted (`crates/nzbd-cluster/src/leader.rs:637-641`) | refused, and the work cancelled, when a slower clock did the renewing | `Heartbeats.EarlierTokenAcceptedExactlyWhen`, `Heartbeats.SlowClockRefusesTheHolder` |
| a redelivered completion leaves output as it is | it republishes its own generation over a newer one until the next recovery | `Publication.RedeliveryKeepsLastExactlyWhen`, `Recovery.RepeatedCompletionHidesPostProcessing` |
| recovery selects the last accepted generation | a result accepted later by a slower clock, or at an equal time, is listed before the older one, which recovery then puts back | `Recovery.RecoveryEndsOnLastAcceptedExactlyWhen`, `Recovery.SlowerClockRecoversTheOlder` |
| the number filter drops every duplicate (`crates/nzbd-api/src/lib.rs:1416-1419`) | a frame rung but not yet sent is delivered again after a reconnect | `EventRuns.OldFrameRepeatsExactlyWhen`, `EventRuns.AFrameArrivesTwice` |
| a mutation never overwrites a concurrent update | it does when the update lands before the commit reads the row | `Mutations.EarlierUpdateIsLostExactlyWhen`, `Mutations.AResolvedUrlIsOverwritten` |
| a capped log read says how much it missed (`crates/nzbd-api/src/logbuf.rs:170-173`) | evicted lines go uncounted | `LogRings.SkippedIsHonestExactlyWhen`, `LogRings.OneLineGoesUncounted` |
| a completed range leaves no article behind | articles missing strictly inside it pass the check, and the file can then never be assembled | `WholePath.CompletionIsWholeExactlyWhen`, `WholePath.AGappedCompletionPasses`, `WholePath.ARepeatedArticlePasses`, `WholePath.AcceptedGapIsForGood` |
| a handoff completes once its dead holders are retired | a retired holder in the pending target is granted again and blocks it | `BudgetConvergence.HandoffMovesOnExactlyWhenReleased`, `BudgetBlocked.ADeadHolderBlocksForever` |
| a worker cut off from the leader has stopped before its leases are swept (`crates/nzbd-cluster/src/worker.rs:1127-1133`) | its loop can come round too late for the slack | `LeaseClock.ShutBeforeAnySweepExactlyWhen`, `LeaseClock.CutOffLoopShutsExactlyWhen`, `LeaseClock.HangingLoopIsSweptFirst`, `LeaseClock.UnconnectedLoopIsSweptFirst` |
| a holder is retired once all its leases have expired, and has drained by then (`crates/nzbd-cluster/src/leader.rs:411-414`) | it is retired then, but may still use its share for ten seconds while its requests hang, or, after a cancellation, be connected and allowed all of it | `SweepSafety.SweepIsSafeExactlyWhen`, `SweepRuns.AHangingHolderOverspends`, `SweepRuns.ACancelledHolderIsRetiredAllowed` |

## Model

| member | source | states |
|---|---|---|
| BudgetHandoff.TargetUsesTheCapExactly | crates/nzbd-cluster/src/leader.rs:270-301 | the shares issued for any set of holders add up to exactly the account's cap |
| BudgetHandoff.SharesAreEven | crates/nzbd-cluster/src/leader.rs:270-288 | no two holders differ by more than one connection, and earlier names are never behind |
| BudgetHandoff.BudgetLedger.BudgetCommand | crates/nzbd-cluster/src/leader.rs:303-374 | the ledger moves by acknowledge, settle, redirect and counts one revision; the answer is the node's entry, or zeros; `CommandAnswersDue`, `AwaitedMoveStands` and `NextMoveAwaitsTheLosers` say what that comes to |
| BudgetHandoff.BudgetLedger.RetireExpiredHolder | crates/nzbd-cluster/src/leader.rs:415-434 | a node that still owns a lease is left alone; any other loses its grant, command and place in the wait, not its place in the pending target, and no revision is counted |
| BudgetHandoff.PlanShrink | crates/nzbd-cluster/src/leader.rs:325-357 | everybody in the old or the new table keeps the lesser of its two caps, and exactly the holders that lose by the move are awaited |
| BudgetHandoff.CommandAnswersDue | crates/nzbd-cluster/src/leader.rs:303-374 | a record in order stays so, and the node that asked is answered with what it is due: the lesser of its grant and its pending share, or its grant when no move is pending |
| BudgetHandoff.AwaitedMoveStands | crates/nzbd-cluster/src/leader.rs:307-318 | while somebody is awaited a call changes nothing but the wait, which only a current, drained acknowledgement shortens |
| BudgetHandoff.NextMoveAwaitsTheLosers | crates/nzbd-cluster/src/leader.rs:313-357 | with nobody awaited the pending move takes effect and the leases' target is next: at once if nobody loses by it, else after a wait for exactly those who do |
| BudgetHandoff.RetirementForgets | crates/nzbd-cluster/src/leader.rs:425-434 | retiring the last one awaited puts the pending target into effect, the retired node's place in it included; any other retirement takes exactly its grant, command and place in the wait |
| BudgetCommands.CommandsAreDue | crates/nzbd-cluster/src/leader.rs:303-374 | in every reachable state, in the saved record as in the leader's, each command is the lesser of grant and pending share, or the grant when nothing is pending, and nobody is awaited but holders that lose |
| BudgetCommands.AnswerIsDue | crates/nzbd-cluster/src/leader.rs:365-373 | the command queued for a node that asks is what it is due, under the new revision and generation |
| BudgetSafety.ReportSafe | crates/nzbd-cluster/src/worker.rs:1170-1193 | a drained report of the current generation really bounds all the worker uses or may yet be told |
| BudgetSafety.CommandSafe | crates/nzbd-cluster/src/leader.rs:303-374 | answering any node, with any acknowledgement it ever sent however stale, keeps every worker within the record |
| BudgetSafety.CommandBalanced | crates/nzbd-cluster/src/leader.rs:303-374 | answering keeps the record's grants, pending target and commands within the caps |
| BudgetSafety.RetireKeepsInv | crates/nzbd-cluster/src/leader.rs:411-434 | retiring a holder with nothing in use, allowed or in flight keeps the invariant, whatever is pending |
| BudgetSafety.FailoverKeepsInv | crates/nzbd-cluster/src/leader.rs:391-403 | a new leader restoring an older saved record keeps the invariant |
| BudgetSafety.AccountCapNeverExceeded | crates/nzbd-cluster/src/leader.rs:253-435 | in every reachable state, while holders are retired only within what is reserved for them, connections used, allowed or in flight never exceed an account's cap in total |
| BudgetRetirement.RetirementIsSafeExactlyWhen | crates/nzbd-cluster/src/leader.rs:411-434 | at any reachable state a retirement can never lead over a cap if and only if the holder is exposed for no more than its share of the pending target, or for nothing when none is pending |
| BudgetRetirement.ALiveHolderRetiredOverspends | crates/nzbd-cluster/src/leader.rs:415-434 | a run in which a holder using its account is retired, and the next node to ask gets its share on top at once |
| BudgetConvergence.HandoffConverges | crates/nzbd-cluster/src/leader.rs:303-374 | with a fixed lease set a distance never grows, each helpful call lowers it, and enough of them reach the target |
| BudgetConvergence.HandoffMovesOnExactlyWhenReleased | crates/nzbd-cluster/src/leader.rs:303-374 | a pending handoff moves on if and only if every awaited holder confirms this generation drained or is retired |
| BudgetConvergence.RetiredHolderCanBlockForever | crates/nzbd-cluster/src/leader.rs:425-434 | a retired holder still in the pending target is granted again, and then nothing but itself can move the handoff on |
| BudgetBlocked.ADeadHolderBlocksForever | crates/nzbd-cluster/src/leader.rs:411-434 | a run from the start in which a drained holder dies, is retired and granted again, and no other node's calls ever move the handoff on |
| BudgetWorker.WorkerNode.BudgetsById | crates/nzbd-cluster/src/worker.rs:1195-1203 | every configured server gets an entry; a missing budget is zero |
| BudgetWorker.WorkerNode.OnReply | crates/nzbd-cluster/src/worker.rs:220-249 | the engine gets the oldest command on its configured servers, or zero when it has post-processing, no download and unbudgeted fetches, and applies its generation; with no server or a refusal nothing but the reply goes; either way one protocol step or less |
| BudgetWorker.WorkerNode.ExpireLocalLeases | crates/nzbd-cluster/src/worker.rs:1135-1168 | exactly the overdue leases go, and budgets are zeroed, under the last receipt's generation, exactly when the last one goes and the engine takes them |
| BudgetWorker.NodeKeepsRecordsSafe | crates/nzbd-cluster/src/worker.rs:1135-1203 | a process that takes protocol steps, or allows less, keeps every record safe |
| LeaseClock.ShutBeforeAnySweepExactlyWhen | crates/nzbd-cluster/src/worker.rs:1127-1168 | a worker that hears nothing after a renewal is shut before any sweep if and only if its loop comes round in the window the slack leaves |
| LeaseClock.EvenLoopShutsExactlyWhen | crates/nzbd-cluster/src/worker.rs:97-140 | for a loop of even turns, the same as one inequality between its period, the reply's delay and the intervals |
| LeaseClock.CutOffLoopShutsExactlyWhen | crates/nzbd-cluster/src/worker.rs:97-140 | the same for a worker cut off after a heartbeat, from how long its requests wait in vain |
| LeaseClock.HangingLoopIsSweptFirst | crates/nzbd-cluster/src/http.rs:15-16 | with the default intervals and requests that hang until their ten-second limit, the lease may be swept ten seconds before the worker stops |
| LeaseClock.UnconnectedLoopIsSweptFirst | crates/nzbd-cluster/src/http.rs:15-16 | with connections that are not made within three seconds it is still a tenth of a second late |
| LeaseClock.CutOffHolderIsDrainedWhenSwept | crates/nzbd-cluster/src/leader.rs:1844-1866 | a cut-off worker whose turn meets the window is drained, and safe to retire, whenever its lease may be swept |
| LeaseClock.HeartbeatAfterDeadlineIsNotDrained | crates/nzbd-cluster/src/worker.rs:222-249 | a heartbeat answered between the local deadline and the sweep brings the whole share back with no lease left |
| LeasedCluster.LeaderShared.SweepExpired | crates/nzbd-cluster/src/leader.rs:1844-1866 | the overdue leases leave the table first, then their owners are retired one by one behind the guard |
| LeasedCluster.SweepRetiresExactlyWhen | crates/nzbd-cluster/src/leader.rs:415-424 | a sweep retires a node if and only if it owns leases and all of them are overdue |
| LeasedCluster.SweepForgetsTheRetired | crates/nzbd-cluster/src/leader.rs:425-434 | with no move pending a sweep takes exactly the retired nodes from the record, however many leases each had |
| LeasedCluster.SweepIsItsSteps | crates/nzbd-cluster/src/leader.rs:1844-1866 | the sweep's loop makes the record that the steps of a run make when nothing comes in between |
| SweepSafety.SweepIsSafeExactlyWhen | crates/nzbd-cluster/src/leader.rs:411-434 | with lease tables and clock in the state, a swept node's retirement can never lead over a cap, whatever comes next, if and only if it is exposed for no more than is reserved for it |
| SweepRuns.CutOffClusterStaysWithinCaps | crates/nzbd-cluster/src/leader.rs:411-414 | over any timed run whose retired holders were cut off, met their window and closed in time, no account is ever over its cap |
| SweepRuns.AHangingHolderOverspends | crates/nzbd-cluster/src/worker.rs:97-140 | a timed run in which all of a holder's leases are overdue while it still uses the account, and the next node is told the whole account too |
| SweepRuns.ACancelledHolderIsRetiredAllowed | crates/nzbd-cluster/src/leader.rs:1057-1100 | a timed run without a lost request in which a cancelled lease's entry goes overdue and its connected holder is retired while allowed the whole account |
| ControlStores.ControlStore.Acquire | crates/nzbd-cluster/src/control.rs:424-492 | granted if and only if the ids can be stored and the row is absent or has run out below the counters' maximum; the row and token written, field by field; otherwise nothing changes and a live holder is named |
| ControlStores.ControlStore.Renew | crates/nzbd-cluster/src/control.rs:494-531 | renewed if and only if the token is the live row's, field by field; the row and token written; otherwise nothing changes |
| ControlStores.ControlStore.Release | crates/nzbd-cluster/src/control.rs:533-555 | released if and only if the token is the row's, expired or not; the row ends at the moment of release |
| ControlStores.ControlStore.ApplyCommand | crates/nzbd-cluster/src/control.rs:857-904 | applied if and only if its receipt is new and the job stands at the revision it expects; the rows written; a known receipt answers as a duplicate |
| ControlStores.ControlStore.PublishResult | crates/nzbd-cluster/src/control.rs:906-951 | accepted if and only if its receipt and result id are new, its token is live and the job takes it; the rows written; a known receipt answers as a duplicate |
| ControlStores.ControlStore.BeginScript | crates/nzbd-cluster/src/control.rs:971-1007 | run if and only if its receipt is new and its token the live row's; else the recorded state |
| ControlStores.ControlStore.FinishScript | crates/nzbd-cluster/src/control.rs:1009-1042 | started becomes done if and only if the token is the live row's of the same resource |
| ControlRuns.RevisionsConsumedInOrder | crates/nzbd-cluster/src/control.rs:81-157 | over every run each job revision is consumed by exactly one command or selected publication, in order from 1 |
| ControlRuns.TokensAreLinear | crates/nzbd-cluster/src/control.rs:424-555 | over every run tokens are spent in increasing revision, fences strictly increase, and a fence has one owner |
| ControlRuns.EpochBelongsToOneProcess | crates/nzbd-cluster/src/election.rs:87-185 | a leader epoch, the seat's fence, belongs to one node incarnation |
| ControlRuns.PublicationCarriesLargestFence | crates/nzbd-cluster/src/control.rs:115-136 | an accepted publication carries the largest fence issued for its resource so far |
| ControlRuns.RangeAcceptedOnce | crates/nzbd-cluster/src/control.rs:138-157 | a range resource is accepted at most once ever, even after being leased again |
| ControlRuns.AcceptedRangeIsRecorded | crates/nzbd-cluster/src/control.rs:99-106 | an accepted range stays recorded with its first result |
| ControlRuns.ScriptRunsOnce | crates/nzbd-cluster/src/control.rs:971-1007 | a script receipt starts at most once over all runs |
| ControlRuns.FinishFollowsStart | crates/nzbd-cluster/src/control.rs:1009-1042 | a script is finished only after a start of the same receipt |
| ControlRuns.ScriptStep | crates/nzbd-cluster/src/control.rs:971-1042 | a script row appears only by a start and ends only by a finish, each under a token live by its own clock |
| LeaseExclusion.LiveLeaseExcludes | crates/nzbd-cluster/src/control.rs:441-456 | while a lease is live no claim of its resource by a clock before its expiry has any effect |
| LeaseExclusion.FirstClaimIsGranted | crates/nzbd-cluster/src/control.rs:441-456 | in any run the first claim of a resource is granted if it can be stored, under fence and revision one |
| LeaseExclusion.LaterClaimIsGrantedExactlyWhen | crates/nzbd-cluster/src/control.rs:441-456 | in any run a later claim is granted, under the next fence and revision, if and only if its clock has reached the expiry last granted, renewed or published under, or the moment of release |
| LeaseExclusion.HeldUntilExpiry | crates/nzbd-cluster/src/control.rs:424-555 | in any run, between a grant or renewal and its expiry nobody leases the resource, unless it is released or a renewal moves its expiry back |
| ControlReceipts.RevisionCountsReceipts | crates/nzbd-cluster/src/control.rs:81-157 | a job's revision is 1 plus its command receipts plus its non-segment publications |
| Completion.WorkComplete | crates/nzbd-cluster/src/leader.rs:1117-1300 | the handler's checks and store calls compute the delivery function, answers included |
| Completion.DurableIsStable | crates/nzbd-cluster/src/leader.rs:1389-1411 | storing twice is storing once; the stored job names exactly its result, goes to its original directory when it is post-processed or assembled, and is otherwise the job |
| Completion.FirstDeliveryCommitsExactlyWhen | crates/nzbd-cluster/src/leader.rs:1131-1300 | a completion with a new receipt conflicts for an unknown or stale lease, is refused for an unverified generation or inexact range, and else is committed if and only if its publication can be taken; nothing else changes the tables |
| Completion.CommittedMeansAccepted | crates/nzbd-cluster/src/leader.rs:1131-1300 | a delivery answered as committed has left its own receipt |
| Completion.RedeliveryChangesNothing | crates/nzbd-cluster/src/leader.rs:1131-1300 | an accepted completion delivered again after any further statements changes nothing and is answered with its first receipt time, unless its generation no longer verifies |
| Completion.ReusedReceiptRefused | crates/nzbd-cluster/src/leader.rs:1413-1430 | after any further statements the same receipt id is a conflict if and only if the result it names differs; it changes nothing either way |
| Heartbeats.LeaseTable.Heartbeat | crates/nzbd-cluster/src/leader.rs:1004-1100 | one reported lease: known or rebuilt from the durable row, then renewed or cancelled; the leader remembers the token it hands out, and every other entry stays |
| Heartbeats.KnownLeaseExtendsExactlyWhen | crates/nzbd-cluster/src/leader.rs:1057-1100 | the full condition under which a leader that remembers a lease extends it, and the token and row it then writes |
| Heartbeats.ExtensionIsRemembered | crates/nzbd-cluster/src/leader.rs:1049-1097 | after any extension the leader's record holds the token it handed out, which is the row's |
| Heartbeats.AnExtendedLeaseIsKept | crates/nzbd-cluster/src/leader.rs:1004-1100 | once extended, by a leader with or without memory of it, a lease is extended at every further beat before its last expiry, through any takeovers, while its job stays and nobody else touches it |
| Heartbeats.EarlierTokenAcceptedExactlyWhen | crates/nzbd-cluster/src/leader.rs:637-649 | of all tokens ever issued for a resource, those of its current tenure with no later expiry than the row are accepted |
| Heartbeats.TakeoverExtendsExactlyWhen | crates/nzbd-cluster/src/leader.rs:1004-1100 | the full condition under which a leader with no memory extends a worker's lease |
| Heartbeats.ExtensionKeepsTenure | crates/nzbd-cluster/src/leader.rs:1082-1099 | an extension comes from the exact live row and never changes owner or fence |
| Heartbeats.SlowClockRefusesTheHolder | crates/nzbd-cluster/src/leader.rs:637-649 | a run in which the live lease's owner is refused because a slower clock renewed it |
| Mutations.DiffProjections | crates/nzbd-cluster/src/leader.rs:160-189 | the delta names exactly the changed jobs, once each |
| Mutations.CommitWritesExactly | crates/nzbd-cluster/src/control.rs:718-804 | a commit writes exactly the planned rows, field by field, each standing at the revision that was read, and no other |
| Mutations.CommitSucceedsExactlyWhen | crates/nzbd-cluster/src/control.rs:718-804 | a request commits if and only if every row it writes still stands where it was read |
| Mutations.RequestCommitsExactlyWhen | crates/nzbd-cluster/src/control.rs:718-804 | a request commits if and only if each row it changed was read as wanted, or is wanted and absent throughout, or still stands at the revision read, below the last |
| Mutations.IdsAlwaysSpent | crates/nzbd-cluster/src/control.rs:718-804 | content-addressed command ids are spent with the revision they name |
| Mutations.CommittedRequestIsTheEngine | crates/nzbd-cluster/src/lib.rs:512-571 | if engine and control agreed before, a committed request makes control exactly what the engine became |
| Mutations.EarlierUpdateIsLostExactlyWhen | crates/nzbd-cluster/src/control.rs:727-735 | whatever runs between the reading of the rows and the transaction, a row is overwritten exactly when the request wants it otherwise than it was read, and then only what was read is overwritten |
| Mutations.AResolvedUrlIsOverwritten | crates/nzbd-cluster/src/control.rs:727-735 | a pause of a URL job, planned before the URL's resolution was committed, commits over it |
| Mutations.NoUpdateLostAfterTheRead | crates/nzbd-cluster/src/control.rs:718-804 | an update between the read and the transaction is never lost |
| Mutations.ConcurrentUpdatesSurvive | crates/nzbd-cluster/src/control.rs:718-804 | if engine and control agreed when the rows were read, a committed request leaves its own rows as the engine has them and all others as the other writers do |
| Mutations.Transact | crates/nzbd-cluster/src/control.rs:793-804 | all planned rows are written, or none |
| Mutations.Authority.CommitMutation | crates/nzbd-cluster/src/lib.rs:512-571 | among other writers' statements, a request is acknowledged if and only if it succeeded, control can be read back and every row it changed can still be set; then engine and control agree, with its own rows and the others' updates; a failed one writes nothing, and a completed rollback agrees with control |
| Mutations.Authority.Restore | crates/nzbd-cluster/src/leader.rs:140-155 | a reachable control replaces the projection; an unreachable one leaves it |
| Tiling.WalkAcceptsExactlyTilings | crates/nzbd-cluster/src/range.rs:212-224 | the check passes if and only if the spans tile the file, whatever the order of equal starts, and the last test cannot then fail |
| Tiling.SortByStart | crates/nzbd-cluster/src/range.rs:212-212 | the spans in start order, none lost or added |
| Ranges.BuildWorkView | crates/nzbd-cluster/src/range.rs:53-90 | the view holds exactly the scope's articles of its one file, or the error the source gives |
| Ranges.WorkViewMeans | crates/nzbd-cluster/src/range.rs:53-76 | the view is the job, queued under the range's own directory, with only the first file of that id, reopened and holding exactly the range's articles; with none of them there is no view |
| Ranges.SplitExactlyWhen | crates/nzbd-cluster/src/range.rs:22-30 | a job is split if and only if it has exactly one file to download and that has sixty-four articles or more |
| Ranges.RangesAreEven | crates/nzbd-cluster/src/range.rs:31-44 | every range has thirty-two articles but the last, and names its place and their number |
| Ranges.ViewIsItsChunk | crates/nzbd-cluster/src/range.rs:22-90 | each issued scope's view is its chunk of the file |
| Ranges.ViewsRejoinTheFile | crates/nzbd-cluster/src/range.rs:22-90 | the views of all scopes concatenate back to the file |
| Ranges.RangesAreDisjoint | crates/nzbd-cluster/src/range.rs:22-51 | no article belongs to two scopes |
| Assembly.Assemble | crates/nzbd-cluster/src/range.rs:92-255 | succeeds if and only if the ranges are exactly the expected set, their articles are complete, in range and intact, each authoritative article is supplied once and the spans tile the file; the output then carries exactly those articles |
| Assembly.OneWriter | crates/nzbd-cluster/src/range.rs:142-224 | no byte of the output is written by two articles |
| Assembly.CarriedBytesAreUnique | crates/nzbd-cluster/src/range.rs:142-242 | the articles determine every byte of the output |
| Assembly.RangeOrderCannotChangeTheFile | crates/nzbd-cluster/src/range.rs:92-255 | the same ranges accepted in another order assemble to the same bytes |
| Assembly.CompletionCheckMissesInteriorGaps | crates/nzbd-cluster/src/leader.rs:1432-1453 | removing any article strictly inside a result leaves the completion check satisfied |
| Assembly.InteriorGapIsCaught | crates/nzbd-cluster/src/range.rs:162-176 | assembly refuses whenever no accepted range supplies some authoritative article |
| WholePath.CompletionIsWholeExactlyWhen | crates/nzbd-cluster/src/leader.rs:1432-1453 | any result that passes the completion check carries the range's whole view if and only if it shares as many different articles with it as the view has; if its articles ascend, if and only if it is as long |
| WholePath.AGappedCompletionPasses | crates/nzbd-cluster/src/leader.rs:1432-1453 | every range of three or more articles has a result that passes without one of them |
| WholePath.ARepeatedArticlePasses | crates/nzbd-cluster/src/leader.rs:1432-1453 | every range of four or more has a result of the right length that passes with one article twice and one missing |
| WholePath.RangeOrderCannotChangeTheVerdict | crates/nzbd-cluster/src/range.rs:92-255 | the ranges in another order can be assembled if and only if they could before |
| WholePath.AssemblesExactlyWhenWhole | crates/nzbd-cluster/src/range.rs:22-255 | once every range is completed with an intact payload, the file assembles if and only if each carries its view's articles once each and nothing else, they tile the file and an advertised checksum agrees |
| WholePath.AcceptedGapIsForGood | crates/nzbd-cluster/src/control.rs:138-157 | once a range is recorded with a result that lacks an article of its view, no later statements make the file assemblable |
| Scheduling.RangeOwner | crates/nzbd-cluster/src/leader.rs:914-935 | the filter, sort, sum and slot loop compute the owner of the slot in the name-ordered roster |
| Scheduling.SortedMeans | crates/nzbd-cluster/src/leader.rs:914-921 | the roster is exactly the eligible workers, in name order |
| Scheduling.EntrantsAreTheEligible | crates/nzbd-cluster/src/leader.rs:914-925 | the entrants are exactly the download workers with a slot that report their disk and are not low on it, with their weights |
| Scheduling.OwnerExactlyWhen | crates/nzbd-cluster/src/leader.rs:921-935 | a worker owns an index if and only if the index, modulo the total weight, falls past the weights before it and within its own |
| Scheduling.OwnerExists | crates/nzbd-cluster/src/leader.rs:914-935 | whenever a worker is eligible an index has an owner, and it is an eligible one |
| Scheduling.OwnershipIsProportional | crates/nzbd-cluster/src/leader.rs:914-935 | in any window of total-weight consecutive indexes each worker owns exactly its weight |
| Scheduling.OwnerIgnoresRegistryOrder | crates/nzbd-cluster/src/leader.rs:914-935 | the owner does not depend on the order workers are listed in |
| Delegation.DelegateDownloads | crates/nzbd-cluster/src/leader.rs:2008-2037 | a greedy run over the waiting jobs in queue order that stops only when every slot is used |
| Delegation.AssignPostProcessing | crates/nzbd-cluster/src/leader.rs:2065-2093 | a run that fills the once-sorted list in order and stops only when every slot is used |
| Delegation.SortTargets | crates/nzbd-cluster/src/leader.rs:2022-2026 | the targets in cross-multiplied load order, none lost or added |
| Delegation.WaitingAreTheReady | crates/nzbd-cluster/src/leader.rs:2014-2020 | the waiting jobs are exactly those not assigned, not split, and queued in the engine and durably, in queue order |
| Delegation.DownloadGoesToTheLightest | crates/nzbd-cluster/src/leader.rs:2021-2032 | each job goes to a node with a slot left whose load over weight is least at that moment, and among equals to the first name |
| Delegation.PostProcessingGoesToTheIdle | crates/nzbd-cluster/src/leader.rs:2065-2089 | post-processing goes to idle nodes first, then by load over weight as offered, then to the first name |
| Delegation.RatioTransitive | crates/nzbd-cluster/src/leader.rs:2022-2026 | comparing loads by cross-multiplying is an order |
| Delegation.WithinJobLimit | crates/nzbd-cluster/src/leader.rs:1989-2007 | held, assigned and newly delegated jobs never take a worker past its limit |
| Delegation.PlacesAsManyAsFit | crates/nzbd-cluster/src/leader.rs:2008-2037 | a run places exactly as many jobs as wait or fit |
| Delegation.Balanced | crates/nzbd-cluster/src/leader.rs:2022-2031 | if one node received a job and another still has a slot, the first's load before its last job, over its weight, is no more than the other's |
| Delegation.BusyOnlyAfterIdle | crates/nzbd-cluster/src/leader.rs:2065-2093 | a downloading node gets post-processing only once all idle nodes' slots are used |
| Delegation.PlacementIgnoresRegistryOrder | crates/nzbd-cluster/src/leader.rs:2022-2093 | two runs over the same targets, listed in any order, place alike |
| Publication.OutputRoot.Build | crates/nzbd-cluster/src/leader.rs:1605-1614 | the copy is made aside and marked last; nothing else is touched |
| Publication.OutputRoot.Select | crates/nzbd-cluster/src/leader.rs:1615-1629 | the swap, and that readers see the earlier tree, none, or the whole new one; when it fails and its undo does not, the disk is as it was, or published if only the flush failed |
| Publication.OutputRoot.Publish | crates/nzbd-cluster/src/leader.rs:1569-1629 | success means exactly the published disk; every state on the way, at any error or crash, keeps all earlier output and shows no partial copy; an error leaves the live tree as it was or the disk published, unless undoing the swap fails too |
| Publication.OutputRoot.Recover | crates/nzbd-cluster/src/leader.rs:1755-1781 | success is publishing every receipt in order, and without faults it succeeds if and only if every directory is a safe path |
| Publication.StepKeepsOutput | crates/nzbd-cluster/src/leader.rs:1566-1629 | no single file step loses output that was live or superseded |
| Publication.RecoveryRestoresLast | crates/nzbd-cluster/src/leader.rs:1755-1781 | from any sound disk recovery leaves each directory with the whole generation of its last listed receipt |
| Publication.RecoveryTargetIsFixed | crates/nzbd-cluster/src/leader.rs:1755-1781 | the outcome depends neither on where a crash left the disk nor on the names drawn |
| Publication.RepeatChangesNothing | crates/nzbd-cluster/src/leader.rs:1566-1594 | publishing the same receipt again changes nothing |
| Publication.RedeliveryKeepsLastExactlyWhen | crates/nzbd-cluster/src/leader.rs:1317-1359 | on any sound disk, after a redelivered completion a directory holds the last listed generation if and only if the redelivered one is the last |
| Publication.RecoverySettledExactlyWhen | crates/nzbd-cluster/src/control.rs:1141-1169 | every listing by acceptance time ends a directory alike if and only if no second receipt shares the latest time |
| Publication.ListingEndsOnExactlyWhen | crates/nzbd-cluster/src/control.rs:1141-1169 | every listing by acceptance time ends a directory on a given receipt if and only if all its others are earlier |
| Recovery.AcceptedAreThePublications | crates/nzbd-cluster/src/control.rs:138-157 | over every run the acceptances are exactly the recorded publications, each once, with distinct result ids |
| Recovery.RecoveryEndsOnLastAcceptedExactlyWhen | crates/nzbd-cluster/src/leader.rs:1755-1781 | over every run, from any sound disk and however equal times are listed, recovery ends a directory on its last accepted generation if and only if every other carries an earlier acceptance time |
| Recovery.SlowerClockRecoversTheOlder | crates/nzbd-cluster/src/control.rs:1141-1169 | a run in which a slower clock accepts the post-processed result after the assembled one, and recovery puts the assembled one back |
| Recovery.RepeatedCompletionHidesPostProcessing | crates/nzbd-cluster/src/leader.rs:1317-1359 | a repeated assembly completion is answered as committed, changes no table, and puts its generation over the post-processed one |
| EventStream.EventHub.PublishRaw | crates/nzbd-api/src/eventhub.rs:160-179 | the event gets the next number on the wire, and the ring is the last 1024 of them |
| EventStream.EventHub.ResolveReplay | crates/nzbd-api/src/eventhub.rs:189-225 | the branches and filter of the replay decision |
| EventStream.ResetExactlyWhen | crates/nzbd-api/src/eventhub.rs:189-225 | the client is told to reset exactly for a foreign boot, a number never issued, a gap the ring cannot cover, or one harmless start-up case |
| EventStream.ResolvedFrames | crates/nzbd-api/src/eventhub.rs:189-225 | otherwise it gets exactly the frames after its id, in order |
| EventRuns.Connection.Resume | crates/nzbd-api/src/lib.rs:1460-1492 | the resume loop writes the replay and sets the number filter |
| EventRuns.Connection.Next | crates/nzbd-api/src/lib.rs:1543-1572 | one received item is skipped, delivered or reported as lag |
| EventRuns.StreamIsInOrder | crates/nzbd-api/src/lib.rs:1408-1579 | in every interleaving the numbers delivered strictly increase and each frame is the one logged under its number |
| EventRuns.HolesAreAnnounced | crates/nzbd-api/src/lib.rs:1543-1572 | two events written next to each other have consecutive numbers |
| EventRuns.ResumeMissesNothing | crates/nzbd-api/src/eventhub.rs:181-225 | a stream that resumed without reset or lag has delivered every frame after the client's id |
| EventRuns.ResetInEveryRun | crates/nzbd-api/src/eventhub.rs:189-225 | the reset condition, at the moment the ring is read in any run |
| EventRuns.OldFrameRepeatsExactlyWhen | crates/nzbd-api/src/lib.rs:1416-1427 | a frame the client already has is written again exactly when nothing was replayed and it was still unsent at subscription |
| EventRuns.AFrameArrivesTwice | crates/nzbd-api/src/lib.rs:1416-1427 | a run in which it happens |
| XmlTokens.EscapeIsCharwise | crates/nzbd-compat/src/xmlrpc.rs:189-193 | the three replacement passes together escape character by character |
| XmlTokens.EscapedTokens | crates/nzbd-compat/src/xmlrpc.rs:189-193 | the reader sees an escaped text as trimmed runs and one reference per escaped character |
| XmlRpc.ReadsDecimal | crates/nzbd-compat/src/xmlrpc.rs:68-72 | every 64-bit integer is read back from its printed form |
| XmlRoundTrip.TokensOfXml | crates/nzbd-compat/src/xmlrpc.rs:196-237 | the events of a printed value, whatever follows it |
| XmlRoundTrip.ParsePrinted | crates/nzbd-compat/src/xmlrpc.rs:61-237 | parsing a printed value gives its normal form and leaves the rest of the document |
| XmlRoundTrip.RoundTripExactlyWhen | crates/nzbd-compat/src/xmlrpc.rs:61-237 | the value itself comes back if and only if it is clean |
| XmlRoundTrip.NormalIsClean | crates/nzbd-compat/src/xmlrpc.rs:61-237 | whatever is printed, what comes back is clean |
| XmlDialect.ReadsDecimalTag | crates/nzbd-compat/src/xmlrpc.rs:68-72 | every 64-bit integer is read back under each of the three integer tags |
| XmlDialect.ReadsIntegers | crates/nzbd-compat/src/xmlrpc.rs:68-72 | whatever text an integer tag holds, it is that integer, or zero if it is none |
| XmlDialect.IntegerTextMeans | crates/nzbd-compat/src/xmlrpc.rs:68-72 | a text of digits, or of digits behind one sign, is its number if that fits 64 bits |
| XmlDialect.NoOtherIntegers | crates/nzbd-compat/src/xmlrpc.rs:68-72 | no other text is an integer |
| XmlDialect.ReadsBooleans | crates/nzbd-compat/src/xmlrpc.rs:73-76 | exactly the text "1" is true |
| XmlDialect.ReadsBase64 | crates/nzbd-compat/src/xmlrpc.rs:81-86 | base64 is its text without space |
| XmlDialect.NoSpaceRejoins | crates/nzbd-compat/src/xmlrpc.rs:81-86 | text sent in pieces with space between them is the pieces joined |
| XmlDialect.ReadsUntyped | crates/nzbd-compat/src/xmlrpc.rs:92-106 | a value without a type is a string, whatever characters it holds |
| XmlDialect.ReadsNil | crates/nzbd-compat/src/xmlrpc.rs:87-91 | a nil element is null, but the empty element the printer writes reads as an empty string |
| XmlDialect.CharacterReference | crates/nzbd-compat/src/xmlrpc.rs:151-154 | a decimal or hexadecimal character reference is its character |
| XmlDialect.RepeatedKeyTakesTheLast | crates/nzbd-compat/src/xmlrpc.rs:124-147 | of members sent under one key the last is kept |
| XmlDialect.NormalIsOrdered | crates/nzbd-compat/src/xmlrpc.rs:124-147 | every object read has each key once, in order |
| XmlDialect.CallAfterPrologParses | crates/nzbd-compat/src/xmlrpc.rs:24-57 | an XML declaration before the call changes nothing |
| XmlDialect.NamelessCallFails | crates/nzbd-compat/src/xmlrpc.rs:50-52 | a call that names no method is refused, whatever its parameters |
| XmlReader.ParseValueFrom | crates/nzbd-compat/src/xmlrpc.rs:61-110 | the reading loop computes the value and leaves the reader just after it, or fails as specified |
| XmlReader.ParseArrayFrom | crates/nzbd-compat/src/xmlrpc.rs:112-122 | the same for arrays |
| XmlReader.ParseStructFrom | crates/nzbd-compat/src/xmlrpc.rs:124-147 | the same for structs, with the key and flag carried between members |
| XmlReader.ReadTextFrom | crates/nzbd-compat/src/xmlrpc.rs:172-183 | the text and references up to the closing tag |
| XmlReader.ParseCallText | crates/nzbd-compat/src/xmlrpc.rs:24-57 | the whole-document loop |
| XmlReader.Writer.Write | crates/nzbd-compat/src/xmlrpc.rs:196-237 | printing appends exactly the value's text to the buffer |
| XmlReader.CallParses | crates/nzbd-compat/src/xmlrpc.rs:24-57 | a call document is parsed to its method name and its parameters' normal forms, in order |
| LogRings.LogBuffer.PushScoped | crates/nzbd-api/src/logbuf.rs:132-153 | each ring stays the last of its class, within its own budget |
| LogRings.LogBuffer.Merged | crates/nzbd-api/src/logbuf.rs:68-90 | the zip of the rings is what the two budgets keep of the history |
| LogRings.LogBuffer.Since | crates/nzbd-api/src/logbuf.rs:155-165 | the oldest records after the cursor, up to the limit |
| LogRings.LogBuffer.SinceCapped | crates/nzbd-api/src/logbuf.rs:167-187 | the newest records after the cursor; returned plus skipped is all retained ones |
| LogRings.LogBuffer.TailFiltered | crates/nzbd-api/src/logbuf.rs:204-236 | the newest matches, oldest first |
| LogRings.LogBuffer.NewestId | crates/nzbd-api/src/logbuf.rs:189-197 | the newest id is the number of records pushed |
| LogRings.MergeIsRetained | crates/nzbd-api/src/logbuf.rs:68-90 | merging the last of each class by id is the history with only over-budget records missing |
| LogRings.BudgetsAreIndependent | crates/nzbd-api/src/logbuf.rs:23-29 | each class keeps exactly the last of its own |
| LogRings.FileFloodEvictsNoOther | crates/nzbd-api/src/logbuf.rs:23-29 | no run of per-file records evicts another scope's record |
| LogRings.SkippedIsHonestExactlyWhen | crates/nzbd-api/src/logbuf.rs:167-187 | returned plus skipped is everything logged since the cursor if and only if neither class overran its budget |
| LogRings.OneLineGoesUncounted | crates/nzbd-api/src/logbuf.rs:167-187 | of seventeen lines of one file under the least budget, the read accounts for sixteen |
| LogRings.TailNeverRepeats | crates/nzbd-api/src/lib.rs:1497-1514 | over any run of lines and reads a live tail shows lines in order and none twice |
| LogTail.TailMissesNothingExactlyWhen | crates/nzbd-api/src/lib.rs:1497-1514 | over any run of lines and reads a tail has shown, or is still to read, every line since its start if and only if each read found no more unread than either budget keeps and one batch carries |
| CivilDate.CivilIsTheCalendar | crates/nzbd-api/build.rs:51-66 | the arithmetic gives a valid date for every day, and the next day number is the next day of the calendar |
| CivilDate.DaysComeBack | crates/nzbd-api/build.rs:51-66 | counting days back from the date gives the count |
| CivilDate.DatesComeBack | crates/nzbd-api/build.rs:51-66 | every calendar date is the date of its own day count |
| CivilDate.DatesIncrease | crates/nzbd-api/build.rs:51-66 | later days have later dates |
| CivilDate.StampNamesItsMinute | crates/nzbd-api/build.rs:51-66 | the stamp's date, hour and minute name the minute the seconds fall in |

## Left out

- BudgetSafety.AccountCapNeverExceeded: the caps are fixed over a run; runs in which a holder is retired while it is exposed for more than is reserved for it are excluded, since the cap then does not hold (`BudgetRetirement.RetirementIsSafeExactlyWhen`); node counts and sums are unbounded integers; a save that fails, which the source only logs, delays delivery here.
- BudgetRetirement.RetirementIsSafeExactlyWhen: for clusters of two workers or more whose lease holders are all workers.
- SweepSafety.SweepIsSafeExactlyWhen: for clusters of two workers or more; the leader's own node, which never executes, is not a worker; leases are their owners and times, and which grants, renewals and removals happen is free.
- BudgetWorker.WorkerNode.OnReply: lease tokens, cancellations and control revisions in the same reply are not part of this class; the protocol of `BudgetSafety` keeps workers as values.
- Completion.WorkComplete: verifying the sealed generation and the exactness check are parameters; a receipt that cannot be read is not told apart from one that is absent; publishing, history and the local import after the receipt are not part of it.
- Heartbeats.LeaseTable.Heartbeat: a lease entry replaced while its renewal is in flight is not modelled; whether the job is listed and runnable are parameters.
- Publication.OutputRoot.Publish: directories are siblings under one parent, so a job directory nested inside another job's is not modelled; files are opaque values; that clock-drawn names are unused is stated where it is needed; markers are written by nothing else; flushing a file or directory is the identity, so a crash never loses an unflushed write.
- Assembly.Assemble: file positions are unbounded integers, where the source saturates; the CRC is any function.
- Delegation.DelegateDownloads: which jobs and nodes are offered is given; recording the choice in the engine always succeeds.
- EventRuns.StreamIsInOrder: one pump, as in the source; the ticks, heartbeats and log batches that share the connection carry no number and are not in it; atomics are taken to be sequentially consistent.
- XmlRoundTrip.RoundTripExactlyWhen: doubles are excluded, since floating-point text is not modelled; the reader's treatment of attributes, comments, CDATA and mismatched end tags is not modelled, and none occur in printed values.
- XmlReader.CallParses: stated for method names without spaces or escaped characters.
- LogRings.LogBuffer.PushScoped: pushes are serialized; in the source an id is taken before the lock, so two threads can enter the ring out of order.
- Mutations.Authority.CommitMutation: the request's own work on the engine is its result; an HTTP success is a flag.
- Integers in the tables are bounded where the source checks them (64-bit revisions and fences); other saturating additions are plain additions.
- Text ids, hashes, JSON documents and resource names stand for themselves: distinct values are distinct.
- Consensus and SQLite: every statement and transaction is atomic and linearizable.
- Identity checks on lengths of names, authentication, proxying and status texts.
- The file-based election and the leader file, which grant no authority beside the replicated lease.
- The migration of legacy snapshots, the engine, the history store and the torrent path.
- Lease granting's document checks (`grant_job`) beyond the lease statement itself.
