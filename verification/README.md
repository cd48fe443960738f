# Quickworks: a verified model of its control plane, agent tunnel and agent tools

Quickworks runs remote development workspaces. A control plane keeps workspaces, builds, provisioner leases, agents,
idempotency keys and build logs in SQLite; provisioners claim queued builds under two-minute leases; an agent in every
workspace registers, reports its health and serves HTTP and WebSocket traffic through a tunnel of frames. This project
models those parts in Dafny and proves what holds over every run of them.

`dafny verify dfyconfig.toml` checks everything.

## How the model is built

**The control plane as a state machine.** `Tables` holds the rows, `Workspaces`, `Scheduler` and `Agents` say what each
transaction or statement of `service.go`, `router.go` and `agenthub.go` does to them, and `System` makes every one of
them an atomic step of one machine, so that all requests interleave. What a request does outside a transaction is a step
of its own: the provisioner upsert, the claim, the enrollment after it, the lease check, the number read and the insert of
a log line. A clock reading taken before a statement runs (`asked`) may be older than the moment the statement runs
(`now`). A step that is not enabled, or dated before the present, changes nothing, so the theorems are about all
sequences of steps. Random names and identifiers are arguments and may clash with existing ones.

`Lifecycle`, `Counters`, `Quotas`, `AgentRecords` and `BuildLogs` each prove one part of the invariant, `Leases`,
`Overtaking` and `Idempotency` prove properties of whole runs, and `Reachable` puts them together. The only auxiliary
variable of the machine is `history`, the list of each workspace's builds.

**What the tables come to mean.** `LeaseTerms` and `Presence` tell a lease's and an agent's whole life from the requests and
the clock alone, without looking at the tables, and prove that over every run the rows say just that. `ClaimFacts`,
`ServiceLaws` and the second half of `BuildLogs` say, in terms of rows, exactly when an operation succeeds and everything it
writes.

**The same code as methods.** `Database.Store` holds the tables as mutable fields. `WorkspaceService.Service`,
`RouterService.Router` and `Hubs.Hub` are the code's objects, with its branches and loops, each method proved against the
step it performs. `Handlers` shows that a whole request, with its retries or its several statements, leads from reachable
tables to reachable tables, so the theorems of `Reachable` hold after any of them.

**The tunnel.** `Tunnels` is the connection registry and its connections at lock granularity: every critical section, and
every channel close outside one, is a step of some goroutine. `TunnelObjects` has the locked sections, and the calls made of them, as methods.
`HttpCodec` and `SocketCodec` are the two halves of the frame convention.

**The agent's and provisioner's smaller pieces.** `Snapshots` (with `Timestamps` and `Text`) is the local state store
over whole runs, `Dotenv` and `Environment` build the workbench's environment, `Bundle` is the archive extractor's path
handling, stated lexically.

## What the code does that one might not expect

The model follows the code in each of these, and a member of the project states it exactly.

- A response whose end of file arrives on its own after data delivers its last chunk twice
  (`HttpCodec.ResponseArrives`, with a concrete case in `HttpCodec.LastChunkArrivesTwice`).
- Two requests with one frame identifier on one connection strand the first: after `Close` its channel stays open
  (`Tunnels.RepeatedIdentifierStrands` has a run). Over any run this is exactly what happens to those whose identifier
  another call registered or released on the open connection (`Tunnels.CloseMissesExactlyOverwritten`).
- A build created at the same instant as a waiting one, with a smaller identifier, gets ahead of it, and the waiting one can
  then be passed over though nothing was ahead of it (`Overtaking.TieOvertakes` has a run). The queue ahead grows at exactly
  such steps (`Overtaking.AheadGrowsExactlyOnTies`), and counting them restores the bound for every run
  (`Reachable.OvertakingIsBounded`).
- `mergeEnvironment` keeps its promise exactly when no key of `values` holds an equals sign
  (`Environment.MergeEnvironment`); `ParseDotenv` never yields such a key. The agent's own additions, among them
  `WORKBENCH_BASE_PATH`, lose to an inherited variable and to the dotenv file (`Environment.VariablesOfTheProcess`).
- A workspace whose present agent is healthy is degraded all the same when an earlier agent of it falls silent
  (`Presence.EarlierAgentDegrades`; `Presence.StaleIsExact` says exactly when). Its next heartbeat lifts it again
  (`Presence.HeartbeatIsExact`).
- Renewing does not look at the build's status, so the holder of a finished build can still move its expiry
  (`Scheduler.Renew`); no theorem here needs it to be otherwise.
- The extractor's path test alone lets an entrypoint such as `../b` climb out of the archive's root
  (`Bundle.PathTestLetsClimb`; `Bundle.EntrypointStaysBelow` says exactly when, and that it never leaves the destination).
  The extraction still refuses it, because nothing lies beside the root in its fresh directory
  (`Bundle.ExtractedEntryIsUnderRoot`), and so does the installer's own check before it (`Bundle.CheckedEntrypointStays`).

## Model

| member | source | states |
|---|---|---|
| Reachable.NewestBuildDecides | internal/server/router.go:1119-1141 | In every reachable state each workspace has a newest build, and that build fixes the row: desired state is its target; observed state is stopping or deleting for an active stop or delete, failed for a failed build, stopped or deleted (with deletion time) for a finished one, running or degraded for a finished start, pending exactly for an active first start, else starting, running or degraded |
| Reachable.BuildsAreNumbered | internal/database/migration/000001_initial.up.sql:15-24 | A workspace's builds carry exactly the numbers 1 to n, each once; only number n can be queued or running; every build has its workspace's template |
| Reachable.IndexNeverRejects | internal/server/workspace/service.go:303-321 | From the code's own checks alone: a transition with an unused build identifier is never refused by a uniqueness constraint |
| Reachable.DeletedIsFinal | internal/server/workspace/service.go:278-324 | A deleted workspace's row says deleted in both states and never changes again, whatever runs after it |
| Reachable.CountersAgree | internal/server/router.go:884-911 | After every run each worker's active_builds equals the number of running builds it claimed, and claims = reports + expiries + builds still running |
| Reachable.OvertakingIsBounded | internal/server/router.go:884-911 | A waiting build is passed over by covering workers at most once for each build ahead of it that they could take and each later tie; if every later build is created strictly later, at most once for each build ahead |
| Reachable.UsageWithinLimits | internal/server/workspace/service.go:364-396 | In every reachable state each owner and template is within its workspace and running limits |
| Reachable.EnrollmentsFit | internal/server/agenthub/agenthub.go:33-46 | The enrollment that follows a claimed start never meets an agent of the same workspace and build |
| Reachable.MomentsOfARun | internal/server/router.go:745-767 | The logs seen at any successive moments of a run are gapless and only grow |
| Reachable.StepKeepsInv | internal/server/router.go:856-911 | Every step of every request keeps the whole invariant: numbering, settled states, counters, quotas, agents, logs and dates |
| Reachable.RunKeepsInv | internal/server/router.go:856-911 | So does every run |
| Reachable.ReadersGetWhatWasAccepted | internal/server/router.go:745-767 | A reader polling during a run delivers exactly the lines of the inserts accepted so far, in order and as they were sent |
| Lifecycle.StepKeepsConsistent | internal/server/workspace/service.go:278-324 | Each step, in any interleaving, keeps builds numbered, only the newest active, and every workspace as its newest build says |
| Lifecycle.OnlyIdentifiersClash | internal/database/migration/000001_initial.up.sql:15-22 | Without an active build and with the next sequence number, an insert clashes if and only if the identifier itself is taken |
| Lifecycle.CreateInTxKeeps | internal/server/workspace/service.go:191-217 | A creation appends a first build of a new workspace to consistent tables and leaves them consistent |
| Lifecycle.TransitKeeps | internal/server/workspace/service.go:278-324 | A committed transition appends the next build of its workspace and keeps the tables consistent |
| Lifecycle.CompleteKeeps | internal/server/router.go:1119-1141 | A report writes the observed state without reading the desired one, and still leaves the workspace as its newest build says |
| Lifecycle.ExpireKeeps | internal/server/router.go:856-882 | Failing all overdue builds at once keeps the tables consistent |
| Lifecycle.MarkStaleDrifts | internal/server/agenthub/agenthub.go:146-162 | Marking agents stale only moves observed states between those the newest start allows, soft-deleted rows included |
| Lifecycle.HeartbeatDrifts | internal/server/agenthub/agenthub.go:97-125 | The same for a heartbeat |
| Lifecycle.MarkReadyDrifts | internal/server/agenthub/agenthub.go:128-141 | The same for a ready report |
| Counters.StepKeepsCounted | internal/server/router.go:884-911 | Every step keeps each worker's counter equal to its number of running builds |
| Counters.CompleteNeverSaturates | internal/server/router.go:1139 | When a report is accepted the counter it lowers is positive, so the CASE never falls to its ELSE |
| Counters.ExpireNeverSaturates | internal/server/router.go:856-882 | Likewise for all the builds that expire together |
| Counters.NextRuns | internal/server/router.go:884-911 | What runs for a worker after any step: what ran, without the reported and expired builds, with the claimed one |
| Counters.Conservation | internal/server/router.go:884-911 | Over any run from any state, per worker: running before + claims = reports + expiries + running after |
| Counters.WithinCapacity | internal/server/router.go:792-795 | A worker never runs more builds than the largest capacity it passed, hence never more than 100 |
| Leases.NextRowIs | internal/server/router.go:1060-1117 | The row of a build after any step: leased, closed by a report, closed by expiry, renewed, or unchanged |
| Leases.RunAdvances | internal/server/router.go:884-911 | Over any run a build only moves queued, running, finished; holder, secret and start of a lease never change once set; a verdict is final |
| Leases.OneVerdict | internal/server/router.go:1119-1124 | Over any run a build is claimed at most once and gets at most one verdict, exactly when its row says so |
| Leases.RenewedLeaseSurvives | internal/server/router.go:1078-1096 | If claim, renewals and the present are never two minutes apart, no other step takes the build away |
| Leases.TimelyReportIsAccepted | internal/server/router.go:1119-1124 | Then the holder's report is accepted and decides the verdict |
| LeaseTerms.LeaseIsItsTerm | internal/server/router.go:1060-1141 | Over any run, whoever does what, a leased build's row is what a small clock automaton says: its end moves exactly with its holder's renewals in time, and the first of its holder's report in time and an expiry at or after its end decides status, error and completion time |
| LeaseTerms.ReportIsHeardExactlyInTime | internal/server/router.go:1119-1124 | From the claim on, over any run: the holder's report is accepted if and only if nothing was decided yet and it comes less than two minutes after the last reading; otherwise it changes no table |
| LeaseTerms.UnattendedLeaseRunsOut | internal/server/router.go:856-882 | A build whose worker falls silent, or is always late, stays running and leased until the first expiry dated two minutes after its last reading, which fails it |
| LeaseTerms.ExpireIsExact | internal/server/router.go:859-864 | After an expiry a build is running if and only if it was, under a lease that lasts beyond the present; every other running build is failed with its completion time, and no other build changes |
| LeaseTerms.ReportIsExact | internal/server/router.go:1119-1127 | A report is accepted if and only if the build is running under this worker's and secret's lease and the lease has not ended; status, error and completion time are as reported, and no other build changes |
| LeaseTerms.ReportConcludes | internal/server/router.go:1128-1138 | The build's undeleted workspace, and no other, is observed running, stopped, deleted (and dated so) or failed |
| LeaseTerms.RenewalIsExact | internal/server/router.go:1078-1086 | A renewal is accepted if and only if the lease is its holder's and has not ended, and moves its end to two minutes after the second reading |
| LeaseTerms.AdmissionIsExact | internal/server/router.go:1102-1106 | A logs request is admitted under the same condition, and its check changes no table |
| ClaimFacts.ClaimIsServed | internal/server/router.go:775-829 | Whatever is in the tables: bad capacity is refused and changes nothing; otherwise builds that ran out are failed, the worker is recorded with its labels and capacity, and the first claimable build is leased for two minutes if there is room and one; a start build comes with its agent and enrollment, or with the failure if an identifier is in use |
| ClaimFacts.UnusedIdentifiersEnroll | internal/server/router.go:820-827 | In reachable tables, unused identifiers are never the cause of a failed enrollment, so a leased start build gets its agent |
| Overtaking.ClaimIsExact | internal/server/router.go:884-911 | A build is claimed if and only if the worker has room and it is the first by creation time and identifier among the queued builds whose labels the worker holds; nothing is claimed if and only if there is no room or no such build |
| Overtaking.CoveringWorkerTakesEarlier | internal/server/router.go:884-911 | While b waits, a worker that covers b only ever claims b or a build before it |
| Overtaking.InsertsOrNot | internal/server/workspace/service.go:191-217 | A creating or transition step whose transaction commits inserts exactly its one queued build, dated by the step, and otherwise no build changes |
| Overtaking.AheadGrowsExactlyOnTies | internal/server/workspace/service.go:191-217 | The queue ahead of a build gains the build of a step that commits at the instant the waiting one was created, with a smaller identifier and a template the pool covers; from any other step it gains nothing |
| Overtaking.TieOvertakes | internal/server/router.go:884-911 | A concrete run: two creations at one instant, the second with the smaller identifier, and a claim that passes a build with nothing ahead of it |
| Overtaking.StepShrinks | internal/server/router.go:884-911 | Each step leaves at most the builds ahead that were there, without the one claimed, plus its own tie; every claim that passes b takes one of them |
| Overtaking.AheadIsServed | internal/server/router.go:884-911 | A successful claim by a worker that could take some build ahead of b takes a build ahead of b |
| Overtaking.BoundedOvertaking | internal/server/router.go:884-911 | Over any run, times passed over plus builds still ahead never exceed the builds ahead at the start plus the ties |
| Overtaking.LaterBuildsNeverTie | internal/server/workspace/service.go:318-321 | There are no ties when no later build has the waiting one's creation time |
| Quotas.StepKeepsQuotas | internal/server/workspace/service.go:364-396 | With fixed limits, every step keeps each owner and template within its workspace and running limits |
| AgentRecords.StepKeepsAgentsInOrder | internal/server/agenthub/agenthub.go:33-46 | Every agent belongs to a claimed start build of its own workspace, one agent per build, and every enrollment vouches for its agent; every step keeps this |
| AgentRecords.EnrollmentNeverClashes | internal/server/agenthub/agenthub.go:33-46 | A claim's enrollment is refused if and only if its random identifier or token is already in use |
| AgentRecords.AliveMeansReported | internal/server/agenthub/agenthub.go:97-141 | Over any run, an agent is ready or degraded if and only if it reported ready after its last registration; heartbeats alone never make it so |
| Presence.AgentIsItsVital | internal/server/agenthub/agenthub.go:48-162 | Over any run, an agent's status, last heartbeat, session and its end are what its own registrations, heartbeats and ready reports and the staleness deadlines make of them |
| Presence.AnnouncedAgentIsPresent | internal/server/agenthub/agenthub.go:97-174 | From a ready report, or a heartbeat once it is not starting, at t on, over any run in which it does not register again and no deadline lies after t, the agent is ready and present at every moment before t + 45 s, and no deadline up to t touches it |
| Presence.PresenceIsExact | internal/server/agenthub/agenthub.go:164-174 | Over any run an agent is present if and only if it is ready and was heard less than 45 seconds ago |
| Presence.HeartbeatIsExact | internal/server/agenthub/agenthub.go:97-125 | A heartbeat is recorded with a new fifteen-minute session, makes any but a starting agent ready, and lifts exactly its wanted degraded workspace |
| Presence.ReadyReportIsExact | internal/server/agenthub/agenthub.go:128-141 | A ready report is recorded likewise and lifts exactly its wanted starting or degraded workspace |
| Presence.RegistrationIsExact | internal/server/agenthub/agenthub.go:48-77 | Exactly a 32-byte key and a token that has not expired register, and start a new session of the token's agent |
| Presence.StaleIsExact | internal/server/agenthub/agenthub.go:146-162 | Exactly the ready agents last heard before the deadline become degraded, and exactly the wanted running workspaces that have one |
| Presence.EarlierAgentDegrades | internal/server/agenthub/agenthub.go:146-162 | Concrete tables in which a workspace with a present agent becomes degraded because of an earlier one |
| Idempotency.UnknownKeyCreates | internal/server/workspace/service.go:149-181 | Without a live key the request does what a plain creation does, and records the key for ten minutes |
| Idempotency.KeyIsForgotten | internal/server/workspace/service.go:149-181 | Ten minutes after a creation, whatever else ran, the same key creates again just as a plain creation would |
| Idempotency.RepeatReplays | internal/server/workspace/service.go:140-189 | Inside ten minutes, whatever ran in between, a repeat creates nothing and answers with the same workspace and its first build, or not-found once deleted; a different request is refused |
| Idempotency.CreationsAreApart | internal/server/workspace/service.go:140-189 | Two workspaces created by one owner with one key are at least ten minutes apart |
| Idempotency.KeyIsKept | internal/server/workspace/service.go:140-189 | Until it expires, a key's row, its workspace's owner and that workspace's first build survive every run |
| BuildLogs.RunKeepsLogsInOrder | internal/server/router.go:1107-1112 | With number read and insert as separate steps of racing writers, each log stays numbered without a gap and never loses a line |
| BuildLogs.LogIsWhatWasAccepted | internal/server/router.go:1107-1112 | After any run a build's log is exactly the lines of the inserts whose number was still free, in order and as they were sent |
| BuildLogs.InsertAppends | internal/server/router.go:1109 | An insert with a free number the log reaches puts its line at the end of its log and changes no other |
| BuildLogs.RequestAppends | internal/server/router.go:1107-1112 | An undisturbed request of a holder always appends its line |
| BuildLogs.LogGrows | internal/server/router.go:745-767 | A log seen earlier is a prefix of the log seen later |
| BuildLogs.Select | internal/server/router.go:753 | The reader's query returns exactly the part of the log after its cursor |
| BuildLogs.Stream | internal/server/router.go:745-767 | Polling at any moments delivers exactly the lines 1 to k of the last one, in order, none missing or repeated |
| ServiceLaws.CreateQuotaIsExact | internal/server/workspace/service.go:364-381 | A creation is refused if and only if the workspace it would insert exceeds a limit, the number of workspaces being looked at first |
| ServiceLaws.StartQuotaIsExact | internal/server/workspace/service.go:383-396 | A start is refused if and only if wanting this workspace to run exceeds the limit, or the limit is negative |
| ServiceLaws.LimitsHold | internal/server/workspace/service.go:364-396 | In every reachable state each owner has at most the allowed numbers of undeleted and of wanted workspaces of each template |
| ServiceLaws.UsageIsExact | internal/server/workspace/service.go:326-362 | What a usage report says about counts and limits is what the quotas look at |
| ServiceLaws.CreationIsExact | internal/server/workspace/service.go:191-217 | Within the quotas a creation fails if and only if the repository is invalid or a drawn identifier is in use; otherwise it writes the requested workspace and its queued first start, column by column, and nothing else |
| ServiceLaws.TransitionIsExact | internal/server/workspace/service.go:278-324 | A transition fails exactly for a workspace that is not the caller's or deleted, a start beyond the quota, a build under way or an identifier in use, in this order; otherwise it writes the new states and queues build n + 1, and nothing else |
| ServiceLaws.TouchIsExact | internal/server/workspace/service.go:246-256 | A touch is accepted if and only if the workspace is the caller's and not deleted |
| ServiceLaws.LastAccessIsLastUse | internal/server/workspace/service.go:246-256 | Over any run a workspace's last access is the moment of its last accepted touch or start, whatever else happened |
| ServiceLaws.IdleMeansUnused | internal/server/workspace/service.go:258-268 | A listed idle workspace is undeleted, wanted and seen running and was last used before the moment; the list is ordered by last access, and one is missing from it only when a hundred used no later are in |
| ServiceFacts.IdleWorkspacesStop | internal/server/workspace/service.go:258-276 | With unused identifiers, exactly the listed workspaces without an active build become stopping, no row of any other workspace changes, and there is no error |
| ServiceFacts.StopCommits | internal/server/workspace/service.go:278-324 | Stopping commits if and only if the workspace has no active build, and then leaves it with one |
| ServiceFacts.FirstFreeDrawCreates | internal/server/workspace/service.go:108-131 | Within the quotas, the first draw not in use makes the workspace, whatever was drawn before it |
| ServiceFacts.KeyedTakesSameDraw | internal/server/workspace/service.go:140-189 | Without a live key, a keyed creation with its retries creates exactly what a plain one does |
| ServiceFacts.LiveKeyDecidesAtOnce | internal/server/workspace/service.go:154-167 | A live key decides at the first attempt |
| ServiceFacts.ExhaustedMeansTaken | internal/server/workspace/service.go:108-131 | Creation gives up after its attempts if and only if every attempt drew a name or identifier already in use |
| Handlers.ClaimReaches | internal/server/router.go:775-829 | A whole claim request (expire, register the worker, claim, enroll) is a run: it takes reachable tables to reachable tables |
| Handlers.CreationReaches | internal/server/workspace/service.go:108-131 | So does a creation with its retries |
| Handlers.IdempotentCreationReaches | internal/server/workspace/service.go:140-189 | So does a keyed creation with its retries |
| Handlers.StopIdleReaches | internal/server/workspace/service.go:258-276 | So does stopping idle workspaces, even when it ends with an error |
| Handlers.LogReaches | internal/server/router.go:1097-1113 | So does appending a log line |
| WorkspaceService.Service.Create | internal/server/workspace/service.go:108-131 | Up to twenty attempts, the first not refused for a taken identifier decides; tables and answer are those of that attempt alone |
| WorkspaceService.Service.CreateInTx | internal/server/workspace/service.go:191-217 | Inserts the workspace and its first queued start, or reports the repository or duplicate error |
| WorkspaceService.Service.CreateRepositoryIdempotent | internal/server/workspace/service.go:140-189 | The keyed creation: key length, live key, expired key, quota and retries, with every failed attempt rolled back whole |
| WorkspaceService.Service.AttemptKeyed | internal/server/workspace/service.go:146-182 | One such transaction against its atomic step; deleting an expired key is undone when the attempt fails |
| WorkspaceService.Service.Transition | internal/server/workspace/service.go:278-324 | The start, stop or delete transaction: not found, running quota, active build, or the new desired and announced state with the next build queued |
| WorkspaceService.Service.Touch | internal/server/workspace/service.go:246-256 | Link to the touch step: moves the last access of the caller's undeleted workspace and nothing else |
| WorkspaceService.Service.IdleCandidates | internal/server/workspace/service.go:258-268 | At most a hundred idle workspaces, longest untouched first; one left out only when a hundred older ones are in |
| WorkspaceService.Service.StopIdle | internal/server/workspace/service.go:258-276 | Stops these one by one, each in its own transaction, going on past not-found and active-build answers |
| WorkspaceService.Service.Usage | internal/server/workspace/service.go:326-362 | Exactly one row for every configured or used template, in strictly ascending order, with the exact counts |
| RouterService.Router.LabelsContain | internal/server/router.go:924-935 | Every required label is among those held |
| RouterService.Router.ExpireLeases | internal/server/router.go:856-882 | The loop over overdue builds closes all of them, fails their undeleted workspaces and lowers each worker's counter by its share, in whatever order they come |
| RouterService.Router.Queue | internal/server/router.go:893-896 | All queued builds, ordered by creation time and identifier |
| RouterService.Router.ClaimMatchingBuild | internal/server/router.go:884-911 | The loop over candidates leases out the one build the claim step would, or none |
| RouterService.Router.Claim | internal/server/router.go:792-829 | A whole claim request: refused capacity, expiry, registration, lease, and enrollment for a start |
| RouterService.Router.Renew | internal/server/router.go:1078-1086 | Link to the renewal step: tests the expiry with one clock reading and extends from a second one, without looking at the status |
| RouterService.Router.CompleteBuild | internal/server/router.go:1119-1141 | Accepts a report only for a running build from its holder in time, and writes build, workspace and counter together |
| RouterService.Router.AppendLog | internal/server/router.go:1097-1113 | Appends the next number's line for the lease's holder |
| Hubs.Hub.CreateEnrollment | internal/server/agenthub/agenthub.go:33-46 | Inserts agent and enrollment together or neither |
| Hubs.Hub.Register | internal/server/agenthub/agenthub.go:48-77 | A live enrollment token and a 32-byte key start a fifteen-minute session and put the agent back to starting |
| Hubs.Hub.Heartbeat | internal/server/agenthub/agenthub.go:97-125 | A starting agent stays starting; any other becomes ready and lifts its workspace from degraded to running if it is wanted running |
| Hubs.Hub.MarkReady | internal/server/agenthub/agenthub.go:128-141 | The agent becomes ready and its wanted workspace moves from starting or degraded to running |
| Hubs.Hub.MarkStale | internal/server/agenthub/agenthub.go:146-162 | Every ready agent silent since the deadline, and every running workspace of one, becomes degraded, however often a workspace is visited |
| Hubs.Hub.ActiveAgent | internal/server/agenthub/agenthub.go:164-174 | The most recently connected agent that is ready and was heard from within 45 seconds; none if and only if there is no such agent |
| Tunnels.ChannelsCloseOnce | internal/server/agenthub/tunnel.go:203-230 | However goroutines interleave, even with repeated identifiers and between CloseWebSocket's delete and close, no channel is closed twice |
| Tunnels.EntriesHaveOwners | internal/server/agenthub/tunnel.go:73-86 | Over any run every pending entry belongs to a call still under way, so no entry outlives its call |
| Tunnels.CloseAllOnce | internal/server/agenthub/tunnel.go:215-230 | Close hits a channel once if one of its maps holds it and otherwise not at all |
| Tunnels.RegisteredConnectionsAreOpen | internal/server/agenthub/tunnel.go:28-47 | Every connection held in the registry is open, after every run |
| Tunnels.RegistrationPersists | internal/server/agenthub/tunnel.go:28-47 | Only a new connection of the same agent, or disconnecting this very connection, removes it from the registry |
| Tunnels.ReplacementStays | internal/server/agenthub/tunnel.go:40-47 | However late older connections are disconnected, the replacement stays registered and open |
| Tunnels.ClosedConnectionsReleaseWaiters | internal/server/agenthub/tunnel.go:73-114 | With distinct identifiers, every call still waiting on a closed connection has its channel closed, exactly once |
| Tunnels.CloseMissesExactlyOverwritten | internal/server/agenthub/tunnel.go:215-230 | Over any run, a call waiting on a closed connection has an open channel if and only if another call registered or released its identifier on the open connection while it waited; otherwise its channel was closed, once |
| Tunnels.CoverIsLostExactly | internal/server/agenthub/tunnel.go:73-90 | A waiter drops out of Close's reach at a step if and only if another call registers or releases its identifier on its open connection |
| Tunnels.RepeatedIdentifierStrands | internal/server/agenthub/tunnel.go:73-90 | A concrete run in which a repeated identifier leaves a waiter on a closed connection with an open channel |
| TunnelObjects.Connection.Close | internal/server/agenthub/tunnel.go:215-230 | The two loops close each entry's channel once, in any order, and drop both maps; a second call does nothing |
| TunnelObjects.Connection.Request | internal/server/agenthub/tunnel.go:73-114 | A whole request: refused on a closed connection, otherwise the answer its frames make up, or the disconnection; its entry is gone afterwards in every case |
| TunnelObjects.Connection.OpenWebSocket | internal/server/agenthub/tunnel.go:142-186 | A whole opening: only a socket that opened stays registered, and the stream of one that did not is closed exactly once |
| TunnelObjects.Connection.CloseWebSocket | internal/server/agenthub/tunnel.go:203-213 | Removes the entry and closes its stream if there was one |
| TunnelObjects.Connection.Register | internal/server/agenthub/tunnel.go:73-81 | Link to the step that begins a request |
| TunnelObjects.Connection.Unregister | internal/server/agenthub/tunnel.go:82-86 | Link to the step that ends a request |
| TunnelObjects.Connection.RegisterSocket | internal/server/agenthub/tunnel.go:142-152 | Link to the step that begins an opening |
| TunnelObjects.Connection.CleanUp | internal/server/agenthub/tunnel.go:153-162 | Link to the cleanup step: removes both entries and closes the stream only while the entry is still its own |
| TunnelObjects.Connection.Take | internal/server/agenthub/tunnel.go:203-208 | Link to the step that takes a socket's stream, which the caller closes after unlocking |
| TunnelObjects.Registry.Connect | internal/server/agenthub/tunnel.go:28-38 | Registers a fresh open connection, closes the replaced one and leaves every other connection alone |
| TunnelObjects.Registry.Disconnect | internal/server/agenthub/tunnel.go:40-47 | Unregisters only the very same connection, and closes it in any case |
| HttpCodec.ForwardResponse | internal/agent/tunnel.go:277-308 | The copying loop writes exactly the specified frames, its frame variable keeping the last body from round to round |
| HttpCodec.Request | internal/server/agenthub/tunnel.go:92-113 | The receiving loop returns the first frame with the later bodies appended, up to the frame without More |
| HttpCodec.ResponseArrives | internal/agent/tunnel.go:277-308 | For every sequence of reads: original status and headers, the concatenated reads, once more the last chunk if end of file came alone after data, and the error if a read failed |
| HttpCodec.UpstreamResponseArrives | internal/agent/tunnel.go:268-308 | The caller gets the upstream's own status and headers with that body |
| HttpCodec.BodyIsExactUnlessEofAlone | internal/agent/tunnel.go:277-308 | The body arrives as read if and only if it is not the case that its end came alone after some data |
| HttpCodec.FramesFit | internal/protocol/agent/frame.go:4-7 | No frame's body exceeds 65536 bytes |
| HttpCodec.LastChunkArrivesTwice | internal/agent/tunnel.go:277-308 | Two chunks and a separate end of file deliver the second chunk twice |
| SocketCodec.WriteWebSocketFrames | internal/agent/tunnel.go:311-324 | The cutting loop writes exactly the specified frames, one for an empty message |
| SocketCodec.SplitShape | internal/agent/tunnel.go:311-324 | max(1, ceil(n / 65536)) frames of at most 65536 bytes, all with More but the last |
| SocketCodec.ReadLoop | internal/agent/tunnel.go:174-186 | The read loop delivers what the specification of reassembly says, skipping streams that are not open |
| SocketCodec.StreamsAreIndependent | internal/agent/tunnel.go:174-186 | What arrives on one stream depends on that stream's frames alone |
| SocketCodec.RoundTrip | internal/agent/tunnel.go:311-324 | Any interleaving of the streams' frames delivers each open stream's messages unchanged and in order, and nothing for any other identifier |
| Timestamps.NameLayout | internal/provisioner/state/local.go:76 | A snapshot's name spells year, month, day, T, hour, minute, second and nanosecond in fixed widths |
| Timestamps.DigitsSpell | internal/provisioner/state/local.go:76 | Each part spells its number |
| Timestamps.NamesSortByTime | internal/provisioner/state/local.go:76 | The text order of snapshot names is the order of their times, and equal names mean equal times |
| Snapshots.Local.constructor | internal/provisioner/state/local.go:30-38 | Opens the existing files; a retention of zero means fourteen |
| Snapshots.Local.Backup | internal/provisioner/state/local.go:59-102 | Invalid workspace, no state yet, a name taken by a directory, or a new snapshot followed by pruning |
| Snapshots.Local.PruneDir | internal/provisioner/state/local.go:139-158 | The removal loop takes away exactly the snapshots with at least retention newer ones, and no other entry |
| Snapshots.Local.Restore | internal/provisioner/state/local.go:105-137 | Replaces the state by the named snapshot's contents, or refuses an invalid or missing name |
| Snapshots.BadNamesAreRefused | internal/provisioner/state/local.go:105-113 | Names that are no plain file names, and snapshots without the suffix, are refused; restoring changes only the one state |
| Snapshots.PruneKeepsNewest | internal/provisioner/state/local.go:139-158 | Adding the newest snapshot and pruning leaves exactly the newest ones with their contents |
| Snapshots.NewestAreKept | internal/provisioner/state/local.go:59-158 | After any run with strictly increasing backup times, the directory holds exactly the newest snapshots, each with the state it copied |
| Snapshots.RetentionBoundsSnapshots | internal/provisioner/state/local.go:139-158 | And exactly min(n, retention) of them after n backups |
| Snapshots.SnapshotStaysRestorable | internal/provisioner/state/local.go:59-137 | Restoring the name a backup answered with brings back the state at that backup while at most retention - 1 later ones were taken, and reports it missing from then on |
| Dotenv.ValidEnvironmentKey | internal/agent/dotenv.go:33-47 | Accepts exactly A-Z and underscore, followed by these and digits |
| Dotenv.ParseDotenv | internal/agent/dotenv.go:11-31 | Either every line is blank, a comment or an assignment and each key has its last value, or the first faulty line decides the error |
| Dotenv.MeaningIs | internal/agent/dotenv.go:17-27 | What every line means by the text between its surrounding space: nothing, a comment, an assignment to a valid key up to the first equals sign, a fault, or too long to read |
| Dotenv.TrimSpaceIs | internal/agent/dotenv.go:18 | Trimming takes away exactly the surrounding white space |
| Dotenv.OutcomeIsUnique | internal/agent/dotenv.go:11-31 | A file has only one outcome in that sense |
| Dotenv.SplitKeepsText | internal/agent/dotenv.go:13-18 | Cutting the file into lines loses and adds nothing but a last line feed |
| Dotenv.ParsedKeysAreValid | internal/agent/dotenv.go:22-26 | Every parsed key is a valid variable name without an equals sign |
| Environment.MergeEnvironment | internal/agent/supervisor.go:251-275 | For every iteration order: each variable once, with its value in values or else its first occurrence in base and additions, if and only if no key of values holds an equals sign |
| Environment.FirstDecides | internal/agent/supervisor.go:254-261 | The first item that names a variable decides its value |
| Environment.DefaultsOfTheProcess | internal/agent/supervisor.go:94-104 | When neither the file nor the inherited environment says otherwise, the process gets the configured base path, "/" without one, and the model switch |
| Environment.CommandEnvironment | internal/agent/supervisor.go:94-104 | The dotenv file, account and additions merged into the inherited environment, or the dotenv or base path error |
| Environment.VariablesOfTheProcess | internal/agent/supervisor.go:94-104 | HOME, USER and LOGNAME are the account's; any other variable has its last assignment in the file, or else its first occurrence in the inherited environment and the additions |
| Bundle.ArchivePathPlaces | internal/agent/bundle.go:218-233 | A name is accepted if and only if all its parts are plain and there are enough of them; its entry then lies under exactly these parts, and a file's or link's parent lies in the archive's root |
| Bundle.TrimSlashIs | internal/agent/bundle.go:219-221 | A directory entry's name may end in one slash, which is no part of it |
| Bundle.ResolveAppend | internal/agent/bundle.go:235-240 | Resolving a path goes part by part |
| Bundle.ResolveSpecial | internal/agent/bundle.go:235-240 | An upward part undoes the last component, the top's parent is the top, empty and dot parts do nothing |
| Bundle.StaysMeansWithin | internal/agent/bundle.go:235-240 | A link target is let through if and only if its cleaned path has destination/root as a component prefix |
| Bundle.RelClimbs | internal/agent/bundle.go:235-240 | The textual test on a relative path agrees with component prefixes, names that start with two dots included |
| Bundle.SafeParent | internal/agent/bundle.go:255-267 | The upward walk ends, and succeeds if and only if every strict ancestor below the destination exists and is no link |
| Bundle.ExtractBundle | internal/agent/bundle.go:120-191 | Extraction succeeds if and only if the archive reads to its end, every entry fits under one root, a file is found at the entrypoint and the result can be sealed; otherwise the first misfit is reported |
| Bundle.EverythingIsUnderRoot | internal/agent/bundle.go:136-146 | After a successful extraction every entry, and every link's lexical target, lies under the one root, and only a directory can be the root itself |
| Bundle.EntriesAreSolid | internal/agent/bundle.go:148-180 | After a successful extraction no file or link was created below a path that is missing or a symbolic link, no link is absolute, and there is nothing but directories, files and links |
| Bundle.EntrypointStaysBelow | internal/agent/bundle.go:183-188 | An entrypoint that passes the path test lies strictly below the destination, and under the root if and only if its cleaned path still begins with the root |
| Bundle.PathTestLetsClimb | internal/agent/bundle.go:183-185 | A concrete entrypoint that passes the path test and lies beside the root |
| Bundle.ExtractedEntryIsUnderRoot | internal/agent/bundle.go:183-191 | The entrypoint of an extracted bundle always lies under its root |
| Bundle.CheckedEntrypointStays | internal/agent/bundle.go:35-37 | An entrypoint that passed the installer's check is never refused for its path and lies under the root |

## Left out

- HTTP routing, authentication, JSON, pages, OAuth, cookies, encryption and requests refused for missing or malformed fields: library calls and user interface.
- SQL and transport errors, SQLite's text form of times, time zones and clocks that run backwards; updated_at columns, scheduler events and repository credentials are not modelled.
- RouterService.Router.Claim: does not let other requests run between its statements; `System` does.
- RouterService.Router.AppendLog: does not let other requests run between the lease check, the number read and the insert; `System` does.
- Handlers.ClaimReaches: is about the same undisturbed request; runs with other steps in between are runs of `System` anyway.
- Handlers.LogReaches: likewise.
- Names are drawn by the caller of the model: the pet-name tables and the random source are not part of it.
- Transition names other than start, stop and delete, which the handlers never pass.
- Hashes are represented by the secrets they were computed from, so hashing is taken to be injective.
- Whether an expired worker still applies infrastructure: the code cannot see it either.
- `templateAvailability` and status pages: they only read and sum up columns.
- Requests inside a method of `Service`, `Router` or `Hub` run without interruption; interleavings are the business of `System`, where every statement outside a transaction is a step of its own. There StopIdle appears as stop transitions by anyone at any time.
- Quotas and required labels are fixed over a run; changing the configuration between runs is not modelled.
- Frames lost in `Deliver` (full queues, the one-second timeout), write failures, sends that race with closing, and close frames: the codec theorems assume delivery, and the tunnel theorems are about closing channels only. What the read loop does with a message type other than text and binary is left to the type's name.
- `tcp.go` repeats the registry around a library session, and `s3.go` only builds strings.
- Files are modelled by their contents: temporary files, permissions and failing system calls other than those named are not. A workspace identifier is an opaque directory name, so "." and ".." and the overlap of the state and backup directories under the default layout are not modelled. The calendar fields of a time are taken as given, with years of four digits; a negative retention is refused by the configuration.
- Text is a sequence of Unicode characters, so invalid UTF-8 is not modelled.
- Bundle: what the operating system does with symbolic links, and with a link in the middle of a directory entry's path, is not modelled; its answers are inputs, and all path statements are lexical, on Unix and for an absolute destination.
- Process supervision, self-update, downloads, cloning, file ownership and the OpenTofu runs.
- `AuthenticateSession` and the lists the tables serve: single queries that change nothing.
- Configuration checks, backoff delays and the tunnel's reconnection.
