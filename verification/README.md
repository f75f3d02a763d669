# Verified model of the runfabric core

runfabric deploys functions to several clouds, keeps a lock per service and stage while it
does, and reconciles routers, aliases, settings and workflows with what the providers hold.
This project models that core in Dafny and proves what it promises. `dafny verify
dfyconfig.toml` checks all of it.

Paths below are those of the repository. Where the code and its own comments or documentation
differ, the model follows the code; see the remarks at the end.

## What is modelled

**Leases and locks.** `LockStore` is the DynamoDB lock table as a class of atomic conditional
writes, and the handle with its `held` flag. `LockProtocol` lets any number of clients
interleave those calls one by one, each request possibly dropped and each reply possibly lost,
with the four steps of a steal apart, a shared clock and the table's expiry sweeper; its
theorems hold in every state of every run. `StealRace` says, for every run, which steals take a
lease that has not lapsed, and from which states one still can; `LockHistory` tells from the
log how each row came about and what the table's own expiry removes, and `PunctualHolder` puts
a heartbeat with its cadence, latency and misses into such a run. `Heartbeat` interleaves the
goroutines of one lease: renewal loop, cancellation, drain, once-only release, and a local
renewal split into its read and its write. `LocalLock` is the file backend under serialised
calls, `LeaseTiming` the arithmetic between the renewal cadence and expiry times cut to whole
seconds.

**Reconcilers.** `Cloudflare`, `CloudflareLaws` and `CloudflareSyncer` model the chain of
monitor, pool and load balancer, in which each stage carries the ID of the one before and a dry
run carries placeholders; also the DNS-record mode. `NS1`, `Route53` with `Route53Laws` and
`Route53Zone`, and `TrafficManager` with its laws and profile model the three other routers.
`CloudflareStored`, `NS1Answers`, `Route53Records` and `TrafficManagerEndpoints` say in the
endpoints' own terms what a sync leaves stored, when it finds that up to date, and what it
reports. Each router has a class holding the remote store and the sync in the source's order of
calls, any of which may fail, proved against functions whose convergence, dry-run fidelity and
partition are theorems. `DevStream`, `DevStreamLaws`, `DevStreamDangling` and `DevStreamState`
model the Cloudflare dev-stream redirect as a saga whose every call, on the way back too, may
succeed, fail, or fail after having taken effect. `DurableSettings` and `DurableNames` model
the Azure app settings, `AliasRollback` the Lambda `live` alias.

**Compiler, substitution, codecs, polling.** `WorkflowSteps` and `StepMachine` compile a linear
workflow to an Amazon States Language machine and run it in an interpreter of that language,
paths, retries and pauses included. `Bindings` and `BindingLaws` model single-pass placeholder
replacement over a map enumerated in any order. `Base64` and `Decimal` model the two
hand-written codecs, `DevicePoll` the OAuth device-flow loop.

`Text`, `Ordering`, `Permutations`, `Selections`, `KeyedPlan`, `RemoteStore`, `Routing` and
`Wrappers` are shared.

## Model

| member | source | states |
|---|---|---|
| LeaseTiming.TwoIntervalsFitIff | internal/lease/lease.go:32-38 | two renewal intervals fit in a lease less one second exactly for leases above 3 s |
| LeaseTiming.OneMissIsHarmlessIff | extensions/states/dynamodb/locking.go:150-158 | although expiry is cut to whole seconds, one missed renewal never lets a lease lapse exactly when the lease is at least 3 s |
| LeaseTiming.LateRenewalIsHarmlessIff | extensions/states/dynamodb/locking.go:150-158 | a missed renewal, with the next one late by some latency, never lets a lapse happen exactly when the latency is at most the lease less a second less two intervals |
| LeaseTiming.RecentHit | internal/lease/lease.go:45-72 | among ticks at the cadence, never two of them missed in a row, there is at every moment a hit that is due and at most two intervals and the latency old |
| LockStore.LockKeyUniqueIff | extensions/states/dynamodb/locking.go:29-31 | a key belongs to one service and stage exactly when neither contains a colon |
| LockStore.LockBackend.Acquire | extensions/states/dynamodb/locking.go:33-66 | puts a row and issues a handle exactly if there is none; the row bears the times of the lease |
| LockStore.LockBackend.ReleaseOwned | extensions/states/dynamodb/locking.go:128-148 | deletes the row exactly if the token owns it, and says so |
| LockStore.LockBackend.Renew | extensions/states/dynamodb/locking.go:150-173 | restamps the row exactly if the token owns it, and says so; expiry, sweep time and heartbeat are then those of the new lease, all else stays |
| LockStore.BearsMeans | extensions/states/dynamodb/locking.go:150-173 | a row with the times of a lease lapses exactly when the stored end of the lease is reached and can be swept only after that |
| LockStore.LockBackend.Steal | extensions/states/dynamodb/locking.go:175-193 | undisturbed, takes over exactly a missing or lapsed lock |
| LockStore.Handle.Release | extensions/types/types.go:182-199 | a second release touches nothing; a release that lost its row reports it and stays held |
| LockStore.Handle.Renew | extensions/types/types.go:202-207 | renewing a released handle touches nothing |
| LockProtocol.StepKept | extensions/states/dynamodb/locking.go:33-193 | every single store call of every client keeps the invariant, with requests dropped and replies lost at will |
| LockProtocol.EveryRunIsSafe | extensions/states/dynamodb/locking.go:33-193 | in every reachable state at most one handle's token matches a row, nothing happens under a token whose row was deleted, conditional deletes hit only their own token, and every steal read that row earlier and then saw a clock past its expiry, so that without a renewal in between the row had lapsed |
| LockProtocol.EveryRunGrants | extensions/states/dynamodb/locking.go:150-173 | every stored expiry and sweep time is the rounded end of the latest grant to the row's owner, and its heartbeat time the stamp |
| LockHistory.EveryRunTells | extensions/states/dynamodb/locking.go:33-173 | in every state of every run each row still shows the lock, operation, owner and creation time of the put that made it, and every row the table's expiry ever took was one whose latest grant had run out |
| StealRace.StealTakesLiveIff | extensions/states/dynamodb/locking.go:175-193 | in every run, a steal's delete that takes a row takes a live one exactly if the owner renewed since the stealer's read and its latest grant is ahead of the clock |
| StealRace.CanStealLiveIff | extensions/states/dynamodb/locking.go:175-193 | from any reachable state with a stealer past its clock check, some continuation ends with it taking a live lease exactly if the row is still stored under the token it saw and that token's handle is held |
| StealRace.RenewalRaceStealsLiveLease | extensions/states/dynamodb/locking.go:175-193 | one such run from the start: a renewal between clock check and delete |
| PunctualHolder.PunctualHolderIsNotLapsed | internal/lease/lease.go:32-72 | over every run in which a holder's renewals come at the cadence, each hit takes effect within the slack and no two misses follow each other, its stored expiry is ahead of the clock in every state in which the row is still its own |
| PunctualHolder.PunctualHolderLosesOnlyToRace | extensions/states/dynamodb/locking.go:175-193 | a stealer that takes such a holder's row had read it before a renewal of the holder's: there is no other way to lose it to a steal |
| PunctualHolder.PunctualHolderIsNeverSwept | extensions/states/dynamodb/locking.go:150-173 | the table's expiry never takes such a holder's row |
| PunctualHolder.PunctualHolderLosesRow | extensions/states/dynamodb/locking.go:113-193 | there are just three ways such a holder can lose its row: release under its token, removal by hand, or a steal that read it before a renewal |
| Heartbeat.EveryRunIsSafe | internal/lease/lease.go:45-117 | in every interleaving no renewal step starts or finishes after the release callback starts, it runs once, every caller gets its result, and the one-slot channel never blocks |
| Heartbeat.ReleasedFileIsNotResurrected | extensions/states/local/locking.go:111-130 | from the callback on, only other processes or the removal itself change the lock file |
| Heartbeat.RenewalOverwritesOwn | extensions/states/local/locking.go:111-130 | a renewal writes its own token over a file in which it read its own token before; only another process can have changed the file in between |
| Heartbeat.ReleaseNeverDeadlocks | internal/lease/lease.go:101-117 | while some caller waits, the lease can take a step of its own |
| LocalLock.LockBackend.Acquire | extensions/states/local/locking.go:31-88 | grants exactly when there is no file or a readable, expired one |
| LocalLock.LockBackend.Release | extensions/states/local/locking.go:103-109 | removes the file whoever owns it |
| LocalLock.LockBackend.Renew | extensions/states/local/locking.go:111-130 | rewrites the file exactly if the token owns it |
| LocalLock.LockPathUniqueIff | extensions/states/local/locking.go:27-29 | a lock file is that of one service and stage exactly when neither contains a dash |
| LocalLock.HolderKeepsFile | extensions/states/local/locking.go:31-130 | between a grant and the next release or grant the file stays the holder's, with the operation and creation time of the grant and the times of its last lease, and is not expired before the end of that, over any calls |
| LocalLock.SecondGrantNeedsReleaseOrLapse | extensions/states/local/locking.go:31-88 | between two grants there was a release, or the first lease had lapsed at the second one's check |
| CloudflareLaws.DryRunIsFaithful | extensions/routers/cloudflare/syncer.go:46-225 | with placeholder IDs down the chain a dry run still reports the actions of the real run, in order, delete candidates included |
| CloudflareLaws.BalancedSyncSettles | extensions/routers/cloudflare/syncer.go:46-225 | a second sync of the chain is three no-ops, no write, and the same candidates |
| CloudflareLaws.RecordSyncSettles | extensions/routers/cloudflare/syncer.go:227-258 | a second sync of the DNS record is a no-op without a write |
| CloudflareLaws.InterruptedSyncResumes | extensions/routers/cloudflare/syncer.go:46-95 | wherever a call of the chain fails, the actions reported are a prefix of the full report, and syncing again leads where the first sync would have led |
| CloudflareLaws.UnfailingAttempt | extensions/routers/cloudflare/syncer.go:46-95 | an attempt in which no needed call fails is the sync of the other laws |
| CloudflareStored.SyncLeavesChain | extensions/routers/cloudflare/syncer.go:46-225 | a real sync leaves the first monitor tagged for the service probing the health path, the first pool of the stage with one origin for each endpoint (name, address, weight) and that monitor, the first load balancer of the host with that pool, the steering for the strategy and the TTL; what was written has all its other fields too; the delete candidates are, in store order, exactly the tagged monitors and pools the chain does not use |
| CloudflareStored.SyncLeavesRecord | extensions/routers/cloudflare/syncer.go:227-299 | a real sync in DNS mode leaves the host's first CNAME at the first endpoint's URL without scheme, with the TTL, and names exactly the other tagged records of the host |
| CloudflareStored.ReportTellsWrites | extensions/routers/cloudflare/syncer.go:120-225 | the three actions say of each resource whether it was created, updated or left alone, and the writes add up |
| CloudflareStored.RecordReportTells | extensions/routers/cloudflare/syncer.go:227-258 | the same of the DNS record |
| CloudflareLaws.RecordDryRunAgrees | extensions/routers/cloudflare/syncer.go:227-299 | a DNS dry run agrees in its main action and in the number of candidates |
| CloudflareLaws.RecordDryRunFaithfulIff | extensions/routers/cloudflare/syncer.go:260-299 | it agrees in everything exactly unless the real run's update makes it keep another record |
| CloudflareLaws.OriginsEqualIff | extensions/routers/cloudflare/syncer.go:438-460 | for distinct names origins are compared as multisets of name, address and weight |
| CloudflareLaws.ComparisonIsExactIff | extensions/routers/cloudflare/syncer.go:438-460 | the comparison with a wanted list is multiset equality, for all stored lists, exactly when the wanted names are distinct |
| CloudflareSyncer.Syncer.Preflight | extensions/routers/cloudflare/syncer.go:97-118 | accepts exactly routings with a host name, endpoints, parsable URLs and distinct names |
| CloudflareSyncer.Syncer.SyncMonitor | extensions/routers/cloudflare/syncer.go:120-156 | performs the monitor stage: new store, ID handed on, write count, action; fails, changing nothing, exactly if the listing or a write it needs is refused |
| CloudflareSyncer.Syncer.SyncPool | extensions/routers/cloudflare/syncer.go:158-191 | performs the pool stage with the monitor's ID; fails, changing nothing, exactly if the listing or a write it needs is refused |
| CloudflareSyncer.Syncer.SyncLoadBalancer | extensions/routers/cloudflare/syncer.go:193-225 | performs the load-balancer stage with the pool's ID; fails, changing nothing, exactly if the listing or a write it needs is refused |
| CloudflareSyncer.Syncer.SyncDNSRecord | extensions/routers/cloudflare/syncer.go:227-258 | performs the DNS-record stage; fails, changing nothing, exactly if the listing or a write it needs is refused |
| CloudflareSyncer.Syncer.CollectDNSDeleteCandidates | extensions/routers/cloudflare/syncer.go:260-299 | all managed records of the host but the one kept |
| CloudflareSyncer.Syncer.CollectLBDeleteCandidates | extensions/routers/cloudflare/syncer.go:301-345 | the managed monitors and pools other than the ones in use, as SyncLeavesChain describes them |
| CloudflareSyncer.Syncer.Sync | extensions/routers/cloudflare/syncer.go:46-95 | refuses without a call, or has account, actions, write count and success of the attempt the laws are about, whichever calls fail |
| CloudflareSyncer.CompareOrigins | extensions/routers/cloudflare/syncer.go:438-460 | the comparison by a map of names |
| NS1.KeyTellsShape | extensions/routers/ns1/router.go:297-322 | an answer's key tells its target, weight and priority, whatever the target contains |
| NS1.KeysAgreeIff | extensions/routers/ns1/router.go:254-268 | comparing keys as multisets is comparing shapes as multisets |
| NS1.RecordsEqual | extensions/routers/ns1/router.go:245-268 | copy, sort, compare: true exactly for equal domain, type, TTL and multiset of answers |
| NS1.DesiredRecord | extensions/routers/ns1/router.go:201-243 | succeeds exactly for valid routings, with the answers sorted by target |
| NS1.DeleteCandidates | extensions/routers/ns1/router.go:270-291 | exactly the stored targets no longer wanted, sorted |
| NS1.ServedIsSame | extensions/routers/ns1/router.go:245-305 | a record served with its answers reordered and its numbers as floats is the same record |
| NS1.SameHasNoCandidates | extensions/routers/ns1/router.go:270-291 | the same record has no delete candidate |
| NS1Answers.SameIffServes | extensions/routers/ns1/router.go:201-322 | a stored record is found up to date exactly if it serves the routing: domain, type, TTL, and up to order one answer to each endpoint with its target and its weight or place |
| NS1Answers.DesiredServes | extensions/routers/ns1/router.go:201-243 | what is sent to be stored serves the routing, every answer marked up |
| NS1Answers.CandidatesAreUnwanted | extensions/routers/ns1/router.go:270-291 | the candidates are, sorted, the first targets of the stored answers that no desired answer has |
| NS1Answers.ReportTellsServing | extensions/routers/ns1/router.go:69-127 | the last action says whether a record was missing, had to be changed or serves the routing; those before it are the candidates |
| NS1Answers.SyncLeavesServing | extensions/routers/ns1/router.go:69-127 | what a real run leaves stored serves the routing |
| NS1.Zone.Sync | extensions/routers/ns1/router.go:69-127 | creates, updates or leaves the record; one write exactly when it differs, the run is real and the server takes it; a failing lookup or refused write is an error and leaves the record |
| NS1.Zone.SyncTwice | extensions/routers/ns1/router.go:69-127 | a second sync is one no-op without candidate and without any write, against a server that takes none, in whatever order answers are served |
| Route53Laws.IdentifierNormal | extensions/routers/route53/router.go:216-222 | identifiers written are nonempty and unchanged by normalising |
| Route53Laws.IdKeyTells | extensions/routers/route53/router.go:224-233 | the key of a weighted record tells its identifier apart from failover and default keys |
| Route53Laws.UpsertSetsKey | extensions/routers/route53/router.go:129-139 | an upsert sets the key of its record and leaves alone every other key of the mode: identifier keys or role keys |
| Route53Laws.ChangesTakeEffect | extensions/routers/route53/router.go:61-143 | after a plan's upserts exactly the created and updated keys are as desired, all other keys of the mode as before |
| Route53Laws.SyncSettles | extensions/routers/route53/router.go:61-143 | in both modes, however large the zone, every desired key has an equal record afterwards (what equal means is EqualIffServes), given room in the page for the records from the host name on, and identifiers normalised (weighted) or not renamed (failover) |
| Route53Records.EqualIffServes | extensions/routers/route53/router.go:169-263 | the comparison with an endpoint's desired record holds exactly if the record serves the endpoint: host name and target up to case and final dot, TTL, identifier, and role or weight |
| Route53Records.KeyIffStandsFor | extensions/routers/route53/router.go:224-233 | a record has an endpoint's key exactly if it has its role, or its identifier |
| Route53Records.SyncServes | extensions/routers/route53/router.go:61-143 | after a real run the zone lists for every endpoint a record that serves it, under the conditions of SyncSettles |
| Route53Records.PlanDecidesByServing | extensions/routers/route53/router.go:80-116 | an endpoint's record is created exactly if none listed stands for it, left exactly if it serves the endpoint, and updated otherwise |
| Route53Records.CandidatesStandForNone | extensions/routers/route53/router.go:117-128 | the stale keys are exactly those of listed records that stand for no endpoint |
| Route53Zone.ReportTellsServing | extensions/routers/route53/router.go:80-128 | for every endpoint one action with its host, target, role or weight and TTL says create, no-op or update accordingly |
| Route53Zone.CandidateStandsForNone | extensions/routers/route53/router.go:117-128 | a reported delete candidate is a listed record that stands for no endpoint |
| Route53Zone.StaleIsReported | extensions/routers/route53/router.go:117-128 | every listed record that stands for no endpoint is reported by its key |
| Route53Zone.DesiredRecords | extensions/routers/route53/router.go:169-214 | fails exactly for a missing host name, no endpoints or an endpoint without target |
| Route53Zone.Zone.LoadExisting | extensions/routers/route53/router.go:145-167 | one page of at most 100 record sets from the host name on, of it the host's CNAMEs |
| Route53Zone.PlanDesired | extensions/routers/route53/router.go:80-116 | decides every desired key once, in sorted order, with exactly the creates and updates in the batch |
| Route53Zone.PlanStaleKeys | extensions/routers/route53/router.go:117-128 | decides every stale key once, whatever the enumeration, and adds nothing to the batch |
| Route53Zone.Zone.Sync | extensions/routers/route53/router.go:61-143 | the actions are those of a plan, the zone that of its batch; nothing is sent in a dry run or without changes; a failing listing or batch is an error and leaves the zone; PlanDecidesByServing says which verdict an endpoint gets |
| Route53Zone.Zone.Preview | extensions/routers/route53/router.go:61-143 | a dry run reports the same multiset of actions as the real run after it |
| Route53Zone.Zone.SyncTwice | extensions/routers/route53/router.go:61-143 | under the conditions of SyncSettles every endpoint is served, and a second sync is no-ops and delete candidates only, and succeeds with not one batch more against a server that takes none |
| KeyedPlan.PlansAgree | extensions/routers/route53/router.go:80-128 | two enumerations of the same maps plan the same entries |
| KeyedPlan.SettledPlan | extensions/routers/route53/router.go:80-128 | where the stored records equal the desired ones a plan has nothing left to write |
| TrafficManager.EndpointNameIsManaged | extensions/routers/azuretrafficmanager/router.go:286-306 | whatever an endpoint is called, its name is a slug under the managed prefix and unchanged by normalising |
| TrafficManager.ActionsAreOrdered | extensions/routers/azuretrafficmanager/router.go:142-147 | the comparison used for sorting is a total preorder |
| TrafficManagerEndpoints.NameTellsEndpoint | extensions/routers/azuretrafficmanager/router.go:286-306 | an endpoint's name is the prefix and the slug of its name, or its number if there is none |
| TrafficManagerEndpoints.EqualIffDirects | extensions/routers/azuretrafficmanager/router.go:229-284 | a stored endpoint is found up to date exactly if it directs to the routing's: target, status, and place or weight |
| TrafficManagerEndpoints.SyncDirects | extensions/routers/azuretrafficmanager/router.go:71-149 | after a real run of distinct names the one endpoint of each endpoint's name directs to it, and was stored before or written with just these fields |
| TrafficManagerEndpoints.ReportTellsDirecting | extensions/routers/azuretrafficmanager/router.go:90-120 | for every endpoint one action says whether its name was missing, had to be changed or directs to it |
| TrafficManagerEndpoints.ReportNamesStale | extensions/routers/azuretrafficmanager/router.go:122-140 | besides those the report has exactly the endpoints with the router's prefix whose names no endpoint has |
| TrafficManagerLaws.SyncPartitions | extensions/routers/azuretrafficmanager/router.go:71-149 | with distinct names every desired name gets one create, update or no-op, every stale managed one a delete candidate, no other name anything |
| TrafficManagerLaws.SyncSettles | extensions/routers/azuretrafficmanager/router.go:71-149 | after the upserts every desired endpoint is a no-op |
| TrafficManagerLaws.OthersAreKept | extensions/routers/azuretrafficmanager/router.go:71-149 | endpoints of undesired names are neither changed, removed nor added |
| TrafficManagerProfile.DesiredEndpoints | extensions/routers/azuretrafficmanager/router.go:229-264 | fails exactly for invalid routings; else the desired endpoints, sorted by name |
| TrafficManagerProfile.CollectCandidates | extensions/routers/azuretrafficmanager/router.go:122-140 | exactly the managed endpoints of undesired names |
| TrafficManagerProfile.ReportFollowsPlan | extensions/routers/azuretrafficmanager/router.go:90-149 | the reported verdicts and names are those of the partition |
| TrafficManagerProfile.Profile.Apply | extensions/routers/azuretrafficmanager/router.go:90-120 | upserts exactly what differs, up to the first refusal, after which the earlier upserts stay |
| TrafficManagerProfile.Profile.Sync | extensions/routers/azuretrafficmanager/router.go:71-149 | sorted report and new profile; an error exactly for an invalid routing, a failing profile read or a refused upsert |
| TrafficManagerProfile.Profile.Preview | extensions/routers/azuretrafficmanager/router.go:71-149 | a dry run reports what the real run after it reports |
| TrafficManagerProfile.Profile.SyncTwice | extensions/routers/azuretrafficmanager/router.go:71-149 | with distinct names a second sync succeeds, changing nothing, even against a server that refuses every write |
| DevStreamLaws.SagaRestoresIff | extensions/providers/cloudflare-workers/dev_stream.go:85-215 | redirect, then undo or restore, leaves the zone as it was, for every failure point, exactly unless a failed proxy upload or a failed or anonymous fallback creation took effect |
| DevStreamLaws.FailedRedirectLeavesNothing | extensions/providers/cloudflare-workers/dev_stream.go:85-158 | a redirect that does not end applied has undone itself |
| DevStreamLaws.OtherWorkersUntouched | extensions/providers/cloudflare-workers/dev_stream.go:85-215 | other workers' routes are the same in every zone passed through, whatever fails, undo included |
| DevStreamLaws.RedirectTakesOver | extensions/providers/cloudflare-workers/dev_stream.go:85-158 | when all calls succeed the worker's routes, and only they, point at the proxy |
| DevStreamLaws.RestoreNeedsEveryCallIff | extensions/providers/cloudflare-workers/dev_stream.go:161-215 | a restore restores exactly if each of its calls takes effect, and cannot be repeated |
| DevStreamLaws.MissingZoneDoesNotStop | extensions/providers/cloudflare-workers/dev_stream.go:70-84 | a missing zone ID is reported exactly along with a missing account ID or token, and alone changes nothing about the redirect |
| DevStreamDangling.NeverDanglingIff | extensions/providers/cloudflare-workers/dev_stream.go:85-215 | whatever fails on either way, no zone passed through has a route at a missing proxy exactly if, should the proxy's delete take effect, every redirected or created route had been put back or deleted before |
| DevStreamDangling.DependableNeverDanglesIff | extensions/providers/cloudflare-workers/dev_stream.go:85-215 | when all compensating calls take effect, the only way to such a route is a fallback route created unknown to the session |
| DevStreamDangling.FailedRestoreDanglesIff | extensions/providers/cloudflare-workers/dev_stream.go:161-215 | after a redirect of n routes the restore leaves none dangling exactly if the proxy's delete has no effect or all n route restores had |
| DevStreamState.RedirectToTunnel | extensions/providers/cloudflare-workers/dev_stream.go:48-158 | the redirect step by step: zone, session and all zones passed through are those the laws are about |
| DevStreamState.DevStreamState.Restore | extensions/providers/cloudflare-workers/dev_stream.go:161-215 | the restore step by step, likewise |
| DevStreamState.UpdateRoutes | extensions/providers/cloudflare-workers/dev_stream.go:138-149 | rewrites one route after another until an update fails |
| DurableNames.PrefixIsWords | extensions/providers/azure-functions/orchestration_capability.go:388-400 | collapsing and trimming yields the name's words joined by underscores |
| DurableNames.PrefixesEqualIff | extensions/providers/azure-functions/orchestration_capability.go:388-400 | two names share a prefix exactly when they have the same upper-case words, none counting as ORCHESTRATION |
| DurableNames.CollidingNames | extensions/providers/azure-functions/orchestration_capability.go:388-400 | "a-b" and "a_b" collide, and so do the empty name and "orchestration" |
| DurableSettings.KeyInjective | extensions/providers/azure-functions/orchestration_capability.go:272-276 | a setting key tells its prefix and its suffix |
| DurableSettings.SyncIsIdempotent | extensions/providers/azure-functions/orchestration_capability.go:265-299 | syncing again changes no setting |
| DurableSettings.RemoveUndoesSync | extensions/providers/azure-functions/orchestration_capability.go:301-327 | sync then remove leaves the original settings less the declarations' keys |
| DurableSettings.SecondSyncUpdates | extensions/providers/azure-functions/orchestration_capability.go:277-281 | a second sync reports every declaration updated |
| DurableSettings.CreatedAgainIff | extensions/providers/azure-functions/orchestration_capability.go:265-327 | after sync and remove the next sync reports all created exactly when the prefixes are distinct |
| DurableSettings.DistinctAreStored | extensions/providers/azure-functions/orchestration_capability.go:282-293 | with distinct prefixes every declaration's four settings are stored under its prefix, the mark as 1, blank ones absent |
| DurableSettings.OtherKeysKept | extensions/providers/azure-functions/orchestration_capability.go:265-299 | settings of other origin are not touched |
| DurableSettings.SyncReportTells | extensions/providers/azure-functions/orchestration_capability.go:277-281 | with distinct prefixes a declaration is reported updated exactly if its mark was 1, spaces aside, and else created |
| DurableSettings.RemoveReportTells | extensions/providers/azure-functions/orchestration_capability.go:314-318 | and when removed, deleted exactly if it had a mark |
| DurableSettings.AppSettings.Sync | extensions/providers/azure-functions/orchestration_capability.go:265-299 | the loop, and one write taken whole or not at all; an error, changing nothing, exactly when the settings cannot be read or the write is refused |
| DurableSettings.AppSettings.Remove | extensions/providers/azure-functions/orchestration_capability.go:301-327 | removes exactly the declarations' keys and reports which were managed; fails likewise |
| AliasRollback.WalkLands | extensions/providers/aws-lambda/versioning.go:59-99 | k rollbacks land on the k-th highest version below the start, leaving exactly the lower ones |
| AliasRollback.NumericVersions | extensions/providers/aws-lambda/versioning.go:102-125 | over all pages, exactly the numeric versions, sorted |
| AliasRollback.LiveAlias.PublishAndAlias | extensions/providers/aws-lambda/versioning.go:21-54 | the new version is listed exactly if publishing succeeds, and live exactly if the alias calls do too |
| AliasRollback.LiveAlias.Rollback | extensions/providers/aws-lambda/versioning.go:59-99 | moves to the highest version below, exactly if there is one; else changes nothing |
| AliasRollback.LiveAlias.RollbackAll | extensions/providers/aws-lambda/versioning.go:59-99 | exactly as many rollbacks succeed as there are versions below, each visited, highest first |
| AliasRollback.LiveAlias.PublishThenRollback | extensions/providers/aws-lambda/versioning.go:21-99 | one rollback after publishing a new highest version reaches the highest one before it, wherever the alias had been |
| WorkflowSteps.WorkflowStepsOf | extensions/providers/aws-lambda/orchestration_capability.go:56-74 | each declared step once, in order, with its given or numbered id |
| WorkflowSteps.ExpressibleIff | extensions/providers/aws-lambda/orchestration_capability.go:56-104 | a workflow can be compiled exactly if it has steps, each of kind code in whatever case and naming a deployed function |
| WorkflowSteps.ProperIdsIff | extensions/providers/aws-lambda/orchestration_capability.go:63-66 | numbered ids clash neither with each other nor with the fail state, so only given ids can go wrong |
| WorkflowSteps.CompiledWorkflowIff | extensions/providers/aws-lambda/orchestration_capability.go:40-148 | from configuration to machine: faithful exactly when the given ids are proper |
| StepMachine.BuildASL | extensions/providers/aws-lambda/orchestration_capability.go:89-148 | succeeds exactly for non-empty workflows of bound, deployed code steps; else names the first offending step and what it lacks |
| StepMachine.TransientIsRetried | extensions/providers/aws-lambda/orchestration_capability.go:113-120 | the retrier's four names, the wildcard States.TaskFailed among them, match exactly the errors other than a timeout and the terminal ones |
| StepMachine.MachineRunsFrom | extensions/providers/aws-lambda/orchestration_capability.go:107-140 | from any step on, machine and workflow make the same invocations with the same payloads after the same pauses and end alike, retries and Fail included: the input selected by the payload path, the reply taken out of the service's envelope by the output path |
| StepMachine.MachineRunsWorkflowIff | extensions/providers/aws-lambda/orchestration_capability.go:89-148 | the machine means the workflow, for all inputs and all behaviours of the functions, exactly when step ids are distinct and none is the fail state's |
| StepMachine.InvocationsInOrder | extensions/providers/aws-lambda/orchestration_capability.go:89-148 | told from the log: on success every step was invoked in order, each fed its predecessor's reply and retried with the same payload at most three times, after 2, 4 and 8 seconds; on failure this holds up to the failing step, and nothing follows it |
| Bindings.ValuesAreNotRescanned | extensions/providers/gcp-functions/orchestration_config.go:134-146 | the source is cut into text and placeholders without regard to the values, which are inserted as they are |
| Bindings.TokensSpellSource | extensions/providers/gcp-functions/orchestration_config.go:134-146 | those pieces spell the source |
| Bindings.PlainTextIsKept | extensions/providers/aws-lambda/stepfunctions_helpers.go:20-32 | text in which no placeholder occurs is unchanged |
| BindingLaws.OrderNeverMattersIff | extensions/providers/gcp-functions/orchestration_config.go:126-147 | every enumeration order gives the same text, for all values and sources, exactly when no key followed by a closing brace begins another |
| BindingLaws.WithoutBracesPrefixFree | extensions/providers/aws-lambda/stepfunctions_helpers.go:12-33 | keys without a closing brace satisfy that |
| BindingLaws.ApplyBindings | extensions/providers/aws-lambda/stepfunctions_helpers.go:12-47 | the method over the map in any order substitutes as the laws describe, each reference resolved by its case |
| BindingLaws.ApplyStepFunctionBindings | extensions/providers/aws-lambda/stepfunctions_helpers.go:12-47 | the same with what each reference resolves to: an ARN to itself, another one to the deployed function's ARN if there is one and else to itself, a blank one to nothing, all trimmed |
| BindingLaws.ApplyCloudWorkflowBindings | extensions/providers/gcp-functions/orchestration_config.go:126-161 | likewise with URLs and deployed resources |
| BindingLaws.BoundPlaceholderGivesWay | extensions/providers/aws-lambda/stepfunctions_helpers.go:12-33 | with names that do not clash a bound key's placeholder, in each of its four spellings, gives way to its value and substitution goes on behind it |
| BindingLaws.UnboundPlaceholderStays | extensions/providers/aws-lambda/stepfunctions_helpers.go:16-24 | with names without braces an unbound key's placeholder stays |
| BindingLaws.PlaceholderBecomes | extensions/providers/aws-lambda/stepfunctions_helpers.go:12-47 | so the placeholder of a key becomes the deployed target of its reference, or the reference if that is direct or unknown, or stays for a blank one |
| Base64.DecodesIffEncoded | extensions/providers/kubernetes/build.go:230-255 | a text decodes, by section 4 of RFC 4648, to a byte string exactly when it is its encoding |
| Base64.EncodedShape | extensions/providers/kubernetes/build.go:230-255 | length 4 for every 3 bytes begun, padding by the remainder and only at the end, all else of the alphabet |
| Base64.EncodeBase64 | extensions/providers/kubernetes/build.go:230-255 | the loop by three computes that encoding |
| Decimal.PrintInverted | extensions/types/types.go:209-229 | a printed number parses back and has no leading zero |
| Decimal.ItoaInvertedIff | extensions/types/types.go:209-229 | what the printer returns parses back for every 64-bit value but the least |
| Decimal.Itoa | extensions/types/types.go:209-229 | backward writes stay in the 20-byte buffer and yield that text |
| DevicePoll.PollDeviceToken | internal/cli/admin/auth.go:432-466 | for every answer sequence and timing: each wait is the base interval plus 5 s per slow_down, no request past the deadline, the verdict of the first final answer, at most lifetime/interval + 1 requests, and that many if nothing delays them |
| DevicePoll.VerdictTells | internal/cli/admin/auth.go:446-463 | only a token succeeds, and is handed on; polling goes on for the two pending answers and no other |
| DevicePoll.Defaults | internal/cli/admin/auth.go:433-440 | without an interval it is 5 s, without a lifetime 900 s |

## Left out

- LocalLock.HolderKeepsFile: for serialised calls only; the takeover of an expired lock file is check, remove, create, and two processes interleaving it can both succeed.
- LocalLock.LockBackend.Release: unconditional, because the local backend has no owned release.
- LockProtocol.EveryRunIsSafe: assumes fresh tokens and one monotone clock; skew between clients, the table service's expression syntax and batching are not modelled.
- PunctualHolder.PunctualHolderIsNotLapsed: assumes, as the heartbeat does, one renewal at a time for the lease duration it was given and ticks at most one interval apart; how late a renewal takes effect is the latency.
- Heartbeat.EveryRunIsSafe: one lease and one heartbeat; a read or write of the lock file is one step, partial writes are not modelled.
- CloudflareSyncer.Syncer.Sync: a refused write has no effect, and each resource's listing and write fail as one server says; the printed summary and the token audit are not part of this model.
- CloudflareStored.ReportTellsWrites: the detail texts of these actions are not stated.
- NS1.Zone.Sync: a refused write has no effect; status codes are reduced to success, missing and failure.
- Route53Laws.SyncSettles: not for more than one page of 100 record sets from the host name on, weighted records stored under identifiers that are not normalised, or failover records whose identifier was renamed; a refused batch has no effect.
- Route53Zone.Zone.SyncTwice: under the same conditions as Route53Laws.SyncSettles, and for a first run whose calls succeed.
- Route53Zone.Zone.Sync: zone-ID normalisation and the client are not modelled.
- TrafficManagerLaws.SyncSettles: endpoints with colliding normalised names are outside.
- TrafficManagerProfile.Profile.SyncTwice: likewise for distinct names only.
- DevStreamLaws.SagaRestoresIff: one session at a time on the zone, new route IDs unused, no earlier proxy of the same name.
- StepMachine.MachineRunsWorkflowIff: of the States Language only what the compiler emits: the invoke integration, paths of at most one field, one retrier and one catcher; the jitter-free pauses are those asked for, and the JSON rendering is not modelled.
- AliasRollback.LiveAlias.Rollback: failures of its own alias and listing calls are not modelled; they change nothing before the one write.
- Bindings.ValuesAreNotRescanned: the library replacer is modelled as documented, leftmost match and argument order.
- DevicePoll.PollDeviceToken: durations are unbounded integers; overflow of very long lifetimes is not modelled.
- URL parsing, JSON and HTTP are parameters or faithful transfers; names are ASCII text, so Unicode case folding and spaces are not modelled.
- Sorting is modelled by an insertion sort whose contract promises only a sorted permutation.
- Provider deployment, invocation, logs, metrics, secrets, packaging, CLI commands, dashboards and registries hold no state worth proving.
- The plugin SDK's lease helper used by the DynamoDB heartbeat is not part of this model; the contract of the lease package is.
- Cloudflare weights are reals; the rounding of floating-point division is not modelled, nor the precision of large integers that NS1 returns as floats.

## Remarks on code and documentation

- `itoa` prints the least 64-bit integer as a lone "-": negating it wraps (`Decimal.ItoaInvertedIff`).
- The renewal in the DynamoDB backend sets an attribute `ttl` by its bare name (extensions/states/dynamodb/locking.go:162), which is a reserved word of DynamoDB expressions and needs an attribute-name placeholder there; the model is of the update as it is meant.
- A dev-stream redirect whose proxy upload fails after having taken effect leaves the proxy script behind, and a fallback route created without a reported ID is left pointing at nothing (`DevStreamLaws.SagaRestoresIff`, `DevStreamDangling.DependableNeverDanglesIff`).
- A dev-stream restore deletes the proxy even after the restore of some route failed; that route then points at a script that is gone, and the session counts as restored, so that a second restore does nothing (`DevStreamDangling.FailedRestoreDanglesIff`, `DevStreamLaws.RestoreNeedsEveryCallIff`).
- A steal can take a lease that has not lapsed: its conditional delete checks the owner token, which a renewal does not change (`StealRace.StealTakesLiveIff`, `StealRace.CanStealLiveIff`).
- A DNS-mode dry run can name other delete candidates than the real run (`CloudflareLaws.RecordDryRunFaithfulIff`).
- The dev-stream code reports a missing zone ID as a prerequisite only when the account ID or the token is missing too; alone it does not stop the redirect (`DevStreamLaws.MissingZoneDoesNotStop`).
- The lease interval leaves more than a second of slack only above 3 s, but one missed renewal is harmless from 3 s on (`LeaseTiming.TwoIntervalsFitIff`, `LeaseTiming.OneMissIsHarmlessIff`).
- The catcher of a compiled step names States.ALL, which does not match the terminal errors States.DataLimitExceeded and States.Runtime: those end an execution with their own error instead of the Fail state's (`StepMachine.MachineRunsFrom`).
- With two wanted origins of one name the Cloudflare comparison is not exact: it can refuse a list for itself, or accept one that has another name in place of one of them; preflight refuses such routings (`CloudflareLaws.ComparisonIsExactIff`, `CloudflareSyncer.Syncer.Preflight`).
- The lock file of the local backend joins service and stage with a dash, so that service a-b in stage c and service a in stage b-c share one (`LocalLock.LockPathUniqueIff`).
