# Verified model of renterd's repair, transfer and buffering logic

renterd stores objects on Sia hosts: data is cut into slabs, striped and erasure-coded into sectors,
encrypted and uploaded to many hosts, and slabs at risk are repaired. This project models the parts of
the modified renterd 2.9.3 whose correctness rests on algorithms, counters and interleavings, and proves
what they guarantee.

| module | source | subject |
|---|---|---|
| Matching, Placement | stores/repair_policy.go | the augmenting-path placement of shards on hosts |
| SlabRisk, JointRisk, CorrelatedRisk, HealthCutoff, HostRisk, SlabEvaluation | stores/slab_risk.go, stores/repair_policy.go | the loss probability of a slab, its scenario mixture and the health cutoffs that invert it |
| RepairQueue, Sorting | stores/repair_policy.go | the paged, bounded repair queue and its hysteresis |
| Upload, UploadEngine, UploadHosts | internal/upload/uploadmanager.go | the slab upload loop, and which hosts it ends up on |
| Uploaders, UploaderPool | internal/upload/uploadmanager.go | refreshing the uploaders and picking candidates |
| Download, DownloadEngine | internal/download/downloadmanager.go | the slab download loop and its overdrive goroutine |
| Memory | internal/memory/memory.go | memory pools and limits |
| RekeyStream | object/encryptionkey.go | the seekable, re-keying stream cipher |
| Striping, DataPath, ObjectDownload | object/slab.go, internal/download/downloadmanager.go | from stored sectors to a range of an object |
| SlabBuffer, SlabBufferStore | stores/slabbuffer.go | packed slab buffers under concurrent appenders |
| ContractLock | internal/bus/contractlocker.go | the priority lock with timeouts |
| Migration | autopilot/migrator/worker.go | planning a migration |
| Gouging | autopilot/contractor/evaluate.go | the search for a gouging setting |

Basics.dfy holds what the modules share.

How things are modelled:

- Floating-point numbers are reals; NaN is `None`. The map from a hazard to a probability is any strictly
  increasing function from [0, oo) into [0, 1).
- Concurrent code is a step system: a critical section is a step, and the theorems are about every run
  (`Run`, `History`). Where the source updates an object in place there is also a class. The methods of
  UploadEngine, UploaderPool, Memory, RekeyStream and SlabBufferStore are proved against the functions of those steps. Those of
  DownloadEngine are proved against the parts a step is made of (`Select`, `Launch`, `Received`); which of its
  two loops runs them is the step system's. `ContractLock.Lock` is the object alone, with its critical sections
  run to their end, and has contracts of its own.
- What other code, the network or a clock decides is an input: whether a queue accepts a request, which
  answer comes next, whether an overdrive is due, which downloader is fastest, what a map iterates first.
- Reed-Solomon is any systematic column code from whose shards any k give the data back
  (`DataPath.Recovers`). ChaCha20, section 2.4 of RFC 8439, is any keystream indexed by nonce and position.
- uint32 and uint64 arithmetic is written out where it can wrap (`SectorRegion`, `canOverdrive`, the memory
  sums, the 128-bit currency).

## Where the code does less than it sets out to

Each of these is kept as the code has it and shown by a lemma, with the exact condition where there is one:

- A slab upload buffers a request it cannot relaunch, to reuse the host of a redundant overdrive later. When
  that overdrive comes back cancelled or failed, as redundant ones do, nothing looks at the buffer, and the
  upload can fail beside a free host (`Upload.BufferedRequestLeftBehind`). A launch that a stopped uploader
  refuses has the same effect (`Upload.StrandsExactly` has every case).
- `launch` reports success when the uploader's queue refuses the request (uploader.go:298-302,
  uploadmanager.go:857-861). The request is then neither running nor buffered, and the uploader stays the first
  free candidate and is offered every later one: a single stopped uploader defeats an upload with every host
  free (`Upload.RefusingQueueSwallows`). An original request that ends in a cancellation is not launched again
  either (uploadmanager.go:743-744). These are exactly the steps that forget a sector (`Upload.AliveExactly`);
  without them and without a request left behind an upload fails only when every candidate is used up
  (`Upload.GaveUpExactly`, `Upload.UploadFailsOnlyWhenUsedUp`).
- A redundant answer frees the first candidate that carries the request, which may be an earlier host that
  failed it rather than the one that answered (`Upload.FailedHostIsFreed`, exactly `Upload.ReleasedExactly`).
- Uploaders are kept by contract and picked by host, and the upload itself never looks at hosts. A host with a
  fresh contract beside one that has not ended, one whose contract was renewed twice between two refreshes, or one
  that an ordinary upload offers by two contracts has two uploaders (`Uploaders.NewContractAddsSecond`,
  `Uploaders.RenewedTwiceAddsSecond`, `Uploaders.OfferedTwiceAddsSecond`), both are candidates, and a migration can
  succeed with two shards of a slab on that host (`Migration.TwoShardsOnOneHost`). An upload of two or more
  sectors to enough candidates is sure to keep them apart exactly when no allowed host has two uploaders (`UploadHosts.AlwaysApartExactly`,
  `Uploaders.CandidatesApart`, `Migration.MigrationUploadsApart`), which a refresh leaves so exactly under
  `Uploaders.RefreshApartExactly`.
- A slab download replaces failures, but not a success for a sector that already has its data, so it can fail
  although a host of a missing shard was never asked (`Download.GivesUpTooEarly`, exactly
  `Download.EnoughExactly`). It can also fail without such a success, because the loop does not wait for an
  overdrive that was selected and is not launched yet (`Download.GivesUpBeforeOverdrive`). There is no third way
  (`Download.FailedExactly`, `Download.DownloadFailsOnlyWhenExhausted`).
- The stream cipher discards the rest of the first block when the first call after an unaligned seek is shorter
  than that rest (`RekeyStream.BadStartShows`, exactly `RekeyStream.StreamIsIdealExactly`). The download path
  avoids it by its buffered writer (`ObjectDownload.BufferedWritesStartWell`).
- A caller waiting for a contract lock can hit the panic that says it should hold the lock
  (`ContractLock.PanicIsReachable`, exactly `ContractLock.PanicsExactly`), and a keepalive with id 0 on a free
  lock reaches a nil timer (`ContractLock.KeepAliveExactly`).
- The buffer constructor accepts a completion threshold of 1<<22, with which every new buffer for one data
  shard is complete from the start and AddPartialSlab panics (`SlabBuffer.NewBufferPanicIsReachable`, exactly
  `SlabBuffer.NewBufferPanicsExactly`).
- commitAppend returns success although its own sync failed (`SlabBuffer.FailedSyncReturns`), and a concurrent
  successful sync that does not cover the append clears the recorded failure, so nobody learns of it
  (`SlabBuffer.FailedSyncIsForgotten`; what is durable is exactly `SlabBuffer.SyncDurableExactly`, and an append fails exactly by `SlabBuffer.FailsExactly`).
- An append that fills a buffer and then fails, by writing its rest or by an earlier failed sync, never reports the
  buffer. It stays listed as incomplete, refuses every append, and is not handed out for upload before the buffers
  are opened again (`SlabBuffer.FilledIsStranded`, `SlabBuffer.StrandedForever`). A buffer is complete exactly when a
  sync was made whose size completes it (`SlabBuffer.CompleteExactly`), so what an append that returns has filled
  always is (`SlabBuffer.FilledIsComplete`).
- Recover writes nothing and reports no error when no region is there at all (`DataPath.RecoverExactly`).
- The gouging search comes within five percent of the least price exactly when no price up to the last one it
  saw miss the target meets it, as when every price above a good one is good, and may miss it by far otherwise
  (`Gouging.NearlyLeastExactly`, `Gouging.NearlyLeast`, `Gouging.PatchyOvershoots`).

## Model

| member | source | states |
|---|---|---|
| Matching.Assign | sia-build-env/src/renterd-2.9.3-modified/stores/repair_policy.go:139-152 | one augmenting step: either the host is placed, keeping every host placed before, or all shards it can reach are visited and saturated; the assignment stays valid |
| Matching.PlaceAll | sia-build-env/src/renterd-2.9.3-modified/stores/repair_policy.go:134-155 | for any order, the result is a valid matching and uses each prefix of the order as much as any matching could |
| Matching.PlaceNext | sia-build-env/src/renterd-2.9.3-modified/stores/repair_policy.go:153-155 | one host of the loop, placed or left out with a certificate (a saturated set of shards) that no matching places more of the prefix |
| Matching.AsMatching | sia-build-env/src/renterd-2.9.3-modified/stores/repair_policy.go:158-164 | the served shards read as a map from hosts to distinct shards they hold |
| Matching.Cover | sia-build-env/src/renterd-2.9.3-modified/stores/repair_policy.go:138-155 | the certificate: no matching uses more hosts of a prefix whose left-out hosts lie within a saturated set |
| Matching.PrefixTotals | sia-build-env/src/renterd-2.9.3-modified/stores/repair_policy.go:127-155 | the Abel summation behind the greedy choice: a host set counted at least as often on every prefix of the score order leads in total score by at most its lead in number times the last score |
| Matching.GreedyIsCheapest | sia-build-env/src/renterd-2.9.3-modified/stores/repair_policy.go:102-166 | the greedy matching in score order is of maximum size and, among all matchings of that size, of least total score |
| Placement.IndependentPlacement | sia-build-env/src/renterd-2.9.3-modified/stores/repair_policy.go:102-166 | answers false exactly on malformed placements; otherwise distinct hosts of a maximum matching with least total of probability and scenario mass, ties settled by key |
| Placement.ByScoreIsWeak | sia-build-env/src/renterd-2.9.3-modified/stores/repair_policy.go:127-133 | the sort order of hosts, score and then key, is a strict weak order |
| Placement.OrderIsSorted | sia-build-env/src/renterd-2.9.3-modified/stores/repair_policy.go:127-133 | the sorted order visits hosts by rising score |
| Placement.PlacementIsSettled | sia-build-env/src/renterd-2.9.3-modified/stores/repair_policy.go:127-164 | hosts with distinct keys leave one placement: no two choices that follow score and key differ in a host |
| Placement.ExposureIsLoss | sia-build-env/src/renterd-2.9.3-modified/stores/repair_policy.go:118-125 | the exposure added to the score of a host is what a slab of that host alone would lose to the scenarios |
| Placement.MatchingsArePlacements | sia-build-env/src/renterd-2.9.3-modified/stores/repair_policy.go:110-117 | the matchings of the graph are exactly the ways to put hosts on distinct shards that they hold, in the numbers of the source |
| Placement.ScoreHosts | sia-build-env/src/renterd-2.9.3-modified/stores/repair_policy.go:108-126 | the scores: each probability plus the exposure |
| Placement.AdjacencyWellFormed | sia-build-env/src/renterd-2.9.3-modified/stores/repair_policy.go:108-117 | a supported placement names existing shards only |
| Placement.Collect | sia-build-env/src/renterd-2.9.3-modified/stores/repair_policy.go:156-164 | lists each host that serves a shard once |
| Placement.PlacementSize | sia-build-env/src/renterd-2.9.3-modified/stores/repair_policy.go:236-242 | whatever the probabilities and scenarios, a placement has the size of a maximum matching |
| Placement.ScoresKeepSize | sia-build-env/src/renterd-2.9.3-modified/stores/repair_policy.go:236-306 | two placements of the same hosts under different probabilities and scenarios have the same size |
| Placement.SomeHostsPlaceFewer | sia-build-env/src/renterd-2.9.3-modified/stores/repair_policy.go:249-264 | a subset of the hosts never places more shards than all of them |
| SlabRisk.OutcomesExact | sia-build-env/src/renterd-2.9.3-modified/stores/slab_risk.go:22-48 | the reference sum ranges over every survival outcome exactly once |
| SlabRisk.LossStep | sia-build-env/src/renterd-2.9.3-modified/stores/slab_risk.go:36-41 | one more host mixes the loss with and without its survival |
| SlabRisk.LossBounds | sia-build-env/src/renterd-2.9.3-modified/stores/slab_risk.go:22-48 | the loss is a probability, 0 for no demand, 1 when more shards are needed than hosts exist, and grows with the demand |
| SlabRisk.LossWithOneMore | sia-build-env/src/renterd-2.9.3-modified/stores/slab_risk.go:22-48 | one more host never raises the loss |
| SlabRisk.LossMonotone | sia-build-env/src/renterd-2.9.3-modified/stores/slab_risk.go:22-48 | the loss grows with every host failure probability |
| SlabRisk.LossPermuted | sia-build-env/src/renterd-2.9.3-modified/stores/slab_risk.go:22-48 | the loss is invariant under every permutation of the hosts |
| SlabRisk.RowSumsToOne | sia-build-env/src/renterd-2.9.3-modified/stores/slab_risk.go:30-42 | the dp row is a distribution: it sums to 1 at every step |
| SlabRisk.AddToRow | sia-build-env/src/renterd-2.9.3-modified/stores/slab_risk.go:36-41 | the in-place inner loop, from the high index down, turns the exact-failure row of some hosts into that of one more |
| SlabRisk.RowAnswer | sia-build-env/src/renterd-2.9.3-modified/stores/slab_risk.go:43-47 | the final sum is the loss and the clamp changes nothing |
| SlabRisk.TooFewHosts | sia-build-env/src/renterd-2.9.3-modified/stores/slab_risk.go:25-26 | the early answer 1 for too few hosts agrees with the exact definition |
| SlabRisk.IndependentSlabLossProbability | sia-build-env/src/renterd-2.9.3-modified/stores/slab_risk.go:22-48 | the dynamic program computes the exact probability that fewer than minShards hosts survive, and refuses exactly the invalid arguments |
| CorrelatedRisk.CorrelatedSlabLoss | sia-build-env/src/renterd-2.9.3-modified/stores/repair_policy.go:76-97 | the loop over scenarios computes the probability that fewer than k hosts are left, summed over every joint event of one scenario or none and the hosts that survive on their own; without its clamp when the scenarios are valid; refused exactly for invalid evidence |
| JointRisk.EventsExact | sia-build-env/src/renterd-2.9.3-modified/stores/repair_policy.go:76-97 | the sum ranges over every joint event exactly once |
| JointRisk.JointLossIsMixture | sia-build-env/src/renterd-2.9.3-modified/stores/repair_policy.go:76-97 | the sum over joint events is the loss without a scenario and the losses of what each scenario spares, mixed by their chances |
| JointRisk.SparedLossIsLoss | sia-build-env/src/renterd-2.9.3-modified/stores/repair_policy.go:83-91 | the hosts a scenario takes away never count as survivors: the events of that scenario weigh as much as the outcomes of the hosts it spares |
| CorrelatedRisk.MixtureIsJoint | sia-build-env/src/renterd-2.9.3-modified/stores/repair_policy.go:76-97 | what the loop adds up is the sum over joint events |
| CorrelatedRisk.DomainLosesAll | sia-build-env/src/renterd-2.9.3-modified/stores/repair_policy.go:82-96 | a slab whose hosts all lie in one scenario is lost at least with its probability |
| CorrelatedRisk.CollectRemaining | sia-build-env/src/renterd-2.9.3-modified/stores/repair_policy.go:83-91 | the probabilities of the hosts a scenario leaves, in order |
| CorrelatedRisk.MixtureBounds | sia-build-env/src/renterd-2.9.3-modified/stores/repair_policy.go:76-97 | with scenario mass at most 1 the mixture lies in [0,1] without its clamp and is never below the independent loss |
| CorrelatedRisk.MixtureMonotone | sia-build-env/src/renterd-2.9.3-modified/stores/repair_policy.go:76-97 | the mixture grows with every host failure probability |
| HealthCutoff.CutoffSeparates | sia-build-env/src/renterd-2.9.3-modified/stores/slab_risk.go:7-18 | the structural health of v hosts is at most the cutoff below u exactly when v is less than u |
| HealthCutoff.HealthScale | sia-build-env/src/renterd-2.9.3-modified/stores/slab_risk.go:7-18 | health is 0 with just enough hosts and 1 with all of them, in even steps, negative exactly below; the cutoff below u is the health of one host fewer |
| HealthCutoff.RiskBudgetHealthCutoff | sia-build-env/src/renterd-2.9.3-modified/stores/slab_risk.go:53-69 | health at or below the cutoff holds exactly for the counts up to which every prefix is valid and misses the budget, which on valid evidence are the prefixes whose loss exceeds it; invalid evidence is reported exactly when reached before the budget is met |
| HealthCutoff.PrefixLoss | sia-build-env/src/renterd-2.9.3-modified/stores/slab_risk.go:60-67 | longer prefixes never lose more |
| HealthCutoff.BudgetInverted | sia-build-env/src/renterd-2.9.3-modified/stores/slab_risk.go:60-68 | the first prefix that meets the budget separates all prefixes |
| HealthCutoff.WorstOf | sia-build-env/src/renterd-2.9.3-modified/stores/repair_policy.go:173-176 | the worst probability, at least 0 |
| HealthCutoff.HomogeneousTails | sia-build-env/src/renterd-2.9.3-modified/stores/repair_policy.go:179-198 | the single pass over the row gives, for every u, the loss of the worst host repeated u times |
| HealthCutoff.MixTails | sia-build-env/src/renterd-2.9.3-modified/stores/repair_policy.go:211-219 | the loop computes the conservative risk: the sum over joint events of u hosts as bad as the worst, each scenario taking as many as it takes from the slab |
| HealthCutoff.TailMixtureIs | sia-build-env/src/renterd-2.9.3-modified/stores/repair_policy.go:199-219 | the mixture of tails is that sum over joint events |
| HealthCutoff.CountAffected | sia-build-env/src/renterd-2.9.3-modified/stores/repair_policy.go:199-210 | how many of the slab hosts a scenario takes away |
| HealthCutoff.ConservativeRiskShrinks | sia-build-env/src/renterd-2.9.3-modified/stores/repair_policy.go:211-226 | the conservative risk never grows with the host count |
| HealthCutoff.ConservativeRiskBounds | sia-build-env/src/renterd-2.9.3-modified/stores/repair_policy.go:168-219 | at the host count of the slab the conservative risk never understates the joint loss of the actual hosts |
| HealthCutoff.CutoffInverts | sia-build-env/src/renterd-2.9.3-modified/stores/repair_policy.go:211-226 | a count has health at most the cutoff exactly when its conservative risk exceeds the entry threshold |
| HealthCutoff.ExplanatoryCutoff | sia-build-env/src/renterd-2.9.3-modified/stores/repair_policy.go:172-227 | cutoff and under-provisioned flag are the exact inversion of the conservative risk over all counts |
| HostRisk.CappedSumExactly | sia-build-env/src/renterd-2.9.3-modified/stores/repair_policy.go:63-72 | the sum when no part is negative and it does not exceed the cap, and the cap in every other case |
| HostRisk.BaseScoreNonNegative | sia-build-env/src/renterd-2.9.3-modified/stores/repair_policy.go:34-61 | the part of the hazard that does not depend on the horizon is never negative |
| HostRisk.HazardGrows | sia-build-env/src/renterd-2.9.3-modified/stores/repair_policy.go:34-61 | the hazard never falls when the horizon grows, although its age term does |
| HostRisk.HorizonMonotone | sia-build-env/src/renterd-2.9.3-modified/stores/repair_policy.go:34-61 | a longer horizon keeps evidence valid and never lowers the estimate, which stays in [0,1) |
| HostRisk.HostFailureProbability | sia-build-env/src/renterd-2.9.3-modified/stores/repair_policy.go:34-39 | no estimate exactly without a scan, with one in the future, without interactions, on negative evidence or with an empty horizon or block interval |
| HostRisk.EstimateExactly | sia-build-env/src/renterd-2.9.3-modified/stores/repair_policy.go:40-61 | the weight of each piece of evidence, for any host: 0.60 and 0.40 of the failed and offline shares, 0.05 a failure in a row up to 0.50, 0.35 for a contract within the horizon, 0.10 a horizon of age up to 0.25, added up and scaled by the horizon in hours |
| HostRisk.FlawlessHost | sia-build-env/src/renterd-2.9.3-modified/stores/repair_policy.go:40-61 | a host with nothing against it has hazard 0 |
| HostRisk.OnlyFailures | sia-build-env/src/renterd-2.9.3-modified/stores/repair_policy.go:40 | with failed interactions alone the score is 0.60 of their share |
| HostRisk.OnlyOutages | sia-build-env/src/renterd-2.9.3-modified/stores/repair_policy.go:41-48 | with downtime alone it is 0.40 of its share |
| HostRisk.OnlyFailuresInARow | sia-build-env/src/renterd-2.9.3-modified/stores/repair_policy.go:48 | with consecutive failures alone it is 0.05 for each, and 0.50 from ten on |
| HostRisk.OnlyContractEnds | sia-build-env/src/renterd-2.9.3-modified/stores/repair_policy.go:49-51 | with a contract that ends within the horizon alone it is 0.35 |
| HostRisk.OnlyOldEvidence | sia-build-env/src/renterd-2.9.3-modified/stores/repair_policy.go:52-57 | with an old scan alone it is 0.10 for each horizon of age, up to 0.25 |
| HostRisk.WorstHost | sia-build-env/src/renterd-2.9.3-modified/stores/repair_policy.go:40-61 | a host with everything against it scores 2.10 |
| HostRisk.EvidenceMonotone | sia-build-env/src/renterd-2.9.3-modified/stores/repair_policy.go:34-61 | worse evidence of any kind, or of several, never lowers the estimate |
| SlabEvaluation.EvaluateSlabRisk | sia-build-env/src/renterd-2.9.3-modified/stores/repair_policy.go:229-355 | valid exactly when the candidate is placeable, its recent hosts place as many shards as all hosts do and at least minShards, queue and repair time are within bounds and the protection horizon, the oldest evidence plus floor(depth * t / slots) plus t plus the margin, stays below the longest one, t being the measured repair time if positive and else the default; each reason under exactly its condition; usable hosts and emergency by the maximum matching, valid or not; a valid risk is backed by the best placement and its exact joint loss, cutoff, under-provisioned flag and avoided hosts |
| SlabEvaluation.EvaluateFresh | sia-build-env/src/renterd-2.9.3-modified/stores/repair_policy.go:265-354 | the part after the evidence is known to be recent: valid exactly within the queue, repair and horizon bounds, otherwise the reason of the bound that fails |
| SlabEvaluation.QueueExactly | sia-build-env/src/renterd-2.9.3-modified/stores/repair_policy.go:276-285 | the repair time is the measured one exactly when that is positive; the delay is the whole quotient of the queued work by the slots; both are in bounds exactly when they are by products, without division |
| SlabEvaluation.HorizonExactly | sia-build-env/src/renterd-2.9.3-modified/stores/repair_policy.go:283-289 | capping the horizon tells apart exactly the sums below the longest horizon, and is the sum there |
| SlabEvaluation.KeepFresh | sia-build-env/src/renterd-2.9.3-modified/stores/repair_policy.go:249-256 | keeps exactly the recent hosts, in order |
| SlabEvaluation.EvidenceAges | sia-build-env/src/renterd-2.9.3-modified/stores/repair_policy.go:265-275 | the age of the oldest evidence, and the least of one lifetime from now and every expiry, attained |
| SlabEvaluation.AvoidHosts | sia-build-env/src/renterd-2.9.3-modified/stores/repair_policy.go:319-353 | the hosts of every possible scenario that touches the slab and the worst host itself |
| SlabEvaluation.LossGrowsWithHorizon | sia-build-env/src/renterd-2.9.3-modified/stores/repair_policy.go:34-97 | for a fixed placement the correlated loss never falls when the protection horizon grows |
| RepairQueue.PriorityAsymmetric | sia-build-env/src/renterd-2.9.3-modified/stores/repair_policy.go:357-372 | the repair priority is asymmetric |
| RepairQueue.PriorityTransitive | sia-build-env/src/renterd-2.9.3-modified/stores/repair_policy.go:357-372 | the repair priority is transitive |
| RepairQueue.PriorityTotal | sia-build-env/src/renterd-2.9.3-modified/stores/repair_policy.go:357-372 | on distinct keys exactly one of two slabs comes first |
| RepairQueue.PageStep | sia-build-env/src/renterd-2.9.3-modified/stores/repair_policy.go:430-455 | one page: sorting and truncating what was selected with what the page admits gives the first of everything so far |
| RepairQueue.RepairStore.SlabsForMigrationWithRisk | sia-build-env/src/renterd-2.9.3-modified/stores/repair_policy.go:376-487 | returns the first `limit` of everything admitted, for every division into pages, refreshed and sorted; afterwards exactly the slabs returned as valid are kept by the exit threshold under this policy; limit 0 changes nothing |
| RepairQueue.AdmitPage | sia-build-env/src/renterd-2.9.3-modified/stores/repair_policy.go:431-447 | the admission of one page by emergency, exit and entry thresholds or health |
| RepairQueue.DropExpired | sia-build-env/src/renterd-2.9.3-modified/stores/repair_policy.go:457-471 | risks that ran out are marked invalid and leave unless an emergency or low health keeps them |
| RepairQueue.EmergenciesFirst | sia-build-env/src/renterd-2.9.3-modified/stores/repair_policy.go:448-452 | no emergency is left out while anything else is selected |
| RepairQueue.SelectedExactly | sia-build-env/src/renterd-2.9.3-modified/stores/repair_policy.go:424-452 | what is selected deserves its place, by emergency, entry or exit threshold or health, and is no more than the limit; a slab that deserves one is left out only at the limit, and then has no claim before anything selected: not by emergency, validity, larger loss, worse health or key, in this order |
| RepairQueue.ReturnedExactly | sia-build-env/src/renterd-2.9.3-modified/stores/repair_policy.go:457-472 | the result is what was selected, expired risks invalid and gone without another reason, in the order of those claims |
| RepairQueue.ReturnedOnce | sia-build-env/src/renterd-2.9.3-modified/stores/repair_policy.go:429-472 | no slab is returned twice |
| RepairQueue.NextKeeps | sia-build-env/src/renterd-2.9.3-modified/stores/repair_policy.go:473-486 | the next call under the policy applies the exit threshold to exactly the slabs this one returns as valid |
| RepairQueue.HysteresisChain | sia-build-env/src/renterd-2.9.3-modified/stores/repair_policy.go:391-487 | every slab returned as valid has an unbroken chain of calls under one policy back to its entry, above the exit threshold throughout, emergencies aside |
| Sorting.SortedUnique | sia-build-env/src/renterd-2.9.3-modified/stores/repair_policy.go:448-452 | a sort by a strict total order has one result, so sort.Slice may be any sort |
| Sorting.TopOfPages | sia-build-env/src/renterd-2.9.3-modified/stores/repair_policy.go:448-452 | truncating a sorted part first loses nothing of the sorted whole |
| Sorting.SortSorts | sia-build-env/src/renterd-2.9.3-modified/stores/repair_policy.go:448-452 | the sort gives a sorted permutation |
| Sorting.StringLessExactly | sia-build-env/src/renterd-2.9.3-modified/stores/repair_policy.go:371 | the order on keys is that of the first difference |
| Upload.LaunchKeeps | sia-build-env/src/renterd-2.9.3-modified/internal/upload/uploadmanager.go:836-874 | launching a request that is neither running nor finished keeps the invariant |
| Upload.ReceiveKeeps | sia-build-env/src/renterd-2.9.3-modified/internal/upload/uploadmanager.go:901-942 | handling an answer keeps the invariant; unless it stored its sector, its request may be launched again |
| Upload.RelaunchKeeps | sia-build-env/src/renterd-2.9.3-modified/internal/upload/uploadmanager.go:743-751 | a failed relaunch is buffered, and the buffer stays free of duplicates and of running requests |
| Upload.CanOverdriveExactly | sia-build-env/src/renterd-2.9.3-modified/internal/upload/uploadmanager.go:816-834 | with its uint64 wrap the test means: every missing sector is in flight, with fewer than maxOverdrive extra requests |
| Upload.RetryKeeps | sia-build-env/src/renterd-2.9.3-modified/internal/upload/uploadmanager.go:752-770 | a buffered request or an overdrive is launched without breaking the invariant |
| Upload.RetryExactly | sia-build-env/src/renterd-2.9.3-modified/internal/upload/uploadmanager.go:752-770 | what a retry launches on the first free candidate: the request buffered longest, or with none an overdrive of a least overdriven missing sector, exactly when one is due, every missing sector is in flight and there is room |
| Upload.NextSector | sia-build-env/src/renterd-2.9.3-modified/internal/upload/uploadmanager.go:885-893 | the first of the missing sectors with the fewest overdrives |
| Upload.Overdrives | sia-build-env/src/renterd-2.9.3-modified/internal/upload/uploadmanager.go:877-883 | the number of candidates with an overdrive of the sector |
| Upload.StepKeeps | sia-build-env/src/renterd-2.9.3-modified/internal/upload/uploadmanager.go:730-783 | every turn of the response loop keeps the invariant |
| Upload.StartKeeps | sia-build-env/src/renterd-2.9.3-modified/internal/upload/uploadmanager.go:708-713 | the first launches establish it |
| Upload.StoringCandidateIsKept | sia-build-env/src/renterd-2.9.3-modified/internal/upload/uploadmanager.go:836-942 | in every run a candidate that stored a sector is neither released nor given another request |
| Upload.DistinctCandidates | sia-build-env/src/renterd-2.9.3-modified/internal/upload/uploadmanager.go:836-942 | two sectors are never stored on the same candidate |
| Upload.UploadIsSafe | sia-build-env/src/renterd-2.9.3-modified/internal/upload/uploadmanager.go:592-942 | over every run: pairwise distinct candidates, numUploaded is the number of stored sectors, counters count exactly, in flight plus buffered never exceeds numSectors + maxOverdrive, and memory is never released twice |
| Upload.RunExtends | sia-build-env/src/renterd-2.9.3-modified/internal/upload/uploadmanager.go:730-783 | a stored sector never changes |
| Upload.DoneExactly | sia-build-env/src/renterd-2.9.3-modified/internal/upload/uploadmanager.go:901-942 | the loop leaves through done exactly when every sector is stored |
| Upload.CountersNeverUnderflow | sia-build-env/src/renterd-2.9.3-modified/internal/upload/uploadmanager.go:901-911 | a counter that is decremented was positive |
| Upload.ReleaseNeverPanics | sia-build-env/src/renterd-2.9.3-modified/internal/upload/uploadmanager.go:935-941 | with one sector of memory acquired per shard, ReleaseSome never panics and the holding follows the upload |
| Upload.ReleasedExactly | sia-build-env/src/renterd-2.9.3-modified/internal/upload/uploadmanager.go:912-923 | the host freed by a redundant answer is the one that answered exactly when no earlier candidate still carries the request |
| Upload.AliveExactly | sia-build-env/src/renterd-2.9.3-modified/internal/upload/uploadmanager.go:730-783 | one step forgets a missing sector exactly when its original request is cancelled, or is launched into a queue that refuses it while it is the answer or the head of the buffer |
| Upload.StrandsExactly | sia-build-env/src/renterd-2.9.3-modified/internal/upload/uploadmanager.go:743-761 | one step leaves a buffered request beside a free candidate exactly when a redundant answer frees one and the launch that follows is missing, because the answer is an error that is not relaunched, or refused by the queue |
| Upload.GaveUpExactly | sia-build-env/src/renterd-2.9.3-modified/internal/upload/uploadmanager.go:730-811 | a loop that ends without every sector has all candidates in use and every missing sector waiting in the buffer exactly when none was forgotten and none left behind |
| Upload.FailsOnlyWhenUsedUp | sia-build-env/src/renterd-2.9.3-modified/internal/upload/uploadmanager.go:730-811 | a run with no step of those two kinds gives up only when every candidate is used up |
| Upload.StartedAlive | sia-build-env/src/renterd-2.9.3-modified/internal/upload/uploadmanager.go:708-713 | after the first launches no sector is forgotten exactly when every queue took its request |
| Upload.UploadFailsOnlyWhenUsedUp | sia-build-env/src/renterd-2.9.3-modified/internal/upload/uploadmanager.go:686-814 | the same for a whole upload whose queues took every first request |
| Upload.RefusingQueueSwallows | sia-build-env/src/renterd-2.9.3-modified/internal/upload/uploadmanager.go:836-861 | with one stopped uploader as the first free candidate any upload launches nothing and gives up, every candidate free |
| Upload.FailedHostIsFreed | sia-build-env/src/renterd-2.9.3-modified/internal/upload/uploadmanager.go:912-923 | a run in which a redundant answer frees an earlier host that had failed the request, not the one that answered |
| Upload.BufferedRequestLeftBehind | sia-build-env/src/renterd-2.9.3-modified/internal/upload/uploadmanager.go:743-783 | a run in which an upload fails with a free candidate and a buffered request |
| Upload.CollectedApart | sia-build-env/src/renterd-2.9.3-modified/internal/upload/uploadmanager.go:785-790 | the collected sectors are as many as were counted, on pairwise distinct candidates |
| Upload.StartGivesUp | sia-build-env/src/renterd-2.9.3-modified/internal/upload/uploadmanager.go:708-713 | a first launch without a candidate ends the upload |
| UploadEngine.SlabUpload.constructor | sia-build-env/src/renterd-2.9.3-modified/internal/upload/uploadmanager.go:592-643 | a new slab upload |
| UploadEngine.SlabUpload.Launch | sia-build-env/src/renterd-2.9.3-modified/internal/upload/uploadmanager.go:836-874 | the first free candidate takes the request; no candidate is an error; a refusing queue drops it silently |
| UploadEngine.SlabUpload.LaunchAll | sia-build-env/src/renterd-2.9.3-modified/internal/upload/uploadmanager.go:708-713 | the launch loop |
| UploadEngine.SlabUpload.Receive | sia-build-env/src/renterd-2.9.3-modified/internal/upload/uploadmanager.go:901-942 | counters, release of the first candidate with the request, or storing the sector |
| UploadEngine.SlabUpload.CanOverdrive | sia-build-env/src/renterd-2.9.3-modified/internal/upload/uploadmanager.go:816-834 | the three tests, the last in uint64 arithmetic |
| UploadEngine.SlabUpload.CountOverdrives | sia-build-env/src/renterd-2.9.3-modified/internal/upload/uploadmanager.go:877-883 | the overdrive requests per sector |
| UploadEngine.SlabUpload.NextRequest | sia-build-env/src/renterd-2.9.3-modified/internal/upload/uploadmanager.go:876-899 | a fresh overdrive request for a missing sector, none exactly if none is missing; every missing sector has at least as many overdrives, and strictly more if it comes before |
| UploadEngine.SlabUpload.Retry | sia-build-env/src/renterd-2.9.3-modified/internal/upload/uploadmanager.go:752-770 | buffered request first, overdrive otherwise |
| UploadEngine.SlabUpload.Handle | sia-build-env/src/renterd-2.9.3-modified/internal/upload/uploadmanager.go:730-783 | one turn of the loop is one transition, and keeps the invariant |
| UploadEngine.SlabUpload.Uploaded | sia-build-env/src/renterd-2.9.3-modified/internal/upload/uploadmanager.go:785-813 | all stored sectors, in order, on distinct candidates; complete exactly when none is missing |
| Memory.AcquireConserves | sia-build-env/src/renterd-2.9.3-modified/internal/memory/memory.go:84-114 | available plus outstanding stays the total |
| Memory.ReleaseConserves | sia-build-env/src/renterd-2.9.3-modified/internal/memory/memory.go:118-139 | as does giving back all or some |
| Memory.ReleaseOnce | sia-build-env/src/renterd-2.9.3-modified/internal/memory/memory.go:118-139 | releasing twice is releasing once, and a partial release leaves the same final state |
| Memory.MemoryManager.AcquireMemory | sia-build-env/src/renterd-2.9.3-modified/internal/memory/memory.go:84-114 | refusals, interruption and the new holding |
| Memory.MemoryManager.Release | sia-build-env/src/renterd-2.9.3-modified/internal/memory/memory.go:118-124 | returns the rest; the uint64 sum never wraps |
| Memory.MemoryManager.ReleaseSome | sia-build-env/src/renterd-2.9.3-modified/internal/memory/memory.go:128-139 | panics exactly when more is released than remains |
| Memory.LimitMemoryManager.constructor | sia-build-env/src/renterd-2.9.3-modified/internal/memory/memory.go:65-73 | a limit over a pool |
| Memory.LimitMemoryManager.AcquireMemory | sia-build-env/src/renterd-2.9.3-modified/internal/memory/memory.go:156-170 | both shares or none: a failed parent gives the child back what it lent |
| Memory.LimitMemoryManager.ReleaseSome | sia-build-env/src/renterd-2.9.3-modified/internal/memory/memory.go:181-184 | both sides give back the same amount and stay equal; panics exactly when the child would |
| Memory.DoKeeps | sia-build-env/src/renterd-2.9.3-modified/internal/memory/memory.go:84-184 | with every critical section a step, an operation panics exactly when a holder gives back more than it holds; otherwise both pools stay conserved and child and parent shares stay matched |
| Memory.HistoryKeeps | sia-build-env/src/renterd-2.9.3-modified/internal/memory/memory.go:84-184 | the same over every run of a shared pool and a limit on it |
| Memory.SettleIsPossible | sia-build-env/src/renterd-2.9.3-modified/internal/memory/memory.go:176-184 | the parent half of a release can always be completed |
| Memory.LimitIsRespected | sia-build-env/src/renterd-2.9.3-modified/internal/memory/memory.go:142-184 | between operations the acquisitions of a limit hold no more of the pool than the limit |
| RekeyStream.SeekPosition | sia-build-env/src/renterd-2.9.3-modified/object/encryptionkey.go:297-320 | the state encrypt and decrypt start from stands at the offset |
| RekeyStream.AlignedIsIdeal | sia-build-env/src/renterd-2.9.3-modified/object/encryptionkey.go:265-288 | a call at a matching cursor, across a nonce boundary or not, is the one infinite keystream xor the data |
| RekeyStream.CallIsIdeal | sia-build-env/src/renterd-2.9.3-modified/object/encryptionkey.go:240-289 | any call writes the right bytes, and leaves a matching cursor exactly when it covered the rest of its first block |
| RekeyStream.StreamIsIdealExactly | sia-build-env/src/renterd-2.9.3-modified/object/encryptionkey.go:240-334 | for every offset and every split into calls, the stream is the ideal one for all keystreams if and only if the first call with data covers its block or is the last |
| RekeyStream.BadStartShows | sia-build-env/src/renterd-2.9.3-modified/object/encryptionkey.go:245-264 | otherwise some keystream tells the difference |
| RekeyStream.SplitIndependent | sia-build-env/src/renterd-2.9.3-modified/object/encryptionkey.go:240-289 | two splits of the same data give the same bytes |
| RekeyStream.DecryptUndoesEncrypt | sia-build-env/src/renterd-2.9.3-modified/object/encryptionkey.go:305-334 | decrypting undoes encrypting, however either side was split |
| RekeyStream.SeekDecryptsSuffix | sia-build-env/src/renterd-2.9.3-modified/object/encryptionkey.go:322-334 | a suffix can be decrypted from its offset alone |
| RekeyStream.KeystreamIsNotReused | sia-build-env/src/renterd-2.9.3-modified/object/encryptionkey.go:240-291 | every position of the stream has a keystream byte of its own, within the blocks the counter can number |
| RekeyStream.RekeyingStream.constructor | sia-build-env/src/renterd-2.9.3-modified/object/encryptionkey.go:305-320 | nonce, block counter and skip of an offset |
| RekeyStream.RekeyingStream.SkipIntoBlock | sia-build-env/src/renterd-2.9.3-modified/object/encryptionkey.go:245-262 | draws a whole block of keystream and uses part of it |
| RekeyStream.RekeyingStream.Rekey | sia-build-env/src/renterd-2.9.3-modified/object/encryptionkey.go:275-288 | the last bytes under one nonce and the first under the next |
| RekeyStream.RekeyingStream.Continue | sia-build-env/src/renterd-2.9.3-modified/object/encryptionkey.go:263-288 | everything after the first block |
| RekeyStream.RekeyingStream.XORKeyStream | sia-build-env/src/renterd-2.9.3-modified/object/encryptionkey.go:240-289 | the method is the transition: new state and bytes |
| Striping.PlaceOfIndex | sia-build-env/src/renterd-2.9.3-modified/object/slab.go:208-215 | the place of a byte and the byte of a place are inverse |
| Striping.IndexOfPlace | sia-build-env/src/renterd-2.9.3-modified/object/slab.go:208-215 | the other direction |
| Striping.ShiftRows | sia-build-env/src/renterd-2.9.3-modified/object/slab.go:163-183 | whole rows before a byte move it by whole leaves of its shard |
| Striping.RowBound | sia-build-env/src/renterd-2.9.3-modified/object/slab.go:141-151 | a byte lies in the first rows exactly when its position does |
| Striping.StripedSplit | sia-build-env/src/renterd-2.9.3-modified/object/slab.go:208-215 | every place holds its byte of the data, and what it held before past the end of the data |
| Striping.CopyLeaf | sia-build-env/src/renterd-2.9.3-modified/object/slab.go:211-213 | one leaf, possibly short |
| Striping.StripedJoin | sia-build-env/src/renterd-2.9.3-modified/object/slab.go:220-245 | fails with short data exactly when more is wanted than the shards hold, and writes exactly the striped bytes after the skip |
| DataPath.RegionDoesNotWrap | sia-build-env/src/renterd-2.9.3-modified/object/slab.go:141-151 | for a slice of a slab no uint32 operation wraps |
| DataPath.RegionExactly | sia-build-env/src/renterd-2.9.3-modified/object/slab.go:141-151 | the region lies in the sector and is exactly the rows from the first byte to the last |
| DataPath.PlainByteIsSplit | sia-build-env/src/renterd-2.9.3-modified/object/slab.go:92-104 | the first shards of an encoded slab are the striped data over zeroes |
| DataPath.DecryptedByte | sia-build-env/src/renterd-2.9.3-modified/object/slab.go:153-167 | decrypting a region undoes the encryption of the sector at the same places |
| DataPath.OwnKeystreamByte | sia-build-env/src/renterd-2.9.3-modified/object/slab.go:76-90 | every byte of every sector is masked by a keystream byte of its own |
| DataPath.RebuiltColumn | sia-build-env/src/renterd-2.9.3-modified/object/slab.go:170-184 | any k decrypted regions give every column of the slab back |
| DataPath.SliceRoundTrip | sia-build-env/src/renterd-2.9.3-modified/object/slab.go:76-184 | encode, encrypt, fetch only the region of any k sectors, decrypt, recover: exactly the bytes of the slice |
| DataPath.RecoverExactly | sia-build-env/src/renterd-2.9.3-modified/object/slab.go:170-184 | every outcome: the bytes with k regions, the error exactly with some regions but fewer than k, nothing and no error with none, and never short data |
| DataPath.MigratedSectorIsOriginal | sia-build-env/src/renterd-2.9.3-modified/object/slab.go:76-127 | reconstruct and encrypt gives every sector back byte for byte, the lost ones included |
| ObjectDownload.DropSlices | sia-build-env/src/renterd-2.9.3-modified/internal/download/downloadmanager.go:836-870 | the first slice of the range and the offset in it |
| ObjectDownload.KeepSlices | sia-build-env/src/renterd-2.9.3-modified/internal/download/downloadmanager.go:836-870 | the last slice of the range and its length |
| ObjectDownload.SlabsForDownload | sia-build-env/src/renterd-2.9.3-modified/internal/download/downloadmanager.go:836-870 | the slices kept are parts of consecutive slices of the object and together are exactly bytes [offset, offset+length) |
| ObjectDownload.CollectResponses | sia-build-env/src/renterd-2.9.3-modified/internal/download/downloadmanager.go:274-352 | whatever order the slabs answer in, they are written in order; complete exactly when every slab has answered before any failed, and otherwise a front part is written |
| ObjectDownload.RecoverSlab | sia-build-env/src/renterd-2.9.3-modified/internal/download/downloadmanager.go:307-334 | one slab, packed or recovered, writes the bytes of its slice |
| ObjectDownload.DownloadRange | sia-build-env/src/renterd-2.9.3-modified/internal/download/downloadmanager.go:139-354 | a range download from any hosts, in any order of answers, is exactly that range when complete and a front part of it otherwise |
| ObjectDownload.BufferedWritesStartWell | sia-build-env/src/renterd-2.9.3-modified/internal/download/downloadmanager.go:188-195 | whatever is written into the buffered writer, it hands on all of it and no piece but the last is shorter than a cipher block, so the first call after a seek is never cut short |
| ObjectDownload.WriteKeeps | sia-build-env/src/renterd-2.9.3-modified/internal/download/downloadmanager.go:188-195 | a write is kept or handed on in full, and what is handed on before the flush covers a block |
| ObjectDownload.RangeDecrypts | sia-build-env/src/renterd-2.9.3-modified/internal/download/downloadmanager.go:178-195 | end to end: the range, written in whatever pieces and decrypted from its own offset as the buffered writer hands them on, is the range of the plain data |
| SlabBuffer.RecordKeeps | sia-build-env/src/renterd-2.9.3-modified/stores/slabbuffer.go:375-408 | an append takes the front of the data, never touches what was written, and is refused exactly by a buffer that is full or by data that must fit and does not |
| SlabBuffer.StepKeeps | sia-build-env/src/renterd-2.9.3-modified/stores/slabbuffer.go:151-448 | every critical section of any appender, upload or removal keeps the invariant |
| SlabBuffer.AppendKeeps | sia-build-env/src/renterd-2.9.3-modified/stores/slabbuffer.go:375-408 | the append section |
| SlabBuffer.CreateKeeps | sia-build-env/src/renterd-2.9.3-modified/stores/slabbuffer.go:189-208 | the section that creates a buffer for the rest |
| SlabBuffer.PublishKeeps | sia-build-env/src/renterd-2.9.3-modified/stores/slabbuffer.go:210-214 | the section that lists it |
| SlabBuffer.MarkKeeps | sia-build-env/src/renterd-2.9.3-modified/stores/slabbuffer.go:430-448 | the move to the complete list |
| SlabBuffer.PurgeMembers | sia-build-env/src/renterd-2.9.3-modified/stores/slabbuffer.go:331-359 | the swap removal removes exactly the named buffers and keeps every other once |
| SlabBuffer.GrantedBytesStay | sia-build-env/src/renterd-2.9.3-modified/stores/slabbuffer.go:243-257 | in every interleaving a fetch that finds its buffer reads the granted bytes, unless the buffer is removed between the lookup and the read, which is an error |
| SlabBuffer.GrantsAreApart | sia-build-env/src/renterd-2.9.3-modified/stores/slabbuffer.go:375-408 | two granted ranges never overlap |
| SlabBuffer.CompleteIsFinal | sia-build-env/src/renterd-2.9.3-modified/stores/slabbuffer.go:292-329 | a complete buffer never changes again: what a later read hands out is what it held when it was listed, with every range granted in it, or an error once it was removed |
| SlabBuffer.StepReports | sia-build-env/src/renterd-2.9.3-modified/stores/slabbuffer.go:217-228 | every step keeps that appenders work on listed buffers, and that each buffer an append filled and reported is complete or removed |
| SlabBuffer.FilledIsComplete | sia-build-env/src/renterd-2.9.3-modified/stores/slabbuffer.go:217-228 | in every interleaving, once an append has returned, any buffer one of its grants filled is not listed as incomplete and is complete or removed |
| SlabBuffer.CompleteIsFull | sia-build-env/src/renterd-2.9.3-modified/stores/slabbuffer.go:410-448 | and nothing is complete that is not full |
| SlabBuffer.HandedOutIsFinal | sia-build-env/src/renterd-2.9.3-modified/stores/slabbuffer.go:292-329 | what is handed out for upload is full and stays as it is |
| SlabBuffer.CreatesOnlyAfterAll | sia-build-env/src/renterd-2.9.3-modified/stores/slabbuffer.go:166-208 | an append creates a buffer only after offering its data to every buffer that was incomplete when it began |
| SlabBuffer.OfferExactly | sia-build-env/src/renterd-2.9.3-modified/stores/slabbuffer.go:375-408 | an offer ends with a range taken, a full buffer, a rest that does not fit after a part was placed, or a failed write |
| SlabBuffer.AppendReturnsItsInput | sia-build-env/src/renterd-2.9.3-modified/stores/slabbuffer.go:151-229 | an append that returns has at most two slices whose bytes are its input |
| SlabBuffer.ListedOnce | sia-build-env/src/renterd-2.9.3-modified/stores/slabbuffer.go:430-448 | a buffer is in at most one list, once, and is found by its key exactly then |
| SlabBuffer.NewBufferPanicsExactly | sia-build-env/src/renterd-2.9.3-modified/stores/slabbuffer.go:189-206 | AddPartialSlab panics exactly when the completion threshold is not below the slab size |
| SlabBuffer.NewBufferPanicIsReachable | sia-build-env/src/renterd-2.9.3-modified/stores/slabbuffer.go:55-60 | the largest threshold the constructor accepts and one data shard reach that panic in the first append |
| SlabBuffer.NeverPanics | sia-build-env/src/renterd-2.9.3-modified/stores/slabbuffer.go:151-229 | below it no appender ever panics |
| SlabBuffer.HandOutsAreApart | sia-build-env/src/renterd-2.9.3-modified/stores/slabbuffer.go:361-369 | two hand-outs of one buffer are at least the locking duration apart |
| SlabBuffer.FailedSyncReturns | sia-build-env/src/renterd-2.9.3-modified/stores/slabbuffer.go:410-428 | an append whose own sync failed returns all the same |
| SlabBuffer.FailsExactly | sia-build-env/src/renterd-2.9.3-modified/stores/slabbuffer.go:410-428 | an append fails when it is about to sync a buffer exactly if the latest sync of that buffer failed |
| SlabBuffer.SyncDurableExactly | sia-build-env/src/renterd-2.9.3-modified/stores/slabbuffer.go:410-428 | a sync makes durable exactly the ranges it covers, the append its own among them, and only if it succeeds |
| SlabBuffer.SyncCoversEarlier | sia-build-env/src/renterd-2.9.3-modified/stores/slabbuffer.go:410-428 | a sync covers everything granted in its buffer before the size was read, whoever wrote it and whatever happens in between |
| SlabBuffer.ReturnedIsSynced | sia-build-env/src/renterd-2.9.3-modified/stores/slabbuffer.go:217-228 | in every interleaving an append returns only after a sync covering each of its ranges was made, and with no failed sync they are durable |
| SlabBuffer.FailedSyncIsForgotten | sia-build-env/src/renterd-2.9.3-modified/stores/slabbuffer.go:410-428 | a run in which an append returns, nothing it wrote is durable, and a concurrent success has cleared the recorded failure |
| SlabBuffer.StrandedForever | sia-build-env/src/renterd-2.9.3-modified/stores/slabbuffer.go:189-228 | a full buffer that is still listed as incomplete and in which no append under way has a part is never listed as complete or handed out, whatever later appends do |
| SlabBuffer.FilledIsStranded | sia-build-env/src/renterd-2.9.3-modified/stores/slabbuffer.go:171-206 | a run that leaves one: an append fills a buffer, and the write of its rest fails |
| SlabBuffer.CompleteExactly | sia-build-env/src/renterd-2.9.3-modified/stores/slabbuffer.go:410-448 | over every interleaving, while no append is about to report it, a buffer is complete or removed exactly when it was complete at the start or a sync of it was made whose size completes it |
| SlabBuffer.OpenedOk | sia-build-env/src/renterd-2.9.3-modified/stores/slabbuffer.go:100-128 | the lists the constructor builds from stored buffers meet the invariant |
| SlabBufferStore.BufferFile.AcquireForUpload | sia-build-env/src/renterd-2.9.3-modified/stores/slabbuffer.go:361-369 | locks the buffer exactly when the lock has run out |
| SlabBufferStore.BufferFile.RecordAppend | sia-build-env/src/renterd-2.9.3-modified/stores/slabbuffer.go:375-408 | the method is the transition |
| SlabBufferStore.SlabBufferManager.MarkBufferComplete | sia-build-env/src/renterd-2.9.3-modified/stores/slabbuffer.go:430-448 | moves the buffer once, whoever reports it |
| SlabBufferStore.SlabBufferManager.RemoveBuffers | sia-build-env/src/renterd-2.9.3-modified/stores/slabbuffer.go:331-359 | the in-place swap removal, the key map and the closed files |
| ContractLock.StepKeeps | sia-build-env/src/renterd-2.9.3-modified/internal/bus/contractlocker.go:74-223 | every step of callers, timers and releases keeps the invariant |
| ContractLock.FreeLockHasNoQueue | sia-build-env/src/renterd-2.9.3-modified/internal/bus/contractlocker.go:115-223 | no wakeup is lost: when nobody holds the lock no call is queued, blocked in its select or about to block there |
| ContractLock.HandOffGoesToTop | sia-build-env/src/renterd-2.9.3-modified/internal/bus/contractlocker.go:177-223 | the lock goes to a live waiter whose priority is at least that of everyone left |
| ContractLock.PriorityKept | sia-build-env/src/renterd-2.9.3-modified/internal/bus/contractlocker.go:115-157 | every call waits with the priority it asked for |
| ContractLock.HolderLetsGo | sia-build-env/src/renterd-2.9.3-modified/internal/bus/contractlocker.go:177-223 | a release by the holder takes lock and timer away at once and offers the lock to a waiter of the highest priority |
| ContractLock.PassedOverExactly | sia-build-env/src/renterd-2.9.3-modified/internal/bus/contractlocker.go:177-223 | a waiter is passed over exactly when its context is done |
| ContractLock.ReleaseGetsOn | sia-build-env/src/renterd-2.9.3-modified/internal/bus/contractlocker.go:177-223 | a release never blocks for good on a waiter |
| ContractLock.OfferShrinks | sia-build-env/src/renterd-2.9.3-modified/internal/bus/contractlocker.go:177-223 | each offer leaves fewer waiters or ends the release |
| ContractLock.StaleIdsAreHarmless | sia-build-env/src/renterd-2.9.3-modified/internal/bus/contractlocker.go:177-223 | after an id lost the lock its releases, late timers included, and keepalives never change anything |
| ContractLock.PastForever | sia-build-env/src/renterd-2.9.3-modified/internal/bus/contractlocker.go:115-223 | an id that lost the lock or timed out never holds it again |
| ContractLock.ReturnsHolding | sia-build-env/src/renterd-2.9.3-modified/internal/bus/contractlocker.go:115-155 | a call returns its id only while it is the holder, with a live timer |
| ContractLock.PanicsExactly | sia-build-env/src/renterd-2.9.3-modified/internal/bus/contractlocker.go:141-155 | a waiting call panics exactly when its select takes the wake channel that a release closed in passing it over |
| ContractLock.PanicIsReachable | sia-build-env/src/renterd-2.9.3-modified/internal/bus/contractlocker.go:141-155 | a run that reaches the panic |
| ContractLock.KeepAliveExactly | sia-build-env/src/renterd-2.9.3-modified/internal/bus/contractlocker.go:159-174 | only the holder refreshes, before its timer fired; the id 0 of a free lock reaches a timer that is not there |
| ContractLock.Lock.Acquire | sia-build-env/src/renterd-2.9.3-modified/internal/bus/contractlocker.go:115-141 | the lock at once or a place in the queue |
| ContractLock.Lock.Pop | sia-build-env/src/renterd-2.9.3-modified/internal/bus/contractlocker.go:21-47 | a candidate of the highest priority |
| ContractLock.Lock.Release | sia-build-env/src/renterd-2.9.3-modified/internal/bus/contractlocker.go:177-223 | stale ids change nothing; otherwise the lock goes to the best live waiter, everyone before it had timed out, and nobody is lost |
| ContractLock.Lock.KeepAlive | sia-build-env/src/renterd-2.9.3-modified/internal/bus/contractlocker.go:159-174 | the four outcomes |
| Migration.CheckAvoidance | sia-build-env/src/renterd-2.9.3-modified/autopilot/migrator/worker.go:98-121 | avoidance is given up exactly when too few distinct destinations would be left |
| Migration.SelectShards | sia-build-env/src/renterd-2.9.3-modified/autopilot/migrator/worker.go:134-162 | the selection loop, for any order of the maps |
| Migration.FindKeeper | sia-build-env/src/renterd-2.9.3-modified/autopilot/migrator/worker.go:139-159 | the inner loops: the first good host that keeps no other shard |
| Migration.SelectionHolds | sia-build-env/src/renterd-2.9.3-modified/autopilot/migrator/worker.go:134-162 | kept shards are on pairwise distinct good hosts; a moved shard has no good host still free |
| Migration.MovedAndKept | sia-build-env/src/renterd-2.9.3-modified/autopilot/migrator/worker.go:134-162 | moved shards and keepers together are the shards of the slab |
| Migration.Compact | sia-build-env/src/renterd-2.9.3-modified/autopilot/migrator/worker.go:211-215 | the in-place compaction leaves exactly the selected shards, in order |
| Migration.FilterDestinations | sia-build-env/src/renterd-2.9.3-modified/autopilot/migrator/worker.go:217-227 | the offered destinations |
| Migration.AllowedHosts | sia-build-env/src/renterd-2.9.3-modified/autopilot/migrator/worker.go:217-227 | the offers are for exactly the destinations that keep no shard |
| Migration.AllowedOneEach | sia-build-env/src/renterd-2.9.3-modified/autopilot/migrator/worker.go:217-227 | one offer per host |
| Migration.EnoughDestinationsExactly | sia-build-env/src/renterd-2.9.3-modified/autopilot/migrator/worker.go:97-227 | there is an offer for every shard to move exactly when destinations and keepers together are as many hosts as shards |
| Migration.AvoidanceLeavesEnough | sia-build-env/src/renterd-2.9.3-modified/autopilot/migrator/worker.go:97-227 | whenever avoidance stays active that is so |
| Migration.MigratedHostsAreDistinct | sia-build-env/src/renterd-2.9.3-modified/autopilot/migrator/worker.go:134-230 | with the moved shards on offered hosts the slab is on pairwise distinct hosts exactly when the moved shards are, and on no avoided host |
| Migration.MigrationUploadsApart | sia-build-env/src/renterd-2.9.3-modified/internal/upload/uploadmanager.go:449-518 | with two or more shards to move, and offers and candidates enough, every upload that stores them leaves the slab on pairwise distinct hosts exactly when no offered host has two uploaders when the candidates are picked; no host is ever an avoided one |
| Migration.MigrationRefreshesApart | sia-build-env/src/renterd-2.9.3-modified/internal/upload/uploadmanager.go:520-590 | after the refresh by the migration itself that is exactly a condition on the uploaders before it |
| Migration.TwoShardsOnOneHost | sia-build-env/src/renterd-2.9.3-modified/internal/upload/uploadmanager.go:449-590 | a migration, refreshes from the start and a complete upload, that succeeds with two shards of a slab on one host |
| UploadHosts.AlwaysApartExactly | sia-build-env/src/renterd-2.9.3-modified/internal/upload/uploadmanager.go:836-942 | every complete upload keeps its sectors on pairwise distinct hosts exactly when its candidates are on distinct hosts, or there are fewer than two sectors or fewer candidates than sectors |
| UploadHosts.AnyTwoStore | sia-build-env/src/renterd-2.9.3-modified/internal/upload/uploadmanager.go:730-942 | any two candidates can both end up with a sector, in whatever order the candidates are tried |
| UploadHosts.Walk | sia-build-env/src/renterd-2.9.3-modified/internal/upload/uploadmanager.go:743-751 | a request can fail its way to any later free candidate |
| UploadHosts.Finish | sia-build-env/src/renterd-2.9.3-modified/internal/upload/uploadmanager.go:730-741 | from any state with every missing sector asked for, an upload can complete with each sector where its request runs |
| UploadHosts.CompletedApart | sia-build-env/src/renterd-2.9.3-modified/internal/upload/uploadmanager.go:730-813 | a complete upload has every sector on a candidate of its own, so it needs as many candidates as sectors |
| Uploaders.CandidatesApart | sia-build-env/src/renterd-2.9.3-modified/internal/upload/uploadmanager.go:503-518 | the candidates, in any order, are allowed hosts only, and on distinct ones exactly when no allowed host has two uploaders |
| Uploaders.RefreshApartExactly | sia-build-env/src/renterd-2.9.3-modified/internal/upload/uploadmanager.go:547-590 | with one offer per host a refresh leaves no offered host with two uploaders exactly when of each at most one uploader stays and its offer adds none |
| Uploaders.RefreshedExactly | sia-build-env/src/renterd-2.9.3-modified/internal/upload/uploadmanager.go:547-590 | after a refresh there is an uploader for each one whose contract, renewed by the last offer that renews it, has not ended, one for each such offer whose contract none of those has, and no other |
| Uploaders.OfferedOnceByContract | sia-build-env/src/renterd-2.9.3-modified/internal/upload/uploadmanager.go:547-590 | which, with every contract at one host, means: at most one uploader of an offered host stays, and it has the offered contract after the renewal lookup unless the offer has ended |
| Uploaders.NewContractAddsSecond | sia-build-env/src/renterd-2.9.3-modified/internal/upload/uploadmanager.go:556-586 | a fresh contract with a host whose old one has not ended adds a second uploader |
| Uploaders.RenewedTwiceAddsSecond | sia-build-env/src/renterd-2.9.3-modified/internal/upload/uploadmanager.go:548-562 | so does a contract renewed twice between two refreshes |
| Uploaders.OfferedTwiceAddsSecond | sia-build-env/src/renterd-2.9.3-modified/worker/upload.go:161-170 | and a host that an ordinary upload offers by two contracts |
| UploaderPool.Uploader.Refresh | sia-build-env/src/renterd-2.9.3-modified/internal/upload/uploader/uploader.go:157-167 | contract and expiry change, the host does not |
| UploaderPool.Manager.RenewalTable | sia-build-env/src/renterd-2.9.3-modified/internal/upload/uploadmanager.go:548-554 | the lookup: the last offer that renews a contract |
| UploaderPool.Manager.KeepRenewed | sia-build-env/src/renterd-2.9.3-modified/internal/upload/uploadmanager.go:556-576 | the first loop: renewed in place, expired ones stopped and dropped |
| UploaderPool.Manager.AddMissing | sia-build-env/src/renterd-2.9.3-modified/internal/upload/uploadmanager.go:578-586 | the second loop: an uploader for each offer whose contract none has |
| UploaderPool.Manager.RefreshUploaders | sia-build-env/src/renterd-2.9.3-modified/internal/upload/uploadmanager.go:547-590 | the method is the refresh; whoever leaves is stopped, whoever joins is new |
| UploaderPool.Manager.CandidatesFor | sia-build-env/src/renterd-2.9.3-modified/internal/upload/uploadmanager.go:503-518 | the uploaders of allowed hosts |
| Migration.CountMissing | sia-build-env/src/renterd-2.9.3-modified/autopilot/migrator/worker.go:172-182 | the count of moved shards that no usable host has |
| Migration.MissingExactly | sia-build-env/src/renterd-2.9.3-modified/autopilot/migrator/worker.go:172-190 | what remains is exactly the number of shards that can be downloaded |
| Migration.PlanMigration | sia-build-env/src/renterd-2.9.3-modified/autopilot/migrator/worker.go:97-227 | each outcome under exactly its condition, with the shards to move, the memory and the offers |
| Migration.KeepsExactly | sia-build-env/src/renterd-2.9.3-modified/autopilot/migrator/worker.go:97-160 | a shard stays on a host that can be downloaded from, has a contract that can be uploaded to and is not avoided, each host keeping one; a shard is moved only if every such host keeps another |
| Migration.OffersExactly | sia-build-env/src/renterd-2.9.3-modified/autopilot/migrator/worker.go:201-227 | the offers are one destination for each host that keeps no shard and is not avoided, unless avoidance was given up |
| Gouging.Optimise | sia-build-env/src/renterd-2.9.3-modified/autopilot/contractor/evaluate.go:146-183 | the loop, which ends by the remaining step sizes and then the remaining steps, is the search |
| Gouging.OptimiseFinds | sia-build-env/src/renterd-2.9.3-modified/autopilot/contractor/evaluate.go:146-183 | at most 17 prices are tried; success is a price that meets the target, reached by the smallest step from a tried price that misses it; failure is a tried price that misses it |
| Gouging.NearlyLeastExactly | sia-build-env/src/renterd-2.9.3-modified/autopilot/contractor/evaluate.go:146-183 | the answer is within five percent of every price that meets the target exactly when no price up to the last missed one meets it |
| Gouging.NearlyLeast | sia-build-env/src/renterd-2.9.3-modified/autopilot/contractor/evaluate.go:146-183 | which holds when every price above one that meets the target meets it too |
| Gouging.FailureRulesOut | sia-build-env/src/renterd-2.9.3-modified/autopilot/contractor/evaluate.go:146-183 | and then a failure rules out every price up to its last |
| Gouging.PatchyOvershoots | sia-build-env/src/renterd-2.9.3-modified/autopilot/contractor/evaluate.go:146-183 | without that a success may overshoot by far |
| Download.SelectKeeps | sia-build-env/src/renterd-2.9.3-modified/internal/download/downloadmanager.go:601-661 | a selection never asks a host again for a sector |
| Download.StepKeeps | sia-build-env/src/renterd-2.9.3-modified/internal/download/downloadmanager.go:536-813 | every section of the main loop and of the overdrive goroutine keeps the invariant |
| Download.DownloadIsSafe | sia-build-env/src/renterd-2.9.3-modified/internal/download/downloadmanager.go:601-813 | over every interleaving: each host is asked at most once per sector, the counters are exact, and finish succeeds exactly with data for minShards sectors |
| Download.DataExactly | sia-build-env/src/renterd-2.9.3-modified/internal/download/downloadmanager.go:790-813 | over every interleaving a sector has data exactly when a request for it has succeeded |
| Download.SelectionsExactly | sia-build-env/src/renterd-2.9.3-modified/internal/download/downloadmanager.go:643-649 | and counts as selected as often as it was asked for |
| Download.StepShrinks | sia-build-env/src/renterd-2.9.3-modified/internal/download/downloadmanager.go:601-813 | every step makes the measure smaller, replacements and overdrives included, but for an overdrive attempt that finds nothing, which changes nothing |
| Download.RunsEnd | sia-build-env/src/renterd-2.9.3-modified/internal/download/downloadmanager.go:536-724 | over any run the steps that do something are bounded by the measure |
| Download.DownloadEnds | sia-build-env/src/renterd-2.9.3-modified/internal/download/downloadmanager.go:536-724 | a download does something in at most four steps per host of a sector and one more, whatever fails |
| Download.EnoughExactly | sia-build-env/src/renterd-2.9.3-modified/internal/download/downloadmanager.go:687-724 | exactly one kind of step leaves too little on its way: a needed success for a sector that already has its data |
| Download.FailedExactly | sia-build-env/src/renterd-2.9.3-modified/internal/download/downloadmanager.go:687-724 | a loop that ends without enough data had enough on its way to the end exactly when nobody is left to ask, or the last request needed is an overdrive that was selected and not launched |
| Download.StaysEnough | sia-build-env/src/renterd-2.9.3-modified/internal/download/downloadmanager.go:663-724 | without a wasted success there is always enough on its way, and a download aborts only when nobody is left to ask |
| Download.DownloadFailsOnlyWhenExhausted | sia-build-env/src/renterd-2.9.3-modified/internal/download/downloadmanager.go:663-767 | a whole download without a wasted success fails only when nobody is left to ask or such an overdrive is left unlaunched, and aborts only in the first case |
| Download.GivesUpTooEarly | sia-build-env/src/renterd-2.9.3-modified/internal/download/downloadmanager.go:687-724 | a run that fails by a wasted success although a host of a missing shard was never asked |
| Download.GivesUpBeforeOverdrive | sia-build-env/src/renterd-2.9.3-modified/internal/download/downloadmanager.go:588-590 | a run without one that fails with an overdrive selected and not launched, and a host of the missing shard never asked |
| DownloadEngine.Fastest | sia-build-env/src/renterd-2.9.3-modified/internal/download/downloadmanager.go:815-828 | the host with the least estimate |
| DownloadEngine.SlabDownload.Best | sia-build-env/src/renterd-2.9.3-modified/internal/download/downloadmanager.go:605-655 | a pending reachable sector that no other comes before by selections and speed, with its fastest host, or none exactly when no pending sector is reachable |
| DownloadEngine.SlabDownload.NextRequest | sia-build-env/src/renterd-2.9.3-modified/internal/download/downloadmanager.go:601-661 | a request to a host of a least selected sector, no sector selected as often having a faster host, or every pending sector cleared |
| DownloadEngine.SlabDownload.Launch | sia-build-env/src/renterd-2.9.3-modified/internal/download/downloadmanager.go:775-788 | the counters of a launch |
| DownloadEngine.SlabDownload.Receive | sia-build-env/src/renterd-2.9.3-modified/internal/download/downloadmanager.go:790-813 | the counters of an answer, and its data unless the sector has some |
| DownloadEngine.SlabDownload.Finish | sia-build-env/src/renterd-2.9.3-modified/internal/download/downloadmanager.go:755-767 | the data of every sector in its place, or the error |

## Left out

- SlabEvaluation.AvoidHosts: the avoided hosts are a set; the sorted list the source returns is not modelled, because its order carries no meaning.
- SlabEvaluation.EvaluateSlabRisk: time differences are unbounded integers, except for the age of evidence (`HostRisk.EvidenceAge`); the saturation of other Go durations beyond 292 years is not modelled.
- RepairQueue.RepairStore.SlabsForMigrationWithRisk: the path with risk disabled, failing transactions and cancelled contexts are not modelled, and the policy itself stands for its SHA-256 fingerprint.
- RekeyStream.StreamIsIdealExactly: calls are at most one nonce's worth of data each, about 256 GiB, as one call re-keys at most once; the uint64 nonce is unbounded; the no-op key, which copies, is not modelled.
- ObjectDownload.SlabsForDownload: ranges beyond the object and objects without slabs, on which the source panics or goes wrong, are not modelled; its caller rejects the first and skips the second (worker/worker.go:712-713 and 773-776).
- ObjectDownload.CollectResponses: memory acquisition, cancellation and shutdown end the answers; a slab that cannot be read back is a failed answer.
- DataPath.SliceRoundTrip: the goroutines that mask one shard each touch nothing in common and are modelled as a function of the shard.
- Upload.UploadIsSafe: sector roots are taken to differ from the zero hash, which the source uses for "not uploaded"; shutdown and cancellation end a run.
- Upload.FailsOnlyWhenUsedUp: a queue that stops after accepting a request may never answer it; such runs end by cancellation and are not claimed to make progress.
- Memory.MemoryManager.AcquireMemory: waiting is a precondition (the memory is there, or the wait was interrupted); which waiter a signal wakes is not modelled, so nothing is said about starvation.
- Memory.LimitMemoryManager.AcquireMemory: limits of limits are not modelled, as they charge only the child.
- SlabBuffer.StepKeeps: one (minShards, totalShards) group; closing the manager and a failing database are not modelled beyond an append that fails, and buffers are loaded as they were stored (`Opened`).
- SlabBufferStore.BufferFile.RecordAppend: the file is a sequence of bytes; a failed write may leave anything behind the recorded size.
- ContractLock.StepKeeps: one contract; lock ids are fresh, as 64-bit random numbers are taken to be, and unknown to others until Acquire returns; container/heap is a bag that gives back a candidate of the highest priority.
- Download.DownloadIsSafe: an empty region, whose sectors have no data by length, is outside the statements about completed sectors.
- DownloadEngine.SlabDownload.NextRequest: estimates are fixed during a call; module Download allows any change between the steps.
- SlabBuffer.ReturnedIsSynced: a sync covers what the buffer held when its size was read; that a disk keeps what a successful sync covered is taken on trust.
- Migration.MigrationRefreshesApart: the lock is given up between the refresh and picking the candidates; a refresh by another upload in between is covered by Migration.MigrationUploadsApart, which is about the uploaders at that time.
- Uploaders.RefreshApartExactly: an uploader that renews its own contract between refreshes is one with another contract before the refresh.
- UploaderPool.Manager.CandidatesFor: candidates are sorted by estimate; the theorems hold for every order.
- Migration.PlanMigration: the download, re-encryption and upload between planning and compaction are calls into other modules; failed memory acquisition ends the migration.
- Gouging.Optimise: the count of usable hosts is any function of the price; EvaluateConfig, which optimises five fields one by one with the others unlimited, is not modelled.
- Floating-point rounding, infinities and NaN propagation.
- SQL stores, HTTP routes, bus clients, configuration, metrics, alerts, logging and statistics: plumbing around this logic.
- The chain subscriber, contract formation and renewal, host scoring, accounts and RPC: their state lives in code outside these files.
- Text and binary key marshalling and key derivation: true and easy.
