# talos-box, modelled and verified in Dafny

talos-box (`tbx`) runs Talos Linux clusters in virtual machines on one host. This project models the
parts of it that decide things: how much memory each guest may keep, who owns a reserved amount of
it, how operations queue behind one another, which certificate is installed where, which address
and name a node gets, and what a configuration file means. The properties are proved for every
input, and where the program is a protocol, for every run of it.

`dafny verify dfyconfig.toml` checks the whole project. No file depends on anything outside it.

| module | models |
|---|---|
| Plan, Gate, Holds, Manager, BalloonSystem, Guests | memory ballooning: the allocator, the provision-start gate, the timed holds, the reconcile tick, and both controllers over one ledger |
| Preempt, Reboot | the handover between queued operations, and overlapping boot-time probes |
| Trust | the receipt protocol around a Linux trust store |
| Nodes, Clusters | node addresses, names and role counters |
| Domains, Provisioning, Config | the configuration file, read and printed |
| Routes, Resolver, ImageName, Bgp | route choice, DNS ownership, image names and ports, route injection |
| Text, Totals, Options | strings and 64-bit decimals, sums over maps |

How the code is represented:

- Go integers are unbounded unless wrap-around matters; where it does (`Text.Wrap`), it is written out.
- Go maps iterate in any order and some loops sort the keys first. The methods here pick the next key
  arbitrarily, so what is proved holds for the sorted order as well.
- Guests, forwarding tables, file operations and probes answer nondeterministically.
- Code guarded by a mutex is one atomic step; what runs outside the mutex is a step of its own. The
  operation lock, which the gate keeps over several steps, is part of the state.
- Classes keep the fields the Go code updates. Their methods are proved equal to functions of the old
  state, and the protocol properties are proved about those functions over arbitrary runs.

Where a promise turned out not to hold, the code is kept as it is, with an input that shows it and the
condition under which it does hold. The condition is exact, except that the one for holds carries a
slack for rounding:

- Printing a configuration and reading it back fails when a size has wrapped around 64 bits
  (`Config.WrappedDocument`); it succeeds exactly when every resolved size is positive
  (`Config.RoundTripIff`).
- A remove can leave a temporary file behind (`Trust.StrandedTemp`); it sweeps all of them exactly when
  each belongs to the receipt on disk (`Trust.RemoveSweepsIff`).
- A new node can be given an address already in use, when that one is spelled in IPv4-mapped form
  (`Nodes.MappedFormCollides`); it is a fresh one exactly when below every host held in mapped form
  there is one not in use (`Nodes.NextIsFreshIff`).
- A generated node name can already exist, and adding the node is then refused
  (`Nodes.WrappedNameExists`, `Clusters.AddAfterWrap`); it is new unless a node is numbered with the
  largest 64-bit integer and another with the smallest (`Nodes.GeneratedNameIsFreshIff`).
- A hold does not keep each guest at its reclaimed target, as the comment at
  `internal/daemon/balloon.go:613-616` says (`Gate.HoldLevelsGuests`). It does, up to rounding, when
  what the guests are out of is in proportion to their sizes (`Gate.HoldKeepsProportioned`), and only
  then (`Gate.KeptMeansProportioned`); in particular when all were at their configured size
  (`Gate.HoldKeepsFullGuests`). The two guests of the example are out of proportion
  (`Gate.TwoGuestsOutOfProportion`). Both directions carry an explicit slack, because every plan
  drops the remainders of its divisions.
- The gate can hand memory back when the manager has overtaken its snapshot, against the comment at
  `internal/daemon/balloon.go:483-486` (`BalloonSystem.StaleGateReleases`). It takes memory back
  whenever the guest still holds what was read, over every run (`BalloonSystem.RunTakesBack`,
  `BalloonSystem.UnmovedGuestGives`), and exactly when the guest has not come down since by more than
  it gives over the rounds of the plan, which is its plain share as long as the request takes nobody
  to the floor (`BalloonSystem.GateTakesBackIff`).

## Model

| member | source | states |
|---|---|---|
| `Plan.TargetsPromise` | internal/balloon/plan.go:19-74 | every target lies between min(configured, floor) and configured; the plan never reclaims more than the deficit, and either drains every node to the floor or falls short by less than one MiB per node still above it |
| `Plan.FillPromise` | internal/balloon/plan.go:40-72 | the same of the rounds from any intermediate state, which is the induction behind it |
| `Plan.RoundIsGood` | internal/balloon/plan.go:40-72 | a round keeps the allocator's invariant and, unless it is the last, strictly shrinks the set of active nodes, so the loop terminates |
| `Plan.RoundShares` | internal/balloon/plan.go:51-66 | the integer shares of one round add up to at most what remains, and to less than one MiB per node below it |
| `Plan.RoundTakes` | internal/balloon/plan.go:51-71 | a round never takes more than remains, and one that clamps nobody leaves a residual smaller than the number of active nodes |
| `Plan.EqualSizesEqualTargets` | internal/balloon/plan.go:31-66 | nodes of equal configured size get equal targets |
| `Plan.Proportional` | internal/balloon/plan.go:15-66 | no node gives more than its proportion, compared with any node left above the floor, up to one MiB per node that started above it |
| `Plan.OrderIrrelevant` | internal/balloon/plan.go:31-66 | permuting the node list changes no target |
| `Plan.TargetsAreGiven` | internal/balloon/plan.go:40-72 | every target is the size less what the node gives over the rounds: its share of what remains in each, at most what it still has above the floor |
| `Plan.UnclampedTargets` | internal/balloon/plan.go:40-72 | when the first round takes nobody to the floor, each target is the size less the node's share of that round |
| `Plan.RunRound` | internal/balloon/plan.go:40-71 | processing the active nodes one by one, in any order, is the round that takes every share at once |
| `Plan.Collect` | internal/balloon/plan.go:20-37 | the initial targets are the configured sizes and the active nodes those above the floor |
| `Plan.Weigh` | internal/balloon/plan.go:40-43 | the weight is the sum of the active sizes |
| `Plan.PlanTargets` | internal/balloon/plan.go:19-74 | the loops compute the allocation that the lemmas above are about |
| `Gate.Measure` | internal/daemon/balloon.go:443-454 | what is available is the sum of what each guest holds above the floor now |
| `Gate.BalloonReclaim` | internal/daemon/balloon.go:433-455 | ballooning that is off, or an inventory with nothing above the floor, counts for nothing; otherwise the guests are measured, and when the inventory covers them the early return never changes the outcome |
| `Gate.ReclaimCeiling` | internal/daemon/balloon.go:461-478 | the ceiling sums what the running nodes of the inventory have above the floor, and is zero for an unreadable inventory |
| `Gate.CeilingCounts` | internal/daemon/balloon.go:461-478 | each node of the inventory adds, wherever it stands in it, exactly its configured size above the floor when it is running, and nothing when it is stopped or not above the floor |
| `Gate.CeilingCoversHeadroom` | internal/daemon/balloon.go:433-478 | the ceiling is never below what guests listed as running are measured to have |
| `Gate.NodesOf` | internal/daemon/balloon.go:488-493 | the allocator is given each guest once, with the target it holds now |
| `Gate.AskAll` | internal/daemon/balloon.go:501-531 | for any answers of the guests: it is done exactly when all accept and fails exactly when one refuses; unless it fails, exactly the guests that accept are counted; the held amount is what those are out of, the pending amount what the others have not given, and exactly the accepted targets are published |
| `Gate.Apply` | internal/daemon/balloon.go:487-531 | the same of the whole application, with the targets that a deficit plus one MiB per guest leads to; the ledger holds the target of each guest that accepted and is otherwise as it was |
| `Guests.SnapshotReads` | internal/daemon/balloon.go:36-75 | a guest read with a ledger entry above zero is at that entry, any other at its configured size |
| `Gate.PendingPlusTaken` | internal/daemon/balloon.go:501-531 | what the guests that accepted gave and what is pending add up to all that was asked for |
| `Gate.GateFreesDeficit` | internal/daemon/balloon.go:433-531 | for any deficit the measurement covers, the targets free at least the deficit and at most one MiB per guest more, and raise no guest |
| `Gate.DrainedFreesHeadroom` | internal/daemon/balloon.go:433-455 | draining every guest frees exactly what was measured as available |
| `Gate.HeldIsTotalOut` | internal/daemon/balloon.go:501-530 | when all accept, the held amount is the total now out of the guests counted from their configured sizes |
| `Gate.HoldKeepsReclaim` | internal/daemon/balloon.go:389-400 | any later plan whose deficit is at least the hold hands back less than one MiB per guest of it in total |
| `Gate.HoldLevelsGuests` | internal/daemon/balloon.go:613-616 | two guests for which the tick after a gate admission hands one of them more than 600 MiB back although the hold stands |
| `Gate.HoldKeepsProportioned` | internal/daemon/balloon.go:613-616 | when the reclaimed targets are in proportion to the sizes up to a slack, no later plan under the hold hands a guest back as much as one MiB plus the slack per guest |
| `Gate.KeptMeansProportioned` | internal/daemon/balloon.go:613-616 | conversely, targets of which the hold hands each guest back at most so much are in proportion, up to that much and one MiB per guest |
| `Gate.PlansAreInProportion` | internal/balloon/plan.go:15-66 | every plan from the configured sizes is in proportion up to one MiB per node |
| `Gate.HoldKeepsFullGuests` | internal/daemon/balloon.go:613-616 | if all guests were at their configured size when the gate measured, the hold hands none of them back more than rounding |
| `Gate.TwoGuestsOutOfProportion` | internal/daemon/balloon.go:613-616 | the guests of the counterexample are out of proportion by any slack up to 299 MiB |
| `Holds.Ledger.DropExpired` | internal/daemon/balloon.go:603-611 | a hold stays exactly when the clock is before its deadline; those that stay keep their order and their number |
| `Holds.Ledger.Arm` | internal/daemon/balloon.go:543-552 | an amount above zero is appended with a full window after the expired ones are dropped |
| `Holds.Ledger.Rearm` | internal/daemon/balloon.go:561-577 | the newest live hold of that size gets a full window again, or a new one is appended |
| `Holds.Ledger.Release` | internal/daemon/balloon.go:585-600 | the newest live hold of that size is taken out |
| `Holds.Ledger.HoldArmed` | internal/daemon/balloon.go:658-663 | the first critical section drops expired holds and says whether any is left |
| `Holds.Ledger.HoldMiB` | internal/daemon/balloon.go:633-654 | whatever other starts do between its two critical sections: the amount is at most the ceiling, no live hold of the section that decides exceeds it unless it is the ceiling, and it is zero, the ceiling or the amount of such a hold; the ledger itself is not lowered |
| `Holds.LiveAgain` | internal/daemon/balloon.go:603-611 | dropping expired holds twice is dropping them once at the later time |
| `Holds.StepKeepsOwnership` | internal/daemon/balloon.go:543-611 | the ledger stays sorted by deadline with at most one entry per start, and re-arming or releasing by size touches only the calling start's own entry, even with equal sizes or after expiry |
| `Holds.RunKeepsOwnership` | internal/daemon/balloon.go:543-611 | the same in every state and for every step of every run of serialized starts under a monotone clock |
| `Holds.HoldStands` | internal/daemon/balloon.go:543-611 | in every such run a start's hold stays on the ledger, unchanged, until the start takes it back or renews it or five minutes have passed since it was last put there, and the first reading after that drops it |
| `Holds.ReadingSeesHold` | internal/daemon/balloon.go:603-654 | until then every reading finds a largest live hold of at least that amount |
| `Holds.ErasedStep` | internal/daemon/balloon.go:543-611 | without the owners, each step of such a run is the ledger operation the code performs |
| `Manager.LatchHistory` | internal/balloon/manager.go:334-356 | after any samples the latch is set exactly when some sample armed it and no later one met the clear condition |
| `Manager.PressureMeans` | internal/balloon/manager.go:334-356 | a sample arms when at most a fifth of the swap is left, the compressor holds a fifth of the memory or the host raises an alarm, and clears when more than three tenths are left, the compressor holds less than three twentieths and there is no alarm; never both |
| `Manager.Controller.UpdateLatch` | internal/balloon/manager.go:334-349 | one sample moves the latch as that history does |
| `Manager.PlannedKeys` | internal/balloon/manager.go:229-254 | a plan covers exactly the guests whose device is up |
| `Manager.PlannedMeans` | internal/balloon/manager.go:229-254 | a plan gives each guest whose device is up exactly its share of the deficit or, under the latch, what is on record or what it reports above zero, whichever is least |
| `Manager.PlannedBounds` | internal/balloon/manager.go:229-254 | planned targets stay between floor and configured size, and under the latch at or below the record |
| `Manager.Controller.PlanActive` | internal/balloon/manager.go:229-254 | the loop computes that plan: the targets cover the guests whose device is up and are the least of the share, the record and the report |
| `Manager.ActiveNodes` | internal/balloon/manager.go:229-240 | the allocator is given each guest whose device is up once, with its configured size |
| `Manager.Controller.Classify` | internal/balloon/manager.go:258-274 | a tick is changed, or has an unapplied target, exactly when some planned guest is; guests that reached their target stop waiting |
| `Manager.Controller.ApplyTarget` | internal/balloon/manager.go:180-225 | a guest is left alone exactly when its record is the target and its snapshot does not disagree, or when no hold sets the deficit, it was asked within the window and it has not been moved aside or already waits; each answer changes exactly the records it should |
| `Manager.Controller.VisitFiles` | internal/balloon/manager.go:134-152 | what one visit does to the files and whether the guest is asked, as a function of the files before it and the answer; whoever is asked in the reductions is asked for less than it reports, is on record for or is sized, and nobody else is |
| `Manager.Controller.Visit` | internal/balloon/manager.go:134-152 | a guest is asked exactly when it is due, for its share of the plan; all that changes is what its answer puts on file, and the calls stay disciplined |
| `Manager.Controller.RunPass` | internal/balloon/manager.go:134-152 | exactly the guests due when the pass began are asked, each once; unless a device is not up, every guest of the pass has its target or a reason |
| `Manager.Controller.RunRound` | internal/balloon/manager.go:132-159 | the reductions due at the start are asked first, and the releases due at the start exactly when no reduction met a device that is not up |
| `Manager.Controller.CarryOut` | internal/balloon/manager.go:132-159 | a round ends the loop with the allocator's plan carried out by the calls it made, or leaves out one more guest |
| `Manager.Controller.OneRound` | internal/balloon/manager.go:118-160 | one turn of the replan loop: only the first can find that the tick rests, exactly when the plan as things stand says so; without a change it asks nobody; when it ends the loop, the plan is the allocator's and is carried out |
| `Manager.Controller.StartRound` | internal/balloon/manager.go:119-126 | the targets are the allocator's plan as things stand, within bounds; changed means some guest is off its target, unapplied that such a guest was never asked, moved aside or waits |
| `Manager.Controller.RunRounds` | internal/balloon/manager.go:116-160 | the replan loop always ends by its break; the last plan is the allocator's over the record at that point, without exactly the guests not up at the end, and every call from there on is a request of it; the tick rests exactly when the first plan says so, and otherwise every planned guest has its target, declined, waits, or was already taken lower |
| `Manager.Controller.ProbeDevice` | internal/balloon/manager.go:294-320 | a pending guest is asked for its configured size once per window, and only acceptance ends its wait |
| `Manager.Controller.ProbePendingDevices` | internal/balloon/manager.go:294-320 | exactly the pending guests that are present and outside their window are probed, each once, and nothing changes for the others |
| `Manager.Controller.DropDeparted` | internal/balloon/manager.go:358-391 | every record is cut down to the guests present, and the applied deficit is forgotten when none is left |
| `Manager.Controller.Shortfall` | internal/balloon/manager.go:101-112 | the deficit is at least the hold and at least any shortfall outside the deadband, equals one of them or is zero, is zero exactly when there is neither, and is set by the hold exactly when it equals a hold above zero |
| `Manager.Controller.Settle` | internal/balloon/manager.go:161-167 | the applied deficit is recorded exactly when some guest accepted |
| `Manager.Controller.RunTick` | internal/balloon/manager.go:114-160 | the calls of a tick are disciplined, the record is what the guests accepted, the plan is the allocator's last one, and when all accept and none is within its window the record is that plan |
| `Manager.Controller.TickAndSettle` | internal/balloon/manager.go:114-167 | the same once the deficit is known, with departed guests dropped |
| `Manager.Controller.Reconcile` | internal/balloon/manager.go:99-167 | a whole tick: it leaves by the break, its calls are disciplined, the record is each present guest's last accepted target and within bounds; the plan covers the guests whose device is up, gives each the least of its share of the deficit and what the latch leaves it, is the last one made, and is carried out unless the tick rests, which means only probes, a deficit within the deadband and every guest off its plan on file; when every guest asked accepts and none waits, the record is the plan; with everybody in place nobody is asked |
| `Manager.AcceptedDecrease` | internal/balloon/manager.go:114-160 | within a tick's rounds the targets a guest is asked for after accepting one strictly decrease |
| `Manager.LatchForbidsRelease` | internal/balloon/manager.go:229-254 | under the latch a guest on record whose device was up at the start of the tick is never asked for more than its record |
| `Manager.ReleasesAfterReductions` | internal/balloon/manager.go:132-159 | a round releases only after all of its reductions, none of which met a device not yet up |
| `Manager.ReductionsTake` | internal/balloon/manager.go:132-159 | over a whole tick a call is a reduction exactly when it asks for less than the guest reports, or without a report than the record at that point, or else than its size |
| `Manager.SoundLedger` | internal/balloon/manager.go:180-225 | whatever a disciplined tick records lies within bounds |
| `Manager.ReleaseDue` | internal/balloon/manager.go:133-156 | the guests due for release after the reductions are those that were due before them |
| `Manager.OwnRecordPlans` | internal/balloon/manager.go:229-254 | a guest's share of a plan depends on its own record only |
| `Manager.Arrives` | internal/balloon/manager.go:114-160 | when all accept, a guest dealt with outside its window has exactly its planned target on record |
| `Manager.TickTwice` | internal/balloon/manager.go:99-167 | after a tick in which all asked accept, none waits and every device is up, a tick with the same reading over a snapshot of what was accepted asks nobody; what the first tick did is stated as for a single one |
| `Manager.NothingToDo` | internal/balloon/manager.go:99-167 | a record that is the last plan, reported by guests whose devices are up, leaves every guest where the next plan wants it |
| `Manager.PlanIsStable` | internal/balloon/manager.go:229-254 | planning again over guests that report the plan gives the same plan, under the same latch |
| `BalloonSystem.StepKeepsBounds` | internal/daemon/balloon.go:38-63 | every step of the manager, the gate, the probes or a stop keeps every accepted and recorded target within bounds |
| `BalloonSystem.RunKeepsBounds` | internal/daemon/balloon.go:677-705 | the same over every interleaving, with any answers and however stale the snapshots |
| `BalloonSystem.TickIsPath` | internal/balloon/manager.go:99-167 | however the calls of a disciplined tick fall between the steps of the gate and node stops, they are steps of the system, the record ends up as the tick's and everything stays within bounds |
| `BalloonSystem.TickOfController` | internal/balloon/manager.go:99-167 | the same of a tick the controller itself performs |
| `BalloonSystem.GateTakesBack` | internal/daemon/balloon.go:479-531 | an accepted request of the gate takes memory back if the guest holds at least what the gate read, and hands it out if the guest holds less by more than the gate is after |
| `BalloonSystem.RunTakesBack` | internal/daemon/balloon.go:479-531 | the same for every request in every run |
| `BalloonSystem.UnmovedGuestGives` | internal/daemon/balloon.go:479-531 | over every run, a guest nothing has moved since the gate read it is never handed memory by the gate |
| `BalloonSystem.GateTakesBackIff` | internal/daemon/balloon.go:479-531 | the gate takes memory back from a guest exactly when the guest has not come down since by more than it gives over the rounds of the plan, which is its share of the first round as long as the request takes nobody to the floor |
| `BalloonSystem.LoneGuest` | internal/balloon/plan.go:40-72 | a single guest with room gives exactly the deficit |
| `BalloonSystem.StaleGateReleases` | internal/daemon/balloon.go:479-531 | a run, with the gate holding the operation lock from its read on, in which it raises a guest from 2000 to 3900 MiB |
| `Preempt.Preemptions.Request` | internal/daemon/preempt.go:36-50 | the cluster's count goes up by one and the interrupts on file for it are handed out to be fired |
| `Preempt.Preemptions.Release` | internal/daemon/preempt.go:51-61 | the count goes down by one and disappears at zero |
| `Preempt.Preemptions.Register` | internal/daemon/preempt.go:67-83 | the offer is filed under a new number and fires at once exactly when somebody is queued |
| `Preempt.Preemptions.Remove` | internal/daemon/preempt.go:84-95 | the offer, and an empty file, disappear |
| `Preempt.KeyIffSameCluster` | internal/daemon/preempt.go:98-102 | two names share an entry exactly when they agree letter by letter but for case |
| `Preempt.StepKeepsCount` | internal/daemon/preempt.go:36-95 | in every step the pending count of each cluster equals its announced and unreleased requests, and the file equals its standing offers; the step has its effect on the one who takes it |
| `Preempt.StepReaches` | internal/daemon/preempt.go:36-95 | a step makes an interrupt due exactly when it brings a request and a standing offer of one cluster together |
| `Preempt.RunReaches` | internal/daemon/preempt.go:36-102 | over every interleaving, an interrupt has fired or is due exactly when its offer once stood together with a request whose name agrees with the offer's but for letter case |
| `Preempt.FiredExactlyWhenMet` | internal/daemon/preempt.go:36-102 | once nothing is due any more, it has fired exactly when they met: no wakeup is lost and none is spurious |
| `Reboot.RebootLog.BeginObserve` | internal/daemon/reboot.go:44-54 | a probe gets the node's generation and its next sequence number |
| `Reboot.RebootLog.CompleteObserve` | internal/daemon/reboot.go:56-77 | what is accepted, what is reported and what is stored for one completed probe |
| `Reboot.RebootLog.Current` | internal/daemon/reboot.go:79-88 | a notice is shown exactly while the last reboot is less than fifteen minutes old |
| `Reboot.RebootLog.Forget` | internal/daemon/reboot.go:90-101 | the observation is gone and the generation has moved on |
| `Reboot.RebootLog.ForgetPrefix` | internal/daemon/reboot.go:103-126 | the same for every node under the prefix; the empty prefix forgets all |
| `Reboot.Grow` | internal/daemon/reboot.go:44-126 | a node's generation and sequence number only grow, and the generation stays exactly while nothing forgets it |
| `Reboot.BeginOrder` | internal/daemon/reboot.go:44-54 | probes of one node are numbered in the order they began |
| `Reboot.CountsByLatest` | internal/daemon/reboot.go:56-77 | comparing with the last accepted probe is as good as comparing with all accepted ones |
| `Reboot.AdmittedIffCounts` | internal/daemon/reboot.go:56-63 | generation and sequence number admit a probe exactly when it was not forgotten since it began and none begun later was accepted |
| `Reboot.RecordIsLatest` | internal/daemon/reboot.go:44-126 | after any interleaving the stored boot time is that of the latest-begun accepted probe since the node was forgotten, and the stored reboot its last change |
| `Reboot.ReportedIffChanged` | internal/daemon/reboot.go:56-77 | reboots are reported exactly at the changes in the sequence of accepted probes, with the boot time before and what is then on record; a probe that is not accepted reports nothing |
| `Reboot.ForgottenProbe` | internal/daemon/reboot.go:90-126 | a probe begun before its node was forgotten is never accepted |
| `Trust.RunKeepsReceipt` | cmd/tbx/trust.go:79-241 | over every sequence of installs and removes, failing or crashing anywhere, every anchor has a receipt with its path and fingerprint |
| `Trust.StepKeepsReceipt` | cmd/tbx/trust_platform.go:156-295 | each single operation keeps that, with what each point of a command relies on |
| `Trust.RemoveLeavesNothing` | cmd/tbx/trust.go:190-241 | after any such history one undisturbed remove leaves no anchor and no receipt, and of the temporary files exactly those beside other paths |
| `Trust.RemoveDropsIff` | cmd/tbx/trust_platform.go:156-192 | on any disk with a receipt, an undisturbed remove drops the anchor at the receipt's path exactly when it is not another certificate, and touches no other anchor; otherwise nothing changes |
| `Trust.RemoveSparesForeign` | cmd/tbx/trust_platform.go:156-192 | whatever fails or crashes during it, a remove that finds another certificate changes nothing |
| `Trust.RemoveSweepsIff` | cmd/tbx/trust_platform.go:176-192 | all temporary files are gone afterwards exactly when each sat beside the receipt's path |
| `Trust.StrandedTemp` | cmd/tbx/trust_platform.go:225-248 | a run after which a torn temporary file outlives every remove |
| `Trust.InstallPublishes` | cmd/tbx/trust.go:79-154 | on any disk: nothing changes with a receipt that is unreadable, for another CA or whose store does not answer; a CA found where its receipt says only has the receipt settled; otherwise it ends published at the host's path with a settled receipt and no temporary file, or untouched on a host without one |
| `Trust.Store.Try` | cmd/tbx/trust_platform.go:225-248 | one file operation is one step that works, fails or is the last |
| `Trust.Store.InstallTrust` | cmd/tbx/trust.go:79-154 | whatever happens to it, the command's effect on the disk is a run of the step machine that begins with this install, goes on with its file operations and ends with no command running; where nothing goes wrong it is exactly the undisturbed install |
| `Trust.Store.FinalizeReceipt` | cmd/tbx/trust.go:156-160 | the same for the last write of an install |
| `Trust.Store.RecoverFailedInstall` | cmd/tbx/trust.go:167-184 | the same for the probe and rollback or finalize after a failure |
| `Trust.Store.PerformLinuxTrust` | cmd/tbx/trust_platform.go:156-248 | the same for the privileged half of an install |
| `Trust.Store.RemoveTrust` | cmd/tbx/trust.go:190-241 | the same for a remove |
| `Trust.SmoothEnd` | cmd/tbx/trust.go:79-241 | a command on which nothing goes wrong ends where the undisturbed one does |
| `Trust.Store.RemoveLinuxTrust` | cmd/tbx/trust_platform.go:156-192 | the same for the privileged half of a remove |
| `Nodes.FirstFree` | internal/cluster/reservation.go:132-140 | the lowest host of 2..179 not in use, none exactly when all are |
| `Nodes.LowestFreeReservation` | internal/cluster/reservation.go:132-140 | the loop finds it |
| `Nodes.FreeIffRoom` | internal/cluster/reservation.go:132-150 | there is none exactly when 178 distinct reservations are in use |
| `Nodes.CollectUsed` | internal/cluster/reservation.go:89-104 | the addresses in use, refused exactly when one is not a reservation of the subnet or occurs twice |
| `Nodes.FillAddresses` | internal/cluster/reservation.go:105-118 | only missing addresses are filled in, all end up distinct reservations, and it fails exactly above 178 nodes |
| `Nodes.NextIsFreshIff` | internal/cluster/reservation.go:121-130 | the next address is unused exactly when below every host held in mapped form there is one not in use |
| `Nodes.MappedFormCollides` | internal/cluster/reservation.go:121-130 | a cluster in which it is handed out twice |
| `Nodes.NextNodeName` | internal/cluster/node.go:57-74 | the cluster's name, "-cp-" or "-worker-" by role, and one more than the highest number any node carries after that, in 64-bit arithmetic |
| `Nodes.NameIndexMeans` | internal/cluster/node.go:63-72 | the number a name carries is what is read from the rest of it after the prefix, zero when that is no number or the prefix is another one |
| `Nodes.HighestIsMaximum` | internal/cluster/node.go:63-72 | the running maximum is the highest number any node carries after the prefix |
| `Nodes.GeneratedNameIsFreshIff` | internal/cluster/node.go:57-74 | that name is new except when the highest number is the largest integer and the wrapped name exists |
| `Nodes.WrappedNameExists` | internal/cluster/node.go:57-74 | two nodes for which the generated name is taken |
| `Clusters.ValidNameMeans` | internal/cluster/store.go:169-177 | a valid name is non-empty, not a dot name and without slashes, or is a single slash |
| `Clusters.Cluster.New` | internal/cluster/cluster.go:130-175 | accepted exactly for valid names, subnets 0..255, at most 178 nodes and sizings that are not negative; control planes "-cp-1" on come first and workers "-worker-1" on after them, addressed in order from host 2; a size left out is 2048 MiB, 2 CPUs or 20 GiB; the cluster is sound |
| `Clusters.FreshKept` | internal/cluster/cluster.go:147-174 | a new cluster's names and addresses are distinct and its counters exact |
| `Clusters.Cluster.EnsureReservations` | internal/cluster/reservation.go:89-119 | migration keeps every address on record, is refused exactly for bad ones without touching anything, is reported only when an address was missing, changes nothing when all are set, and keeps the cluster sound |
| `Clusters.Cluster.NextReservation` | internal/cluster/reservation.go:121-130 | the caller's nodes are migrated too; in a sound cluster there is no address exactly from 178 nodes on |
| `Clusters.Spellings` | internal/cluster/reservation.go:125-128 | the used addresses are the spellings on record |
| `Clusters.Cluster.Append` | internal/cluster/node.go:25-37 | the node goes last with the lowest address not spelled in the cluster and its role's counter goes up by one |
| `Clusters.Cluster.AddNode` | internal/cluster/node.go:10-38 | which of the refusals applies, each exactly; otherwise one node is appended; soundness is kept and a sound cluster is full exactly at 178 nodes |
| `Clusters.Cluster.RemoveNode` | internal/cluster/node.go:41-55 | the first node of the name is taken out and counted out; soundness is kept |
| `Clusters.AddKeeps` | internal/cluster/node.go:25-37 | appending such a node keeps names and addresses distinct, in range, and the counters exact |
| `Clusters.RemoveKeeps` | internal/cluster/node.go:41-55 | taking out any node keeps them too |
| `Clusters.AddThenRemove` | internal/cluster/node.go:10-55 | removing the node just added gives back the nodes from before |
| `Clusters.AddAfterWrap` | internal/cluster/node.go:10-38 | with those nodes AddNode reports a duplicate and changes nothing |
| `Domains.ValidateTwice` | internal/domain/domain.go:26-53 | validating a canonical name changes nothing |
| `Domains.CanonicalIff` | internal/domain/domain.go:26-64 | told from its labels, a name is its own canonical form exactly when there are two or more, each well formed and at most 63 long, 253 characters in all, it is not k8s.test, not under local, localhost or invalid, and is under test, internal or home.arpa unless unsafe names are allowed |
| `Domains.SpellingIrrelevant` | internal/domain/domain.go:26-28 | letter case and one trailing dot change no verdict, and the canonical form differs from the input in nothing else |
| `Domains.LabelMeans` | internal/domain/domain.go:22 | a label is one lower-case letter or digit, or two with letters, digits and hyphens between them |
| `Provisioning.IntentRoundTrip` | internal/cluster/provisioning.go:54-124 | the intents that can be parsed are exactly the valid ones, and exactly those survive being sent as input |
| `Provisioning.IntentMeans` | internal/cluster/provisioning.go:54-124 | a knob that is supplied is taken, one left out is off except load balancing and memory protection, and without a network plugin none may be set: accepted exactly when the resulting intent is valid |
| `Config.SizeRoundTrip` | internal/config/marshal.go:93-98 | a 64-bit size is read back from its printed form exactly when it is positive |
| `Config.SizeMeans` | internal/config/config.go:271-287 | a number and a unit are a size exactly when the number is a positive 64-bit integer, and count times 1024 for GiB, wrapped to 64 bits |
| `Config.SizeHasUnit` | internal/config/config.go:271-287 | nothing without a number and one of the two units is a size |
| `Text.AtoiMeans` | internal/config/config.go:282 | digits with at most one sign are read as their value when it fits in 64 bits |
| `Text.AtoiReads` | internal/config/config.go:282 | nothing else is read as a number |
| `Config.NodeRoundTrip` | internal/config/config.go:245-287 | a printed sizing is read back over any defaults exactly when its sizes are positive, and refused otherwise |
| `Config.PrintedTalos` | internal/config/marshal.go:47-53 | inheriting the file's image pins and printing only divergences undo each other, including the explicit empty extension list, and a cluster with the file's own pins prints none |
| `Config.PrintedIntent` | internal/config/marshal.go:26-41 | the printed knobs parse to the same intent |
| `Config.PrintedDomain` | internal/config/config.go:163-182 | the stored domain is read back, the default one as absent |
| `Config.ReadIsWellFormed` | internal/config/config.go:136-219 | what can be said of any cluster that was read |
| `Config.ReadIff` | internal/config/config.go:136-219 | a cluster block is accepted exactly when some cluster fits what it says, and then that one is read: one control plane and two workers by default, every sizing field as given or from below (2048 MiB, 2 CPUs and 20 GiB under the cluster's own block, that block under each role), every image pin as given or the file's, and the domain canonical or the name under k8s.test |
| `Config.DocumentIff` | internal/config/config.go:116-222 | a document is accepted exactly when its version is 1, it has cluster blocks, each describes a cluster, and no name or effective domain occurs twice |
| `Config.ClusterRoundTrip` | internal/config/config.go:136-219 | one printed cluster is read back exactly when its sizes are positive |
| `Config.RoundTripIff` | internal/config/config.go:116-287 | for every config that was read: printing and reading it gives the same config exactly when all sizes are positive, and is refused otherwise |
| `Config.SizeWrapsToZero` | internal/config/config.go:271-287 | 2^54 GiB reads as zero |
| `Config.WrappedDocument` | internal/config/config.go:116-287 | an accepted document whose printed form is refused |
| `Config.Parse` | internal/config/config.go:116-222 | the loop with its two seen-maps accepts exactly the documents whose clusters each resolve and have distinct names and effective domains, and returns them resolved |
| `Config.Marshal` | internal/config/marshal.go:13-66 | the loop prints every cluster against the file's pins |
| `Routes.SelectMostSpecificRoute` | internal/cluster/subnet.go:278-298 | no route without a match; otherwise the first matching one of longest prefix, then lowest metric, with the tunnel flag of any route tied with it |
| `Routes.SelectedMeans` | internal/cluster/subnet.go:273-298 | the reported route is on no ignored device and covers the destination, no other such route has a longer prefix or the same and a lower metric, and it is flagged exactly when one with the same prefix and metric is; none is reported exactly without such a route |
| `Routes.Contains` | internal/cluster/subnet.go:282 | a network of prefix p contains exactly the 2^(32-p) addresses from its address rounded down to a multiple of that number |
| `Routes.Blocks` | internal/cluster/subnet.go:282 | a default route contains every 32-bit address, a /24 those that agree in all but the last byte, a host route its own, and a longer prefix a part of the shorter one |
| `Routes.OrderDecidesOnlyTies` | internal/cluster/subnet.go:273-277 | listing the routes in another order changes neither prefix, metric nor tunnel flag |
| `Routes.TiedRoutesShareNetwork` | internal/cluster/subnet.go:273-298 | routes tied for a destination contain the same addresses |
| `Resolver.FindOwner` | internal/dns/resolver.go:18-29 | the owner has the longest domain covering the name, there is none exactly when no domain covers it |
| `Resolver.UnderIff` | internal/dns/resolver.go:25 | at or under a domain are exactly the domain and what ends with a dot and the domain |
| `Resolver.Resolve` | internal/dns/resolver.go:15-42 | the answer is the owner's: nothing at the apex or on a bad subnet, the machine's lease, or the ingress address |
| `Resolver.AnswerMeans` | internal/dns/resolver.go:30-42 | nothing at the apex or on a subnet outside 0..255; the lease of the first machine of that name; 172.30.subnet.200 when no machine has it |
| `Resolver.SpellingIrrelevant` | internal/dns/resolver.go:16 | letter case and one trailing dot of a question change nothing |
| `Resolver.Domain` | internal/dns/resolver.go:21 | a cluster answers to its own domain when it has one and to its name under k8s.test otherwise, in lower case |
| `Resolver.FindMachine` | internal/dns/resolver.go:36-40 | the first machine of that name, none exactly when no node has it |
| `Resolver.OwnerUnique` | internal/dns/resolver.go:18-29 | with distinct lower-cased domains every other covering domain is strictly shorter |
| `Resolver.OrderIrrelevant` | internal/dns/resolver.go:10-42 | with distinct lower-cased domains the order of the clusters changes no answer |
| `Resolver.NestedNeverFallsThrough` | internal/dns/resolver.go:10-14 | a name at or under a nested domain is never owned by the enclosing cluster |
| `ImageName.ValidRepository` | internal/daemon/operations.go:2340-2350 | accepted exactly for names of the grammar with at most 255 bytes |
| `ImageName.ValidComponent` | internal/daemon/operations.go:2352-2380 | accepted exactly for components of the grammar |
| `ImageName.ScanComponent` | internal/daemon/operations.go:2352-2380 | the scan decides its position-by-position form |
| `ImageName.SkipDashes` | internal/daemon/operations.go:2363-2366 | a run of dashes is skipped whole |
| `ImageName.GrammarIsScanned` | internal/daemon/operations.go:2352-2380 | everything the grammar generates is accepted by the scan |
| `ImageName.ScannedIsGrammar` | internal/daemon/operations.go:2352-2380 | everything the scan accepts is generated by the grammar |
| `ImageName.NameIffComponents` | internal/daemon/operations.go:2340-2350 | a string is a name exactly when every part between slashes is a component |
| `ImageName.ValidPort` | internal/daemon/operations.go:2419-2432 | accepted exactly for digit strings of any length with a value in 1..65535; the accumulator never exceeds 65535 |
| `Bgp.Reconciler.Reconcile` | internal/bgp/reconcile.go:42-74 | afterwards exactly the wanted routes the table did not refuse to add in this pass are recorded; with reliable deletions and no refusal the table is the wanted set; a prefix that keeps its nexthop gets no call |
| `Bgp.Reconciler.Install` | internal/bgp/reconcile.go:51-65 | a prefix that keeps its nexthop gets no call; any other is added last, and is on record afterwards exactly when the table took it |
| `Bgp.Reconciler.InstallAll` | internal/bgp/reconcile.go:50-65 | the first loop, in any order: the failed prefixes are exactly those the table refused to add in it, and all other wanted ones are on record |
| `Bgp.Reconciler.Withdraw` | internal/bgp/reconcile.go:66-71 | one prefix is deleted, by one call, and forgotten |
| `Bgp.Reconciler.WithdrawOthers` | internal/bgp/reconcile.go:66-71 | exactly the prefixes not wanted go, in any order, by deletions only |
| `Bgp.Reconciler.WithdrawAll` | internal/bgp/reconcile.go:94-101 | nothing is recorded any more and, with reliable deletions, the table is empty |
| `Bgp.MirrorsExactly` | internal/bgp/reconcile.go:42-101 | what every operation keeps makes table and record equal when no deletion failed |
| `Bgp.LastWins` | internal/bgp/reconcile.go:45-48 | of several desired routes for one prefix the last counts |
| `Bgp.Collect` | internal/bgp/reconcile.go:45-48 | the loop builds that map |

## Left out

- Overflow of 64-bit arithmetic in the allocator's products and sums, in the swap percentage, in the sum of two node counts and in sequence numbers: these integers are unbounded here.
- Upper and lower case outside ASCII: `Text.Lower` changes ASCII letters only, while Go also maps a few other letters onto ASCII ones.
- The stateless `Manager.Reconcile` and `Run` loops of internal/balloon/manager.go, its logging, and the overcommit and pressure assessments that decide whether the gate is asked at all.
- Guest agents, hypervisors, Talos and Kubernetes clients, the helper socket, GoBGP and netlink: they answer arbitrarily.
- Manager.Controller.Reconcile: assumes, as `Manager.Sound` says, that the snapshot and the record start within bounds; `BalloonSystem.RunKeepsBounds` shows that they do.
- Holds.Ledger.HoldMiB: the ceiling is an input; `Gate.ReclaimCeiling` says how it is measured.
- Plan.PlanTargets: takes distinct names and a floor of at least zero, as its callers give it.
- Clusters.Cluster.EnsureReservations: the subnet of a cluster on record is within 0..255, as New enforces; a state file edited to another one is not modelled.
- MAC addresses, `DeterministicMAC` and the reservation table keyed by them.
- `LowestUsableSubnetIndex`, `inspectSubnet` and the host interfaces they look at.
- The Darwin trust driver, the choice of a Linux store, and outside writers to the store between two commands.
- Trust.StrandedTemp: a sudo child that outlives its killed parent is not modelled; a crash ends both.
- YAML text, quoting and unknown keys, and the wording of errors: a document is a record of fields and a refusal carries no message.
- Image digests, tags and registry hosts beside the repository and the port.
- Snapshots, disk cloning, the VM start, destroy and provisioning drivers, and all command-line output.
