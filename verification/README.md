# frp-operator, verified

frp-operator packs Tunnels (port and resource requests) onto ExitClaims, caches what the API server shows it, and
disrupts exits under budgets. This project models those decisions in Dafny and proves what they keep. `dafny verify
dfyconfig.toml` checks everything.

## How it is laid out

- `Api`, `Strconv`, `Sets`, `Ordering`: the API objects and the library functions the code calls.
- `Ports`, `Resources`, `Requirements`, `Offerings`: port assignment, resource arithmetic, the operator table, the
  choice of instance type.
- `Solving` says what one Solve decides, as a function of the cluster reads and the tunnels. `Scheduler` is the
  mutable scheduler, proved to compute it. `SolveTheorems` holds what is true of every Solve; `Preference` and
  `Admission` say which exit, claim or pool takes a tunnel, from the fields that were read.
- `Cache` is the cluster cache as a value with its events; `Cluster` is the class with five maps and shared records,
  proved to perform them; `Synced` is the agreement check.
- `Provisioner` lists pending tunnels and persists results.
- `Attribution`, `Readings`, `ControlPlane`, `WholeRun`: the control plane as a state machine, in which users,
  informers, the provisioner and the finalizer act in any order, and port exclusivity over its runs. `Finalizer` is
  the finalizer's code, proved to take that machine's steps.
- `Filling`, `Leaking`: exactly when passes can make two tunnels share a port. `Minting`, `Colliding`: a run from
  nothing that does.
- `Draining`, `Rebinding`: which claims being deleted stay drained, exactly, and a run from nothing that rebinds one.
- `Consolidation`, `Replacement`, `Combining`: the repacking simulator and its combined requirements. `Budgets`,
  `Disruption`, `Commands`, `DisruptionPass`: budgets, command generators and exactly what each proposes, the
  execution queue and one disruption pass.
- `Lifecycle`, `Transitions`, `Conditions`, `Batcher`: the claim's phase chain and what its conditions tell of the
  past, the single-position condition patch, the trigger batcher.

Code that changes state is a class or a loop with its invariants, and its `ensures` equates the result with a function
about which the lemmas are proved. Map iteration is an arbitrary order, so every result holds for every order.
Outcomes of providers, probes and API writes are parameters or arbitrary choices. Quantities and times are integers,
prices reals; 64-bit wrap-around is written out where it matters (budget percentages, the liveness counter), as is the
32-bit truncation of the numbers in a port range.

## What the runs assume

- A provisioner pass (sync check, Solve, persist) and a finalizer pass are each one atomic step, and a Solve sees one
  snapshot of each cached exit. The lists a pass or the finalizer reads are the API server's current objects.
- The cache may be shown any version of any object at any time, or its absence. Two results say exactly which updates
  or worlds they cannot bear. Port exclusivity fails from a world where a pass is let through while a port in use may
  be given out again (`WholeRun.Leaky`, exact by `Leaking.LeaksExactly`); that never happens when tunnels are shown as
  they are (`WholeRun.PresentUpdatesSuffice`), but can with updates in order (`Colliding.LateUpdateCollides`).
  Draining fails by an update that shows a bindable copy of the claim which no mark under its ID holds off
  (`Draining.Reopens`, exact by `Rebinding.DrainedThroughout`); while the exit is marked and its ID kept, updates may
  show the claim as it was before its deletion (`Rebinding.MarkHoldsOff`).
- Claim names made from (pool, UID) never collide, are never empty, and no other claim is created under such a name.
  The program takes eight hexadecimal digits of a hash, so this is an assumption about the names in use, not a fact.
- A claim's provider ID does not revert to empty while the cache knows the claim, and no two claims share one.
  `Cache.StepKeepsAgreement` shows both are needed.
- A claim with a finalizer is removed only once no tunnel is bound to it; `ControlPlane.ForcedRemoval` and
  `Finalizer.FinalizePassInv` say exactly what changes when the termination grace period ends earlier. Only the
  provisioner and the finalizer write tunnel status, and any other field of a claim may be edited at any time.
- For condition patches: one owner per condition type, whose reads include its own last write.

## Where the code and its comments differ

- `liveness.go` describes a registration deadline after which a claim that never registers is Disrupted and deleted.
  The registration phase ends every pass over an unregistered claim, so the deadline check is never reached with such
  a claim (`Lifecycle.DeadlineIgnored`).
- `budgets.go` says fires must be spaced wider than the duration; the window test is exact for any spacing
  (`Budgets.CronWindows`).
- The provisioner's early return when the cache is not in sync consumes the wake-up without draining
  (`Batcher.BailStrands`).
- Marking an exit gates only a launched claim; one that is pending in the cache can be handed tunnels back until the
  cache sees its deletion (`Rebinding.FinalizeDrainsExactly`, `Rebinding.UngatedRebinds`).
- The sync check compares exits but not ports, so a pass can hand out a port in use when a tunnel's update is late,
  even with every update in order (`Synced.PortsUnchecked`, `Leaking.LeaksExactly`, `Colliding.LateUpdateCollides`).
- Combining the tunnels' requirements keeps the first of each key and operator, which loses a later, stricter one;
  exactly when is `Combining.CoversExactly`, `Combining.StandsExactly` and `Combining.UncoveredIsLost`.
- The operator table accepts adjacent bounds (`Gt n` with `Lt n+1`) and refuses a pool's `DoesNotExist` against a
  tunnel's `NotIn` but not the reverse; `Requirements.TableMeetsMeaning` lists every such corner.

## Model

| member | source | states |
|---|---|---|
| WholeRun.PortsStayExclusive | pkg/controllers/provisioning/provisioner.go:70-109 | over every run of tunnel edits, claim edits, updates showing the cache any version of anything, provisioner passes and finalizer passes, no two tunnels assigned to one exit share a port and none lists a port twice, provided no pass starts where a port in use may be given out again |
| WholeRun.StepExclusive | pkg/controllers/provisioning/provisioner.go:212-289 | no single step makes two tunnels share a port, as long as no port in use may be given out again where a pass starts |
| WholeRun.PresentUpdatesSuffice | pkg/controllers/state/cluster.go:265-293 | if every update about a tunnel shows its present assignment, however late other updates come, no pass starts where a port in use may be given out again, and exclusivity holds over every run |
| Leaking.LeaksExactly | pkg/controllers/state/synced.go:74-118 | for every world that keeps the invariant and where no port is shared: passes keep it so, whatever tunnels come in first, exactly unless the cache and the API agree as far as the check looks while some port in use is allowed, unreserved and not shown as bound under a name on offer |
| Filling.Fills | pkg/controllers/provisioning/scheduling/scheduler.go:176-219 | from every state of a Solve where nothing is placed yet under a name on offer, enough tunnels that ask only for ports get one of them everything under that name, whatever the order of exits and claims |
| Colliding.LateUpdateCollides | pkg/controllers/state/synced.go:74-84 | a concrete run from nothing, with every update in order but one late, leaves two tunnels on one port: the sync check does not compare ports |
| WholeRun.StepInv | pkg/controllers/provisioning/provisioner.go:212-289 | every single step keeps the inductive invariant: the cache mirrors what it was shown, and a claim named after a live tunnel is that tunnel's or is being deleted |
| WholeRun.PassExclusive | pkg/controllers/provisioning/provisioner.go:219-269 | one Synced, Solve and persist pass leaves no shared port, whatever the order of cached exits, claims and tunnels, as long as no port in use may be given out again |
| WholeRun.TakenPortsFree | pkg/controllers/provisioning/scheduling/scheduler.go:186-219 | a binding that is persisted gets distinct ports, none of them held by a tunnel already assigned to that exit, as long as no port in use may be given out again |
| WholeRun.NewClaimOf | pkg/controllers/provisioning/scheduling/new_claim.go:18-30 | a new claim's name belongs to one pending tunnel, and is either unused or that of a claim being deleted |
| WholeRun.DoomedIsUsurped | pkg/controllers/provisioning/provisioner.go:226-250 | persisting refuses exactly the names a new claim took from a claim being deleted |
| WholeRun.PassOutcome | pkg/controllers/provisioning/provisioner.go:247-287 | after a pass a tunnel stands exactly as its one effective binding says, or where it stood |
| WholeRun.PassKeepsBound | pkg/controllers/provisioning/provisioner.go:194-210 | a pass never moves a tunnel that already has an exit |
| WholeRun.SyncedBindings | pkg/controllers/state/synced.go:74-118 | a passed sync check means the cache shows every assigned tunnel on its present exit, and no other |
| WholeRun.PendingTunnels | pkg/controllers/provisioning/provisioner.go:194-210 | the tunnels a pass works on are stored, unassigned and told apart by key and UID |
| ControlPlane.ForcedRemoval | pkg/controllers/exitclaim/lifecycle/controller.go:122-159 | removing a claim whose tunnels were not released keeps the invariant exactly when none is bound or its namesake tunnel is still bound to it |
| ControlPlane.FinalizeInv | pkg/controllers/exitclaim/lifecycle/controller.go:104-161 | a finalizer pass (mark, release any subset of the bound tunnels, or drop the claim once none is bound) keeps the invariant |
| Finalizer.Finalize | pkg/controllers/exitclaim/lifecycle/controller.go:104-161 | for every outcome of list, patches and provider: while a tunnel is bound and less than the claim's positive grace period (an hour without one) has passed since its deletion, the claim stays, the pass is not done, and every bound tunnel whose patch succeeds ends unassigned; otherwise no tunnel changes and the claim goes exactly when the provider lets go and the finalizer patch is stored |
| Finalizer.FinalizePassInv | pkg/controllers/exitclaim/lifecycle/controller.go:113-161 | a finalizer pass keeps the invariant exactly unless it removes the claim after the grace period with tunnels bound to it but not its namesake |
| Finalizer.TunnelsBoundTo | pkg/controllers/exitclaim/lifecycle/controller.go:163-175 | the tunnels assigned to the claim |
| Finalizer.ReleaseAll | pkg/controllers/exitclaim/lifecycle/controller.go:122-145 | releases every tunnel whose patch succeeds, a failed one stopping none of the others |
| ControlPlane.ObserveInv | pkg/controllers/state/cluster.go:93-153 | showing the cache any version of an object, or its absence, keeps the invariant, as long as IDs stay told apart |
| ControlPlane.ClaimStepInv | pkg/controllers/disruption/queue.go:70-124 | adding a claim no tunnel can mint, editing any field of a claim but its name, or deleting one keeps the invariant |
| Attribution.BindingsApart | pkg/controllers/provisioning/scheduling/scheduler.go:139-164 | two tunnels bound to one exit name in one Solve get disjoint ports, unless a new claim took the name of a claim being deleted |
| Attribution.BindingIsFree | pkg/controllers/provisioning/scheduling/scheduler.go:139-164 | a binding's ports are distinct and among those its name may give out before the Solve; a name not on offer is that of a new claim |
| Attribution.AddAllAttributed | pkg/controllers/provisioning/scheduling/scheduler.go:139-164 | throughout a Solve at most one open slot bears a name, apart from new claims that take the name of a claim being deleted |
| Readings.StartAttributed | pkg/controllers/provisioning/scheduling/scheduler.go:42-137 | rehydration from an agreeing cache starts with one slot per name on offer, free to give out exactly the allowed, unreserved ports not bound to that name |
| Draining.DrainedIsRemoved | pkg/controllers/exitclaim/lifecycle/controller.go:104-161 | once the finalizer has released all tunnels of a claim the cache does not show as unlaunched and still to be filled, no later run binds one to it unless an update reopens it, and the next finalizer pass removes it |
| Rebinding.MarkedIsRemoved | pkg/controllers/exitclaim/lifecycle/controller.go:105-112 | once the finalizer has released all tunnels of a claim the cache holds as launched, no later run binds one to it whichever versions of it updates show, before or after its deletion, as long as they keep its ID, and the next finalizer pass removes it |
| Rebinding.MarkHoldsOff | pkg/controllers/state/cluster.go:114-121 | a claim being deleted that the cache holds as launched stays drained over every run whose updates keep its ID, whichever of its versions they show, exactly when its exit is marked |
| Rebinding.DrainedThroughout | pkg/controllers/exitclaim/lifecycle/controller.go:104-161 | over any run from a gated claim with nothing bound, the claim stays drained at every point exactly when no update of the run reopens it |
| Draining.StepDrains | pkg/controllers/provisioning/scheduling/scheduler.go:98-137 | no step binds a tunnel to a gated claim, the gate stays while the claim exists unless an update reopens it, and the claim leaves only with nothing bound |
| Draining.ReopensExactly | pkg/controllers/state/cluster.go:93-130 | an update makes a claim that no Solve is offered an offered one exactly when it shows a copy that can be bound to, under an ID whose exit is not marked |
| Draining.FinalizeGates | pkg/controllers/exitclaim/lifecycle/controller.go:110-112 | a finalizer pass gates a claim exactly when the cache does not show it as unlaunched and still to be filled |
| Draining.OffersExactly | pkg/controllers/provisioning/scheduling/scheduler.go:63-137 | a Solve has an open exit or a claim to fill under a name exactly when the cached copy is offered (unlaunched and still to be filled, or launched and neither marked, deleting nor Disrupted) and it is Ready or its pool is known |
| Rebinding.DrainsExactly | pkg/controllers/exitclaim/lifecycle/controller.go:104-161 | a claim being deleted with nothing bound stays that way over every run without a reopening update exactly when a Solve is not offered it |
| Rebinding.FinalizeDrainsExactly | pkg/controllers/exitclaim/lifecycle/controller.go:104-161 | the tunnels a finalizer pass releases stay away over every run without a reopening update exactly unless the cache shows the claim as unlaunched and still to be filled |
| Rebinding.UngatedRebinds | pkg/controllers/provisioning/scheduling/scheduler.go:123-137 | a concrete run from nothing in which a claim is minted, bound to, shown once, deleted and finalized, and the next pass binds the released tunnel straight back |
| Draining.GatedRefuses | pkg/controllers/provisioning/scheduling/existing_exit.go:24-65 | every binding to a gated name is one that persisting refuses |
| Scheduler.Scheduler.Solve | pkg/controllers/provisioning/scheduling/scheduler.go:42-164 | the mutable Solve carries out Solving.Solve on the same reads, and hands out exactly the claims that do not exist yet, each minted for its first tunnel from the heaviest listed pool that yields one, the earliest listed of those |
| Preference.SolveMintsHeaviest | pkg/controllers/provisioning/scheduling/scheduler.go:275-281 | in every Solve, for each claim asked for: every listed pool that also yields a claim for its first tunnel weighs no more than its own, and those of equal weight stand later in the list |
| Preference.MintsHeaviest | pkg/controllers/provisioning/scheduling/scheduler.go:221-262 | a claim is minted from the heaviest listed pool that yields one, the earliest of equals, and none is minted exactly when no listed pool yields one |
| Preference.FirstExitTakes | pkg/controllers/provisioning/scheduling/scheduler.go:186-201 | the first exit that admits the tunnel takes it, whatever claims or pools could |
| Preference.LeastLoadedTakes | pkg/controllers/provisioning/scheduling/scheduler.go:203-219 | when no exit admits the tunnel, the claim being filled that takes it carries the fewest tunnels of this Solve among those that admit it, the earliest of equals |
| Preference.NewClaimLast | pkg/controllers/provisioning/scheduling/scheduler.go:176-184 | a claim is minted only when neither an exit nor a claim being filled admits the tunnel |
| Admission.ExitAdmitsExactly | pkg/controllers/provisioning/scheduling/existing_exit.go:24-65 | an exit takes a tunnel exactly when it is Ready, neither marked, deleting nor Disrupted, tolerates it, has room in every dimension it lists next to what this Solve placed, and can give one distinct allowed, unreserved and unused port per request |
| Admission.ClaimAdmitsExactly | pkg/controllers/provisioning/scheduling/inflight_claim.go:32-41 | a claim being filled takes a tunnel exactly when it tolerates it and can give such ports |
| Admission.MintsExactly | pkg/controllers/provisioning/scheduling/scheduler.go:221-262 | a pool yields a claim exactly when it tolerates the tunnel, is under every limit, has a type and offering to buy whose pins face no tunnel requirement from one side only, and allows the ports; the claim is named after pool and UID and narrowed to a cheapest pair |
| Admission.EligibleIsBuyable | pkg/controllers/provisioning/scheduling/offering.go:33-102 | a pair can be chosen exactly when both sides tolerate type and offering, the offering is available, and capacity less overhead covers the amounts |
| Admission.PinsAreFirst | pkg/controllers/provisioning/scheduling/offering.go:108-127 | the pins are exactly the first requirement on each key, the type's before the offering's |
| Scheduler.Scheduler.Add | pkg/controllers/provisioning/scheduling/scheduler.go:176-184 | existing exits first, then claims being filled, then a new claim; a failure is recorded under the tunnel's key |
| Scheduler.Scheduler.AddToExistingExit | pkg/controllers/provisioning/scheduling/scheduler.go:186-201 | first fit: the first exit that admits the tunnel takes it, and the binding names that exit and its ports |
| Scheduler.Scheduler.AddToInflightClaim | pkg/controllers/provisioning/scheduling/scheduler.go:203-219 | first fit over the claims re-sorted by load |
| Scheduler.Scheduler.AddToNewClaim | pkg/controllers/provisioning/scheduling/scheduler.go:221-262 | the first pool by weight that yields a claim, otherwise the last failure, with nothing changed |
| Scheduler.Scheduler.TryPool | pkg/controllers/provisioning/scheduling/scheduler.go:224-260 | one pool: tolerance, recorded limits, choice of instance, pinning, then the claim's own check |
| Scheduler.Scheduler.RehydrateAll | pkg/controllers/provisioning/scheduling/scheduler.go:63-137 | claims on their way to Ready come back once each, with the ports in use on them |
| Scheduler.Scheduler.Prepare | pkg/controllers/provisioning/scheduling/scheduler.go:42-137 | the records are reset and rebuilt from the cluster reads |
| Scheduler.Scheduler.SortByLoad | pkg/controllers/provisioning/scheduling/inflight_claim.go:57-61 | stable sort by the number of tunnels this Solve placed |
| Scheduler.ExistingExit.CanAdd | pkg/controllers/provisioning/scheduling/existing_exit.go:24-65 | admission by an exit: open, tolerant, room left after what this Solve placed, and free ports |
| Scheduler.ExistingExit.Add | pkg/controllers/provisioning/scheduling/existing_exit.go:69-77 | records the tunnel and its ports |
| Scheduler.InflightClaim.CanAdd | pkg/controllers/provisioning/scheduling/inflight_claim.go:32-41 | admission by a claim: tolerant and free ports, no resource check |
| Scheduler.InflightClaim.Add | pkg/controllers/provisioning/scheduling/inflight_claim.go:44-52 | records the tunnel and its ports |
| Scheduler.Scheduler.Rehydrate | pkg/controllers/provisioning/scheduling/scheduler.go:69-94 | adds a persisted claim once, if its pool is known |
| Scheduler.Scheduler.Wrap | pkg/controllers/provisioning/scheduling/scheduler.go:47-49 | one record per cached exit, with nothing placed |
| Scheduler.Scheduler.PlaceAll | pkg/controllers/provisioning/scheduling/scheduler.go:139-157 | places the tunnels one after another |
| Scheduler.Scheduler.Unsaved | pkg/controllers/provisioning/scheduling/scheduler.go:157-163 | exactly the claims that do not exist yet |
| Scheduler.Scheduler.FirstFittingExit | pkg/controllers/provisioning/scheduling/scheduler.go:186-201 | the first exit that admits the tunnel, and the ports it would get |
| Scheduler.Scheduler.FirstFittingClaim | pkg/controllers/provisioning/scheduling/scheduler.go:203-219 | the first claim being filled that admits the tunnel |
| Scheduler.Scheduler.NewClaimFromPool | pkg/controllers/provisioning/scheduling/new_claim.go:18-30 | a claim named after pool and UID with the pool template and nothing placed |
| Scheduler.InflightClaim.Pin | pkg/controllers/provisioning/scheduling/scheduler.go:236-243 | narrows the claim by the pins and records the amounts asked for |
| Ports.ClaimExplicit | pkg/controllers/provisioning/scheduling/ports.go:30-43 | takes the explicit ports out of the free set, or fails when one is not free or asked for twice |
| Ports.FillAutos | pkg/controllers/provisioning/scheduling/ports.go:47-54 | gives the automatic slots the smallest remaining ports in order |
| Ports.AddEntry | pkg/controllers/provisioning/scheduling/ports.go:60-82 | adds the ports of one allow entry |
| Ports.EntryAdmits | pkg/controllers/provisioning/scheduling/ports.go:59-90 | an entry "lo-hi", however padded with spaces, admits exactly the ports from lo to hi, and a single number exactly itself |
| Cluster.Cluster.AllocationsFor | pkg/controllers/state/cluster.go:301-322 | the ports bound to a claim, each held by a tunnel that lists it, for every scan order |
| Cluster.Cluster.NotePending | pkg/controllers/state/cluster.go:96-106 | an unlaunched claim is indexed and kept as pending |
| Cluster.Cluster.NoteLaunched | pkg/controllers/state/cluster.go:107-130 | a launched claim leaves pending, drops its former ID and is filed under its ID with rebuilt allocations |
| Cluster.Cluster.FileExit | pkg/controllers/state/cluster.go:114-121 | the record under the ID is reused, mark included, or made afresh |
| Cluster.Cluster.Rebuild | pkg/controllers/state/cluster.go:271-289 | rebuilds the exit a tunnel leaves and the one it joins |
| Cluster.Cluster.MoveBinding | pkg/controllers/state/cluster.go:265-293 | stores or removes the binding and rebuilds both exits |
| Synced.CheckClaims | pkg/controllers/state/synced.go:45-66 | every listed claim is indexed and every listed ID filed |
| Synced.CheckTunnels | pkg/controllers/state/synced.go:74-84 | every assigned tunnel is bound to that exit in the cache |
| Synced.CheckNames | pkg/controllers/state/synced.go:92-103 | every cached name is listed, and every cached ID |
| Synced.CheckBindings | pkg/controllers/state/synced.go:109-117 | every cached binding is listed with that exit |
| Consolidation.RemainingExits | pkg/controllers/disruption/methods/consolidation_sim.go:54-68 | one record per exit that has a claim, is no candidate and is not marked |
| Consolidation.MoveableTunnels | pkg/controllers/disruption/methods/consolidation_sim.go:71-85 | holds a tunnel exactly when a listed object that is not deleting and is assigned to one of the names carries it |
| Consolidation.PlaceFirst | pkg/controllers/disruption/methods/consolidation_sim.go:95-104 | puts a tunnel on the first exit that takes it |
| DisruptionPass.Queue.Launch | pkg/controllers/disruption/queue.go:91-101 | a prefix of creating every replacement and seeing all of them Ready; succeeds exactly when every creation does and all are Ready in time |
| DisruptionPass.Queue.AwaitReady | pkg/controllers/disruption/queue.go:188-226 | succeeds exactly when some round before the deadline finds every replacement Ready and no earlier round fails |
| DisruptionPass.Queue.Poll | pkg/controllers/disruption/queue.go:195-214 | one round passes exactly when every named replacement is Ready, and fails exactly when one cannot be read and none before it holds the round back |
| DisruptionPass.Queue.Remove | pkg/controllers/disruption/queue.go:103-122 | a prefix of marking and deleting (or sparing) each candidate in turn, and exactly those marks; succeeds exactly when no removal fails |
| Disruption.PairsOf | pkg/controllers/disruption/methods/multi_consolidation.go:59-80 | one pool: consumes pairs that yield a command, and changes no other pool's budget |
| SolveTheorems.SolveIsSafe | pkg/controllers/provisioning/scheduling/scheduler.go:42-164 | on every exit and claim of every Solve: placed ports are distinct, allowed, not reserved and not held before; explicit ports and requirements are honoured; requests placed on an exit sum within its allocatable in every listed dimension |
| SolveTheorems.SolvePartitions | pkg/controllers/provisioning/scheduling/scheduler.go:139-157 | every tunnel ends with exactly one binding or one error, never both |
| SolveTheorems.SolveIsFaithful | pkg/controllers/provisioning/scheduling/scheduler.go:186-262 | a binding is listed exactly when a slot of that name holds that placement |
| SolveTheorems.SolveIsMaximal | pkg/controllers/provisioning/scheduling/scheduler.go:186-201 | a tunnel not put on an existing exit fits on none of them even in the final state |
| SolveTheorems.CanAddAntitone | pkg/controllers/provisioning/scheduling/existing_exit.go:24-65 | an exit that turns a tunnel away still does so after more has been placed on it |
| SolveTheorems.SolveSprouts | pkg/controllers/provisioning/scheduling/scheduler.go:157-163 | every new claim carries a tunnel it was minted for, and narrows a pool to an eligible pair |
| SolveTheorems.SelectionAdmits | pkg/controllers/provisioning/scheduling/scheduler.go:224-248 | once a pool tolerates the tunnel and a pair is selected, the new claim refuses it only for ports, exactly unless a pin and a tunnel requirement form a one-sided pair |
| Ports.ResolveAutoAssign | pkg/controllers/provisioning/scheduling/ports.go:22-56 | computes Resolve on the allowed, unreserved and unused ports |
| Ports.ComputeFree | pkg/controllers/provisioning/scheduling/ports.go:59-90 | the free set: listed ranges less reserved and used ports |
| Ports.SortedKeys | pkg/controllers/provisioning/scheduling/ports.go:92-104 | the keys in ascending order, by an in-place insertion sort |
| Ports.InsertionSort | pkg/controllers/provisioning/scheduling/ports.go:97-102 | sorts the array in place, keeping its elements |
| Ports.ResolveSound | pkg/controllers/provisioning/scheduling/ports.go:22-56 | an answer is an injective assignment from the free ports that honours every explicit one |
| Ports.ResolveFailsExactly | pkg/controllers/provisioning/scheduling/ports.go:17-21 | no answer exactly when no such assignment exists |
| Ports.ResolveLeast | pkg/controllers/provisioning/scheduling/ports.go:41-55 | automatic ports increase in request order and skip no smaller free port that is not used elsewhere |
| Ports.ResolvePointwiseLeast | pkg/controllers/provisioning/scheduling/ports.go:41-55 | slot by slot, no increasing assignment uses a smaller port |
| Ports.ResolveMonotone | pkg/controllers/provisioning/scheduling/ports.go:22-56 | what resolves in a set of free ports resolves in every larger one |
| Resources.Subtract | pkg/controllers/provisioning/scheduling/resources.go:24-34 | removes requested amounts in the dimensions that are available |
| Resources.Sum | pkg/controllers/provisioning/scheduling/resources.go:37-51 | adds up by dimension |
| Resources.FitKeepsTotal | pkg/controllers/provisioning/scheduling/resources.go:10-34 | what fits the remainder keeps the running total within what was available |
| Resources.FitAntitone | pkg/controllers/provisioning/scheduling/resources.go:10-34 | taking more can only make fewer requests fit |
| Requirements.TableMeetsMeaning | pkg/controllers/provisioning/scheduling/requirements.go:36-130 | for every pair of requirements the operator table agrees with overlap of the admitted label values exactly outside the characterised corners |
| Requirements.CompatibleConcat | pkg/controllers/provisioning/scheduling/requirements.go:19-31 | compatibility distributes over list concatenation on both sides |
| Requirements.TableSymmetry | pkg/controllers/provisioning/scheduling/requirements.go:36-130 | which pairs the table accepts from one side only |
| Requirements.CompatibleSwap | pkg/controllers/provisioning/scheduling/requirements.go:19-31 | compatibility carries over to the swapped lists exactly when no one-sided pair shares a key |
| Offerings.SelectInstanceType | pkg/controllers/provisioning/scheduling/offering.go:33-81 | computes Select on the pool's catalog |
| Offerings.CheapestCompatibleOffering | pkg/controllers/provisioning/scheduling/offering.go:83-102 | the first of the cheapest offerings that fit |
| Offerings.SelectIsOptimal | pkg/controllers/provisioning/scheduling/offering.go:33-81 | the selected pair is eligible and no eligible pair is cheaper; none is selected exactly when none is eligible |
| Offerings.SelectIsFirst | pkg/controllers/provisioning/scheduling/offering.go:33-102 | of all the cheapest pairs that fit, the first offering of the first type in the catalog is selected |
| Offerings.PinChosen | pkg/controllers/provisioning/scheduling/offering.go:108-127 | the first requirement of each key of the chosen pair |
| Offerings.PinnedStillCompatible | pkg/controllers/provisioning/scheduling/offering.go:104-127 | the narrowed template still tolerates the tunnel exactly when no pin meets a one-sided requirement |
| Ordering.SortedIsPermutation | pkg/controllers/provisioning/scheduling/scheduler.go:277-281 | the stable sort rearranges its input into ascending key order, and equal keys keep their order |
| Provisioner.ApiServer.PersistResults | pkg/controllers/provisioning/provisioner.go:212-289 | the claims afterwards are the old ones unchanged and one per new name; each tunnel bound under a name not held by a claim being deleted stands as its binding says, one that failed and was Pending is Allocating, and every other is as it was |
| Provisioner.ApiServer.CreateClaims | pkg/controllers/provisioning/provisioner.go:219-246 | creates absent claims and collects the names held by claims being deleted |
| Provisioner.ApiServer.PatchBindings | pkg/controllers/provisioning/provisioner.go:247-269 | each binding overwrites its tunnel unless the tunnel is gone or the claim was refused |
| Provisioner.ApiServer.PatchErrors | pkg/controllers/provisioning/provisioner.go:270-287 | a tunnel without a phase becomes Allocating, in any visiting order |
| Provisioner.ListPendingTunnels | pkg/controllers/provisioning/provisioner.go:194-210 | the undeleted tunnels without an exit or still Allocating |
| Provisioner.CreatedKeeps | pkg/controllers/provisioning/provisioner.go:219-246 | existing claims are left alone and every new name ends up taken |
| Provisioner.BindAllAt | pkg/controllers/provisioning/provisioner.go:247-269 | a tunnel bound at most once ends exactly as its binding says, all others as they were |
| Cluster.Cluster.UpdateExit | pkg/controllers/state/cluster.go:93-130 | the in-place update is Cache.AfterUpdateExit, and every recorded port holder stays a tunnel bound to that claim with that port |
| Cluster.Cluster.DeleteExit | pkg/controllers/state/cluster.go:132-153 | removes the claim from index, exits and pending; port holders stay true |
| Cluster.Cluster.UpdateTunnelBinding | pkg/controllers/state/cluster.go:265-293 | binds, moves or unbinds a tunnel and rebuilds both exits; in a cache whose index finds its exits, port holders stay true |
| Cluster.Cluster.DeleteTunnelBinding | pkg/controllers/state/cluster.go:295-297 | deleting a binding is unbinding; in a cache whose index finds its exits, port holders stay true |
| Cluster.Cluster.RecomputeAllocations | pkg/controllers/state/cluster.go:301-322 | allocations become exactly the ports bound to the claim, each held by a tunnel that lists it |
| Cluster.Cluster.PortsForClaimName | pkg/controllers/state/cluster.go:189-202 | the ports bound to a claim name |
| Cluster.Cluster.MarkExitForDeletion | pkg/controllers/state/cluster.go:342-357 | marks the exit of a launched claim, and does nothing for others; port holders stay true |
| Cluster.Cluster.Receive | pkg/controllers/state/cluster.go:93-153 | each event takes the cache through its step, and port holders stay true |
| Cluster.MirrorsIndex | pkg/controllers/state/cluster.go:93-322 | a cache in agreement with what it was shown finds every exit through its claim's name, and every binding names an exit |
| Cluster.Play | pkg/controllers/state/cluster.go:93-322 | after every admissible run of events the cache agrees with the last versions shown, and each port of each exit is held by a tunnel bound there with that port |
| Cache.StepKeepsAgreement | pkg/controllers/state/cluster.go:93-153 | an event keeps the cache in agreement with the last-seen maps exactly when no ID reverts to empty and none is shared |
| Cache.RunAgrees | pkg/controllers/state/cluster.go:93-322 | after every admissible run a name is pending exactly when it has no ID, IDs and exits correspond one to one, and each exit lists exactly the ports bound to its claim |
| Cache.OrderIndependent | pkg/controllers/state/cluster.go:93-322 | two admissible runs with the same last event per claim and per tunnel leave the same cache, marks aside |
| Cache.RevertOrphans | pkg/controllers/state/cluster.go:96-106 | an ID that reverts to empty leaves an exit no claim owns |
| Cache.SharedOverwrites | pkg/controllers/state/cluster.go:114-121 | an ID shared by two claims makes one exit stand for both |
| Cache.MarkSurvivesUpdate | pkg/controllers/state/cluster.go:114-121 | an update keeps the deletion mark exactly when it keeps the ID |
| Cache.MarkKept | pkg/controllers/state/cluster.go:342-357 | no event about anything else removes a deletion mark |
| Cache.MarkNotSpread | pkg/controllers/state/cluster.go:342-357 | no event about anything else adds a deletion mark |
| Synced.Synced | pkg/controllers/state/synced.go:27-119 | the check passes exactly when cache and listing agree in both directions |
| Synced.SyncedMeansCaughtUp | pkg/controllers/state/synced.go:10-26 | for a well-indexed cache, passing with agreeing ID owners is the same as equal name-to-ID maps, exit IDs, pool names and tunnel assignments |
| Synced.PortsUnchecked | pkg/controllers/state/synced.go:74-84 | two caches that differ only in the ports of their bindings pass or fail the check together, for every listing |
| Consolidation.CanRepack | pkg/controllers/disruption/methods/consolidation_sim.go:39-108 | answers yes exactly when every Solve of the tunnels to move, with the candidates' exits cordoned, puts each of them on an existing exit; to move are the stored tunnels that are not deleting and whose exit name is that of some candidate's claim |
| Consolidation.MoveableAre | pkg/controllers/disruption/methods/consolidation_sim.go:71-85 | the tunnels to move are, in list order, exactly the undeleted ones assigned to a claim of some candidate |
| Consolidation.RepackAnswers | pkg/controllers/disruption/methods/consolidation_sim.go:39-108 | what CanRepack says, for the value it computes |
| Consolidation.SimulationIsScheduling | pkg/controllers/disruption/methods/consolidation_sim.go:95-107 | the simulation succeeds exactly when a Solve of the moved tunnels with the candidates cordoned puts each on an existing exit; then every tunnel lands on the same exit with the same ports and no claim is touched or minted |
| Consolidation.KeptFirst | pkg/controllers/provisioning/scheduling/scheduler.go:186-201 | first fit ignores exits that turn everything away |
| Replacement.CanRepackWithReplacement | pkg/controllers/disruption/methods/consolidation_sim.go:131-219 | computes PlanFor: price, combined demand, selection, strict saving, ports |
| Replacement.PlanIsSound | pkg/controllers/disruption/methods/consolidation_sim.go:131-219 | a plan is strictly cheaper than the candidates together, uses the cheapest pair that suits the pool and the combined requirements, covers by capacity less overhead the total requests of the undeleted tunnels assigned to a candidate, and gives each of them admissible ports of its own |
| Replacement.PlansExactly | pkg/controllers/disruption/methods/consolidation_sim.go:131-219 | a plan exists exactly when catalog and pool are known, there are at least two candidates, all have prices, some pair suits and its cheapest costs strictly less than they do, and every displaced tunnel gets its ports |
| Replacement.CostsAddUp | pkg/controllers/disruption/methods/consolidation_sim.go:165-176 | the cost of two groups of candidates together is the sum of their costs, and there is none when either has none |
| Replacement.OneCosts | pkg/controllers/disruption/methods/consolidation_sim.go:165-176 | one candidate costs its claim's price; one without a claim costs nothing |
| Replacement.CatalogIsFirst | pkg/controllers/disruption/methods/consolidation_sim.go:225-250 | the price is that of the first available offering sold in the region, of the first type of that name that has one |
| Replacement.PinnedIsFirst | pkg/controllers/disruption/methods/consolidation_sim.go:252-263 | the pinned value is the first value of the first In requirement on the key that lists any |
| Replacement.PackFailsExactly | pkg/controllers/disruption/methods/consolidation_sim.go:318-336 | packing fails exactly when, after the tunnels before it, some tunnel has no admissible assignment of ports left |
| Replacement.PriceIsListed | pkg/controllers/disruption/methods/consolidation_sim.go:225-250 | a claim has a price exactly when its pinned size and region are on sale, and then a listed one |
| Replacement.AggregatePrice | pkg/controllers/disruption/methods/consolidation_sim.go:165-176 | the candidates' prices added up, or nothing when one has none |
| Combining.CombineRequirements | pkg/controllers/disruption/methods/consolidation_sim.go:276-293 | the first requirement of each key and operator |
| Combining.CoveredStands | pkg/controllers/disruption/methods/consolidation_sim.go:276-293 | the combined list stands for every tunnel's own when the kept requirement of each key and operator covers the dropped ones |
| Combining.CoversExactly | pkg/controllers/disruption/methods/consolidation_sim.go:276-293 | a kept requirement covers a dropped one of its key and operator (by values or bound) exactly when it accepts nothing the other refuses |
| Combining.StandsExactly | pkg/controllers/disruption/methods/consolidation_sim.go:276-293 | the combined list stands for every tunnel's own exactly when it refuses a few listed probes of each requirement |
| Combining.UncoveredIsLost | pkg/controllers/disruption/methods/consolidation_sim.go:284-288 | a dropped requirement whose kept one is alone on its key and does not cover it is lost: some requirement suits the combined list and violates the tunnel's |
| Replacement.CanPackOntoNewClaim | pkg/controllers/disruption/methods/consolidation_sim.go:318-336 | answers whether tunnel after tunnel resolves its ports on the replacement |
| Replacement.PackPortsApart | pkg/controllers/disruption/methods/consolidation_sim.go:318-336 | the resolved ports are admissible for each tunnel and disjoint between tunnels |
| DisruptionPass.Reconcile | pkg/controllers/disruption/controller.go:60-111 | methods are tried in the listed order, each on what it proposes for its eligible candidates; every one before the one that fires had all its commands rejected, and that one had one accepted; it leaves, unless forceful, no pool with more marked exits than it had or its tightest active budget allows, and every newly marked exit was valid when checked; if none fires nothing is marked |
| DisruptionPass.Consider | pkg/controllers/disruption/controller.go:72-91 | a method's commands are those it proposes for exactly the candidates it may disrupt, each of their pools limited to its ceiling less its marked exits, a forceful method not at all |
| DisruptionPass.RunCommands | pkg/controllers/disruption/controller.go:89-104 | rejected commands are skipped, a failed one ends the pass, and every exit newly marked is a candidate that was valid to disrupt when its command was checked |
| DisruptionPass.ComputeBudgets | pkg/controllers/disruption/controller.go:116-135 | one budget per candidate pool for the method's reason; none for a forceful method |
| DisruptionPass.Validate | pkg/controllers/disruption/validation.go:16-52 | accepts exactly the commands with candidates that are all cached with a claim, undeleted, unannotated, unmarked and, for emptiness, still empty |
| DisruptionPass.Queue.Enqueue | pkg/controllers/disruption/queue.go:70-124 | the effects are a prefix of the full script, the whole of it on success, success comes exactly when nothing needed fails, and exactly the Marked names in the effects become marked |
| DisruptionPass.Queue.Cordon | pkg/controllers/disruption/queue.go:130-162 | retries once after a conflict; the exit is cordoned, or excused when gone or terminating, or nothing happened |
| DisruptionPass.RemovalComesLast | pkg/controllers/disruption/queue.go:57-69 | however far a command gets, an exit is marked or deleted only after every candidate is cordoned or excused and every replacement is Ready, and marked before deleted |
| DisruptionPass.LaunchesComeBetween | pkg/controllers/disruption/queue.go:57-69 | no replacement is created before every candidate is cordoned or excused, and all are created before they are Ready |
| DisruptionPass.MarkMany | pkg/controllers/disruption/budgets.go:127-142 | marking some exits raises a pool's count by at most how many of them it lists |
| Commands.ComputeCommands | pkg/controllers/disruption/types.go:25-27 | every method stays within every pool's budget and touches only eligible exits; Emptiness, Drift and Expiration give each pool with eligible exits and budget exactly one command, its first exits as many as allowed, with no replacement for Emptiness and one from its own pool per exit for the others; Single and Multi pass an exit or pair over only for want of budget or when the simulator refuses it |
| Commands.CappedIsOnePerPool | pkg/controllers/disruption/methods/drift.go:63-97 | each pool with eligible exits and a positive budget has exactly one command, holding its first exits, as many as the budget allows; with replacements, one from the pool per exit |
| Commands.ScanTakesSingles | pkg/controllers/disruption/methods/single_consolidation.go:45-76 | an exit is taken exactly when its tunnels fit elsewhere and fewer of its pool were taken before it than the budget allows |
| Commands.PairedTakesPairs | pkg/controllers/disruption/methods/multi_consolidation.go:44-82 | in each pool, a pair of neighbours is taken exactly when its first is not the second of a pair, the budget covers two more, and they fit elsewhere (then without replacement) or on the cheaper claim proposed (then with it) |
| Disruption.CapPerPool | pkg/controllers/disruption/methods/drift.go:63-97 | one command per pool with budget: its first candidates, as many as allowed |
| Disruption.CappedWithin | pkg/controllers/disruption/methods/emptiness.go:48-76 | the per-pool generators stay within budget |
| Disruption.ComputeSingle | pkg/controllers/disruption/methods/single_consolidation.go:45-76 | each candidate in turn while its pool has budget and its tunnels fit elsewhere |
| Disruption.SingleWithin | pkg/controllers/disruption/methods/single_consolidation.go:53-74 | single-exit consolidation stays within budget |
| Disruption.ComputeMulti | pkg/controllers/disruption/methods/multi_consolidation.go:44-82 | neighbouring pairs of each pool, two off the budget for each command |
| Disruption.PairsWithin | pkg/controllers/disruption/methods/multi_consolidation.go:59-80 | pairwise consolidation stays within budget |
| Budgets.GetAllowedDisruptionsByReason | pkg/controllers/disruption/budgets.go:30-58 | the ceiling less ongoing disruptions, never negative |
| Budgets.TightestDecides | pkg/controllers/disruption/budgets.go:18-19 | the smallest active budget decides; none exactly when none is active |
| Budgets.CronWindows | pkg/controllers/disruption/budgets.go:76-95 | a scheduled budget is active exactly within a window of some fire, however close the fires are |
| Budgets.PercentShare | pkg/controllers/disruption/budgets.go:97-105 | a percentage is the floor of the pool's share exactly when the product fits 64 bits |
| Budgets.CountMeans | pkg/controllers/disruption/budgets.go:97-111 | a plain count, however padded, allows itself, a negative count or percentage nothing, and a percentage the floor of the share that fits |
| Budgets.UnreadableAllowsNothing | pkg/controllers/disruption/budgets.go:97-111 | text that is neither a number nor a percentage of one allows nothing |
| Budgets.ActiveExactly | pkg/controllers/disruption/budgets.go:60-95 | a budget applies exactly when it lists the reason or none, and has no schedule or is within its duration after some fire |
| Budgets.DefaultCeiling | pkg/controllers/disruption/budgets.go:30-58 | with no active budget a pool may have a tenth of its exits disrupted, at least one |
| Budgets.CountsAre | pkg/controllers/disruption/budgets.go:113-142 | the two counts are the sizes of the sets of the pool's exits and of its marked exits |
| Budgets.CountExitsInPool | pkg/controllers/disruption/budgets.go:113-125 | how many exits belong to the pool |
| Budgets.CountDisruptingInPool | pkg/controllers/disruption/budgets.go:127-142 | how many of them are marked |
| Lifecycle.Controller.Reconcile | pkg/controllers/exitclaim/lifecycle/controller.go:80-101 | one pass over a claim that is not being deleted is AfterPass for every combination of provider, probe and write outcomes, and asks the provider exactly when CallsProvider says so |
| Lifecycle.Controller.Launch | pkg/controllers/exitclaim/lifecycle/launch.go:36-75 | what the launch phase stores and whether the pass ends there, for every provider and write outcome, and that it counts the provider call |
| Lifecycle.Controller.Register | pkg/controllers/exitclaim/lifecycle/registration.go:27-70 | what the registration phase stores and whether the pass ends there, for every probe and write outcome |
| Lifecycle.Controller.Initialize | pkg/controllers/exitclaim/lifecycle/initialization.go:20-31 | what the initialization phase stores, and that the pass goes on only after a stored write |
| Lifecycle.Controller.Liveness | pkg/controllers/exitclaim/lifecycle/liveness.go:86-113 | what the liveness phase stores: probing a Ready claim, the deadline for an unregistered one, nothing otherwise |
| Lifecycle.Controller.RecordFailure | pkg/controllers/exitclaim/lifecycle/liveness.go:144-169 | counts a failed probe and, at the threshold, clears Ready and sets Disrupted |
| Lifecycle.Controller.RecordSuccess | pkg/controllers/exitclaim/lifecycle/liveness.go:173-183 | a good probe clears the counter annotation if there is one and the write is accepted |
| Lifecycle.ChainHolds | pkg/controllers/exitclaim/lifecycle/controller.go:83-101 | after every run Ready implies Initialized implies Registered implies Launched, and the last three, Disrupted and the provider ID are never reset |
| Lifecycle.ProviderIsGuarded | pkg/controllers/exitclaim/lifecycle/controller.go:76-81 | the provider is asked only while the finalizer is present and never after a launch was stored |
| Lifecycle.LaunchedExactly | pkg/controllers/exitclaim/lifecycle/launch.go:36-75 | over every run a claim is Launched exactly when some pass met it undeleted with its finalizer, the provider was known and created the exit and the write was stored; ID and address are then those the provider reported in that pass |
| Lifecycle.RegisteredExactly | pkg/controllers/exitclaim/lifecycle/registration.go:27-70 | over every run a claim is Registered exactly when some pass met it launched, undeleted, with its finalizer and a public address, the probe answered and the write was stored |
| Lifecycle.InitializedExactly | pkg/controllers/exitclaim/lifecycle/initialization.go:20-31 | over every run a claim is Initialized exactly when some pass met it registered, undeleted, with its finalizer, and the write was stored |
| Lifecycle.OthersExactly | pkg/controllers/exitclaim/lifecycle/controller.go:70-81 | over every run a claim is being deleted exactly when someone deleted it, and has its finalizer exactly when some pass over it undeleted added it |
| Transitions.FailedExactly | pkg/controllers/exitclaim/lifecycle/launch.go:36-75 | over every run Launched reads False exactly when some stored attempt failed and none ever succeeded, and Registered likewise for probes of a launched claim with an address |
| Transitions.SinceIsLastChange | pkg/controllers/exitclaim/lifecycle/conditions.go:18-26 | over every run the transition time of each condition but Ready is that of the last event that changed its status; Ready alone can be set and cleared within one pass |
| Lifecycle.CounterCounts | pkg/controllers/exitclaim/lifecycle/liveness.go:185-195 | the annotation always reads as the number of failed probes since the last good one |
| Lifecycle.DisruptedBy | pkg/controllers/exitclaim/lifecycle/liveness.go:141-169 | a pass makes a claim Disrupted exactly when it records a failed probe that reaches the threshold |
| Lifecycle.DisruptedAtThreshold | pkg/controllers/exitclaim/lifecycle/liveness.go:141-169 | over undisturbed runs a claim is Disrupted exactly when the trailing failed probes have reached the threshold at some point |
| Lifecycle.DeadlineIgnored | pkg/controllers/exitclaim/lifecycle/liveness.go:94-112 | the registration deadline never changes what a pass does |
| Lifecycle.DeadlineExactly | pkg/controllers/exitclaim/lifecycle/liveness.go:86-113 | taken alone, the deadline check disrupts and deletes a launched claim that is not Ready exactly when it is unregistered, its launch is dated, and the TTL (15 minutes when not set) has passed, as far as the writes are accepted |
| Lifecycle.ReadyComesBack | pkg/controllers/exitclaim/lifecycle/initialization.go:24-31 | Ready cleared by liveness is set back by the next pass exactly when its initialization is stored, unless the same pass stores another failed probe at the threshold |
| Conditions.Resource.PatchCondition | pkg/controllers/conditions/conditions.go:78-128 | the chosen patch applied to the stored array, or a failure that changes nothing |
| Conditions.WritersNeverClobber | pkg/controllers/conditions/conditions.go:1-10 | for every order of commits and every stale read, kinds stay unique and in place and each stands at its owner's last value |
| Conditions.WriteEffect | pkg/controllers/conditions/conditions.go:60-77 | a write always applies, sets its own entry and keeps every other |
| Conditions.InitClobbers | pkg/controllers/conditions/conditions.go:94-107 | a write from an empty read keeps the others' entries exactly when there are none |
| Conditions.TransitionMoves | pkg/controllers/conditions/conditions.go:27-58 | the transition time moves exactly when the status does |
| Batcher.NoLostWakeUp | pkg/controllers/provisioning/batcher.go:39-92 | in every interleaving of split triggers with the consumer, pending keys mean a queued token, a trigger midway, or a consumer yet to drain |
| Batcher.TriggeredIsDrained | pkg/controllers/provisioning/batcher.go:39-92 | every triggered key is in a later drain or still pending |
| Batcher.PendingIsReachable | pkg/controllers/provisioning/batcher.go:52-92 | whatever is pending can be drained by steps already due, without a further trigger |
| Batcher.BailStrands | pkg/controllers/provisioning/provisioner.go:71-78 | returning early when the cache is not in sync can leave a key pending with nobody to wake the consumer |
| Batcher.Batcher.Insert | pkg/controllers/provisioning/batcher.go:39-42 | the first half of a trigger: the key becomes pending, as that step of the interleaving |
| Batcher.Batcher.Signal | pkg/controllers/provisioning/batcher.go:43-46 | the second half: a token is queued, at most one |
| Batcher.Batcher.Drain | pkg/controllers/provisioning/batcher.go:83-92 | every pending key once, and nothing stays pending |
| Batcher.Batcher.Collect | pkg/controllers/provisioning/batcher.go:63-79 | a further token is absorbed, or the window ends |
| Batcher.Play | pkg/controllers/provisioning/batcher.go:39-92 | played through the code, every orderly interleaving hands out or keeps pending exactly the keys triggered, and what is pending is attended to |
| Strconv.AtoiItoa | pkg/controllers/exitclaim/lifecycle/liveness.go:144-195 | reading back a written counter yields it |

## Left out

- Exit pools in the cache: only their names matter to the sync check, and the pool records a Solve reads are parameters.
- Lists that lag: the sync check, a pass and the finalizer list the API server's present objects, while the wired client may read an older store.
- Kubernetes plumbing, watches, indexers, flags and the wiring of controllers: input and output without decisions.
- Cloud providers, the frps admin client and rendering of configuration: their answers are parameters.
- Hashing and JSON encoding: names and hashes are opaque values.
- Concurrent changes during one Solve: the code re-reads each exit whenever it tries it, the model reads it once.
- An allowed port range that ends at the largest integer: the loop over it never ends in the code, and the model leaves out that input's non-termination.
- Errors carry no text: only which kind of failure a tunnel met is modelled.
- Requests already placed on an exit before a Solve: the code does not count them, so the model proves nothing about them.
- Pool usage charged within one Solve: the code compares limits with recorded usage only.
- Preference relaxation, which never relaxes anything yet.
- Joint feasibility of several consolidation commands in one pass: each is judged alone by the code.
- The dedup key of combined requirements joins key and operator with a bar, which label keys cannot contain; the model uses the pair.
- Gathering and eligibility filters of disruption candidates, and the names of replacement claims: any filter and any fresh names are allowed.
- Budget schedules come from a cron library; the model takes the next-fire function, and a schedule without a next fire is not part of this model.
- Lifecycle.Controller.Reconcile: a claim being deleted is left as it is here and finalized in Finalizer, and status patches are not merged with concurrent writers.
- SolveTheorems.SolveIsMaximal: requests are taken to be non-negative; with a negative request, placing more could make room.
- SolveTheorems.SolvePartitions: tunnel keys are taken to be distinct, as the API server keeps them.
- Lifecycle.CounterCounts: runs are no longer than the largest 64-bit count, past which the counter wraps.
- Consolidation.CanRepack: the error text naming the first tunnel that does not fit is not modelled.
- The emptiness, readiness, validation and service-watcher controllers, counters, charts and benchmarks: no property beyond the ones here.
- Batcher timers: the window may end at any time.
