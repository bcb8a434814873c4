# A verified model of the Lima provider's core

This project models, in Dafny, the parts of the Terraform provider for Lima that
decide what happens to virtual machines: the keyed lock and everything that runs
under it, the reconciliation of declared configuration with what Lima reports,
the generated Lima document, size arithmetic, the bookkeeping of an update, the
sweep, and the environment handed to `limactl`.  `dafny verify dfyconfig.toml`
checks all of it.

## How it is organised

| file | what it is about |
|---|---|
| `Locks.dfy` | the refcounted lock table as a transition system over any number of Lock calls, and as the mutable object whose atomic sections are those transitions |
| `Fleet.dfy` | creates, resizes, starts, stops, protection changes, deletes and disk operations of any number of goroutines against one home, as program counters |
| `Composition.dfy` | `Fleet` with its locks taken from the table of `Locks` |
| `Progress.dfy` | that over the table too nothing deadlocks, every run ends and nothing is left |
| `Agreement.dfy` | a resize among others against the contract of a resize on its own |
| `Lima.dfy` | what each `limactl` command may do to a home, when it succeeds and when it fails |
| `Lifecycle.dfy` | the operations themselves, as methods that issue commands against a mutable home |
| `KeyedMerge.dfy`, `Reconcile.dfy`, `Refresh.dfy` | the list merge, the planned edit, and the refresh that follows |
| `InstanceUpdate.dfy` | the provider's Update |
| `Sweep.dfy` | emptying a home |
| `Documents.dfy`, `Ordering.dfy` | the document: merging, clears, layers, key order |
| `Environment.dfy` | the process environment |
| `Sizes.dfy`, `Floats.dfy` | sizes, and floating point as exact integers rounded to nearest, ties to even |
| `Findings.dfy` | concrete inputs at which a property fails |
| `Paths.dfy`, `Values.dfy` | path cleaning and comparison; attribute values |

`Lifecycle` looks at one caller at a time and lets every command, read and wait
fail.  `Fleet` has the same control flow cut into atomic steps.  For a resize
`Agreement.ResizeAgrees` connects the two: among any other operations it issues
only what the contract of `Lifecycle.Service.Resize` allows for the instance it
found when it took the lock.  `Fleet` takes a lock to have one owner at most;
`Composition.Refines` shows that every run over the real lock table is such a run, so
that what `Fleet` excludes cannot happen with that table either.  That something can
always happen there, where registering and giving up a reference are steps of their
own, and that every run comes to an end that leaves the table empty, is proved in
`Progress`.

## What the proofs found

Each comes with a lemma at a concrete input, in `Findings.dfy`.

- A mount declared without `mount_point` that Lima has mounted somewhere else
  makes a difference that no apply removes: the comparison before an edit accepts
  any mount point when none is asked for, while refresh reports the actual one
  (`Findings.DriftedMount`, and `Refresh.DriftedMountPointStays` for any number of
  rounds).
- Two declared mounts whose locations differ as texts but mean one place, such as
  /a and /private/a, pass the check for duplicates
  (`internal/provider/instance_resource.go:518`).  Refresh compares both with
  Lima's mount for the first, so if they differ the plan never becomes clean
  (`Findings.ContradictingMounts`).  `Refresh.MountsPlanClean` has the exact
  condition for every declared list, and `Refresh.AppliedMountsPlanClean` the exact
  condition on the list alone after an edit.
- Two declared forwards of one guest port and protocol with different `guest_ip`
  pass the check for duplicates (`internal/provider/instance_resource.go:479`).
  Refresh compares both with the first, so with different host ports the plan never
  becomes clean, and no apply edits anything (`Findings.DoubledForward`,
  `Refresh.DoubledForwardStays`).  `Refresh.AppliedForwardsPlanClean` has the exact
  condition on the declared list alone, over all host ports Lima may pick:
  every entry that sets a host port sets the one that the first entry for its guest
  port sets.
- An update that fails after its edit, at protecting again, at reading back or at
  rendering, leaves the old cpus, memory, disk and lists in state although the edit
  is in effect (`Findings.StaleCpus`).  Only a failed restart is handled.
  `InstanceUpdate.ConfigurationRecorded` gives, for every exit, the exact condition
  on the plan, the recorded state and what Lima has before the update.
- A resize to a size that the `--memory` and `--disk` flags cannot carry is noticed
  only after a running machine has been stopped for it
  (`internal/lima/lifecycle.go:420-437`, `internal/lima/commands.go:70-82`): no edit
  is made and the machine stays down.  The schema lets such a size pass, since it
  asks for a positive number of bytes only; 1073741825B is one
  (`Findings.StoppedInVain`).  `Lifecycle.StoppedForNothing` has the exact condition:
  a size that is no flag, or a smaller disk.
- Changing only `guest_ip` or `host_ip` of a declared port forward causes no edit,
  because the comparison ignores addresses; the new addresses reach Lima only
  along with an edit of the forwards that something else causes
  (`Findings.ChangedAddress`, `Reconcile.AddressChangeNotApplied`).
- `ParseSize(FormatSize(n)) == n` fails when the printed number needs more than
  53 significant bits, first at 2^53 + 1 bytes (`Findings.OddSize`);
  `Sizes.FormatThenParse` and `Sizes.RefreshThenPlan` give the exact condition for
  it and for what refresh and planning build on it.
- State can misreport protection after an update that changed it, when the plan
  cannot be rendered (`Findings.UnrenderablePlan`: an instance defined by its cpus
  and the overrides `mounts: []`, when the cpus are removed and protection changes
  in one update), and when protection was lifted and a size does not parse
  (`Findings.UnreadableSize`).  The schema refuses sizes that do not parse, so the
  second does not come up.  `InstanceUpdate.RecordedExactly` is an if and only if
  over all ways the calls can come out.
- `mergeMaps` is not associative (`Findings.HealedMapping`);
  `Documents.MergeAssociatesExactly` says exactly for which layers it is.
- The layered lookup that `buildEnv` is described by holds for every key exactly
  when no caller-supplied key is empty or contains `=`
  (`Environment.ProcessSeesExactly`, `Findings.EqualsSignInKey`).
- A negative number of cpus or bytes is compared but never passed to Lima, so a
  resize asking for one is never settled (`Findings.NegativeCpus`); this is the
  exact condition of `Reconcile.ResizeSettles`.  The schema refuses numbers below
  one and sizes that are not positive, so this does not come up either.
- The comment at `internal/lima/sweep.go:85` says that protection is removed
  unconditionally; the code does it for instances listed as protected, and so does
  the model.

## Assumptions

- Nobody else changes the home.  Any command may fail.  A failed command changes
  nothing, except that a failed start may leave the machine running (Lima's
  degraded start) and a failed create may leave a broken instance registered.
- The home remembers, for the proofs only, whether anything went wrong that could
  have gone right (`trouble`): a read, a command whose conditions hold, a wait, a
  validation, or a lock not granted because the caller's time ran out.  The
  contracts say what every operation guarantees regardless, and exactly how it
  ends when there was no trouble.
- Lima resolves what an edit writes as its contract document describes: a mount
  may be respelled and gets its location as mount point when none is given, a
  forward gets a host port and addresses when none are given.
- A command has its effect at once, as in the fake.  In `Fleet` a wait therefore
  ends with its first look, and every run is finite; in `Lifecycle` a wait is a
  bounded number of looks ending in success, failure or expiry.  How long one takes
  is not modelled.
- The shortest decimal printed for a float32 reads back as that float32.
  Converting a float outside the range of int64 gives what amd64 gives.
- `filepath.Clean` is the Unix one.  Case folding of protocol names is ASCII.
- Strings are sequences of code points, and comparing those agrees with comparing
  UTF-8 bytes.

## Model

| member | source | states |
|---|---|---|
| Locks.StepKeeps | internal/lima/locks.go:53-96 | every atomic step of Lock, cancellation and unlock keeps: one entry per key in use, reference count equal to the number of interested calls, token in the channel or with the one owner |
| Locks.Reached | internal/lima/locks.go:53-96 | so it holds in every state of every interleaving of any number of calls on any keys |
| Locks.OneEntryPerKey | internal/lima/locks.go:58-68 | calls interested in one key share one entry although entries are deleted and made again |
| Locks.AtMostOneOwner | internal/lima/locks.go:53-96 | mutual exclusion in every reachable state |
| Locks.EntryExistsWhileWanted | internal/lima/locks.go:58-79 | a key is in the map exactly while some call is interested in it, and the count is the number of those calls |
| Locks.OwnerCanReturn | internal/lima/locks.go:83-91 | unlock's send never blocks |
| Locks.WaiterCanAcquire | internal/lima/locks.go:81-93 | a waiter can take the token exactly when nobody owns its key |
| Locks.SomebodyMoves | internal/lima/locks.go:53-96 | while any call is unfinished some call can make progress without a cancellation |
| Locks.NothingLeaks | internal/lima/locks.go:72-79 | the map is empty once all calls have finished |
| Locks.RefinesOwners | internal/lima/locks.go:53-96 | seen from outside, the table is one optional owner per key |
| Locks.KeyedMutex.Register | internal/lima/locks.go:58-68 | the first mutex section is the table operation the invariant is proved for, entries compared by identity |
| Locks.KeyedMutex.Receive | internal/lima/locks.go:81-83 | takes the token and nothing else |
| Locks.KeyedMutex.Send | internal/lima/locks.go:86-88 | puts the token back and nothing else |
| Locks.KeyedMutex.Release | internal/lima/locks.go:72-79 | drops the reference, and the key with the last one |
| Locks.Unlocker.Call | internal/lima/locks.go:83-91 | the returned function gives token and reference back once, and does nothing when repeated |
| Fleet.KeysDoNotCollide | internal/lima/locks.go:34-46 | lock keys of different objects differ whatever the objects are called |
| Fleet.StepKeeps | internal/lima/lifecycle.go:122-306 | every step of every goroutine keeps the lock bookkeeping, the gate's rules and what each goroutine knows about its object |
| Fleet.CommandsJustified | internal/lima/lifecycle.go:244-306 | in every interleaving the observation behind a command in flight still holds: no edit of a running instance, no stop of a stopped one, no start of a running one, no delete of a protected one |
| Fleet.EditIsUpToDate | internal/lima/lifecycle.go:383-437 | the edit in flight is the one the configuration calls for at that moment, although it was worked out before the stop |
| Fleet.ObjectStable | internal/lima/lifecycle.go:377-381 | while a goroutine holds its object's lock no number of steps of others changes the object |
| Fleet.ParallelCreatesAreReady | internal/lima/lifecycle.go:122-155 | two creates past the gate means that the shared setup has happened |
| Fleet.FirstCreateHoldsHome | internal/lima/lifecycle.go:130-154 | until then the one create past the gate holds the home lock |
| Fleet.ReadyIsEarned | internal/lima/lifecycle.go:147-173 | readiness is monotone and announced only by a create that put an instance into the home |
| Fleet.LockOrder | internal/lima/lifecycle.go:130-135 | the home lock comes first and nobody waits for a lock it holds |
| Fleet.NoDeadlock | internal/lima/lifecycle.go:130-179 | in every reachable state with an unfinished goroutine some goroutine can take a step, without a cancellation, that brings the whole closer to its end |
| Fleet.AllLocksReturned | internal/lima/lifecycle.go:164-179 | once every operation has finished no lock is held |
| Fleet.EveryRunEnds | internal/lima/lifecycle.go:122-562 | every run ends: n operations take at most 21 n steps |
| Composition.RunRefines | internal/lima/locks.go:53-96 | a run in which goroutines lock through the table is, step for step, a run with one owner per key, and keeps table and owners in agreement |
| Composition.Refines | internal/lima/lifecycle.go:122-179 | so every run from the start, for any operations on any home, is a run of the fleet |
| Composition.TakenWhenFree | internal/lima/locks.go:81-91 | the table hands out a key only when no goroutine owns it |
| Composition.TableAllows | internal/lima/locks.go:81-91 | a registered goroutine gets a key nobody owns, and giving one back never blocks |
| Progress.StepKeeps | internal/lima/locks.go:53-96 | every step keeps where Lock calls stand: none is made before its goroutine comes to the lock, and one waits exactly as long as its goroutine is there |
| Progress.StepDrops | internal/lima/locks.go:53-96 | every step of a goroutine or of the table brings the whole closer to its end, except an unlock function run again, which changes nothing |
| Progress.NoDeadlock | internal/lima/lifecycle.go:122-179 | over the lock table, in every reachable state with an unfinished goroutine or Lock call, some step can be taken without a cancellation, and it brings the whole closer to its end |
| Progress.EveryRunEnds | internal/lima/locks.go:53-96 | n operations take at most 25 n steps, of goroutines and table together, repeated unlocks aside |
| Progress.NothingLeft | internal/lima/locks.go:72-79 | once all goroutines have finished and no reference is still to be given up, the lock map is empty and nobody owns a key |
| Agreement.ResizeAgrees | internal/lima/lifecycle.go:366-447 | in every run among any other operations a resize issues what the contract of a single resize allows for the instance it found, and the instance has the edit exactly when one went through |
| KeyedMerge.MergeByKey | internal/lima/lifecycle.go:663-713 | the merge key by key on all inputs: a declared key has the declared entries, any other what was resolved less as many of its first entries as were previously declared |
| KeyedMerge.MergeShape | internal/lima/lifecycle.go:673-684 | declared entries first and untouched, then an order-preserving selection of resolved ones |
| KeyedMerge.MergeWithoutDuplicates | internal/lima/lifecycle.go:643-662 | no duplicate keys from lists without; an entry neither previously nor newly declared is kept exactly once, one no longer declared is dropped |
| KeyedMerge.MergeSettles | internal/lima/lifecycle.go:663-685 | merging again over a list with the merged keys, nothing else previously declared, takes that list over behind the declared entries |
| KeyedMerge.MergeLists | internal/lima/lifecycle.go:663-685 | the loops over a private copy compute the merge, for the array handed in as it was |
| KeyedMerge.DropPrevious | internal/lima/lifecycle.go:667-671 | the first loop leaves in the front of the array what removing each first match leaves |
| KeyedMerge.DeleteAt | internal/lima/lifecycle.go:669-669 | the in-place deletion removes one slot and moves the rest up |
| Reconcile.PlanAchieves | internal/lima/lifecycle.go:388-437 | carrying out the planned edit, or skipping an empty one, brings about everything asked for |
| Reconcile.SameMountsSettle | internal/lima/lifecycle.go:761-777 | lists that compare equal after a merge compare equal after the next merge, for any recorded list whose keys are declared |
| Reconcile.SameForwardsSettle | internal/lima/lifecycle.go:780-803 | the same for port forwards |
| Reconcile.ResizeSettles | internal/lima/lifecycle.go:392-418 | repeating a resize that went through plans no edit, whatever Lima filled in, exactly when no number asked for is negative and unmet |
| Reconcile.AddressChangeNotApplied | internal/lima/lifecycle.go:780-803 | whether forwards are edited does not depend on the declared addresses, and an edit that happens writes them |
| Refresh.FindMount | internal/lima/inspect.go:235-242 | finds a mount at a location if there is one and reports none only if there is none |
| Refresh.FindForward | internal/lima/inspect.go:245-256 | finds a forward of a guest port and protocol if there is one and reports none only if there is none |
| Refresh.InstanceModel.ReconcileDeclared | internal/provider/models.go:517-559 | rewrites managed lists entry by entry to what Lima has, and leaves unmanaged ones and unsettled instances alone |
| Refresh.MountRefreshed | internal/provider/models.go:575-601 | a declared mount is found again and comes back unchanged exactly when it agrees with Lima's mount at the first declared entry for its location |
| Refresh.MountsPlanClean | internal/provider/models.go:517-601 | after a resize, for every declared list, the refreshed mounts are the declared ones exactly when that holds of every entry |
| Refresh.DistinctMountsPlanClean | internal/provider/models.go:517-601 | with one entry per location, exactly when no mount without a mount point sits away from its location |
| Refresh.AppliedMountsPlanClean | internal/lima/lifecycle.go:396-401 | when the edit wrote the mounts, or every mount sets its mount point, the next plan is clean exactly when no two declared mounts contradict each other about one location |
| Refresh.MountsStay | internal/lima/lifecycle.go:396-401 | once the mounts compare equal, no number of rounds of refreshing and applying edits them, so what a refresh shows then it always shows |
| Refresh.DriftedMountPointStays | internal/lima/lifecycle.go:761-777 | a mount that then disagrees with Lima's is reported as different in every later round |
| Refresh.ForwardRefreshed | internal/provider/models.go:603-619 | a declared forward is found again and comes back unchanged exactly when it agrees with Lima's at the first declared entry for its guest port |
| Refresh.ForwardsPlanClean | internal/provider/models.go:517-619 | after a resize, for every declared list, the refreshed forwards are the declared ones exactly when that holds of every entry |
| Refresh.ForwardsWhateverPorts | internal/provider/models.go:603-619 | a declared list comes back unchanged from any written list, whatever free host ports Lima picks, exactly when every entry that sets a host port finds it at the first written entry for its guest port |
| Refresh.AppliedForwardsPlanClean | internal/lima/lifecycle.go:402-407 | when the edit wrote the forwards, the next plan is clean whatever host ports Lima picks exactly when every declared entry that sets a host port sets the one that the first entry for its guest port sets |
| Refresh.SetPortsPlanClean | internal/lima/lifecycle.go:402-407 | with every host port set, the same condition is exact without an edit as well |
| Refresh.DistinctForwardsPlanClean | internal/provider/models.go:603-619 | with one entry per guest port and protocol they always are |
| Refresh.ForwardsStay | internal/lima/lifecycle.go:402-407 | once the forwards compare equal, no number of rounds edits them or changes what a refresh shows |
| Refresh.DoubledForwardStays | internal/lima/lifecycle.go:780-803 | a second entry with another host port is reported as different in every later round |
| Lifecycle.Outcome | internal/testutil/fake_limactl.go:852-1045 | produces an outcome the rules allow for every command on every home |
| Lifecycle.PossibleSucceeds | internal/testutil/fake_limactl.go:852-1045 | a command whose conditions hold has an outcome in which it succeeds |
| Lifecycle.Home.List | internal/testutil/fake_limactl.go:763-812 | the listing names every instance once with its protection |
| Lifecycle.StoppedForNothing | internal/lima/lifecycle.go:420-437 | for every running machine with an edit planned, when nothing goes wrong: it is stopped without being edited exactly when the edit cannot be put into arguments or would shrink the disk |
| Lifecycle.Service.WaitForStatus | internal/lima/lifecycle.go:520-548 | success means that the instance is there in a wanted state |
| Lifecycle.Service.WaitForAbsence | internal/lima/lifecycle.go:550-562 | success means that the instance is gone |
| Lifecycle.Service.StartLocked | internal/lima/lifecycle.go:244-275 | success means running, and an instance that is there is brought up unless something goes wrong; at most one start, none for a running machine, and only the run state changes |
| Lifecycle.Service.StopLocked | internal/lima/lifecycle.go:291-306 | success means stopped, reached from exactly the running and stopped states unless something goes wrong; at most one stop, none for a stopped machine, and only the run state changes |
| Lifecycle.Service.ReconcileRunState | internal/lima/lifecycle.go:450-465 | at most the one command that brings about the wanted run state, and when that works |
| Lifecycle.Service.Edit | internal/lima/commands.go:63-122 | nothing is issued when the arguments cannot be built; failure leaves the home alone |
| Lifecycle.Service.Resize | internal/lima/lifecycle.go:366-447 | Done: the planned edit and with it everything asked for holds, and the machine runs exactly when wanted; RestartFailed: the edit holds; Failed: configuration unchanged, and a machine stopped for an edit that failed, or that could not be put into arguments and so was never issued, is down; the commands issued and their order; protection and other objects untouched; unless something goes wrong it is Done exactly for an instance whose planned edit Lima can take |
| Lifecycle.Service.ReconcileOnly | internal/lima/lifecycle.go:371-419 | a resize without an edit issues at most the run-state command and leaves the configuration alone |
| Lifecycle.Service.EditStopped | internal/lima/lifecycle.go:420-447 | stop exactly when running, then edit, where an edit that cannot be put into arguments is not issued; a machine stopped for an edit that is not made stays down; goes through exactly when Lima can take the edit |
| Lifecycle.Service.EditAndStart | internal/lima/lifecycle.go:437-446 | start only after a successful edit; a failed edit changes nothing |
| Lifecycle.Service.ResizeTwice | internal/lima/lifecycle.go:392-418 | after a successful resize the same resize with recorded lists issues no command at all and is Done |
| Lifecycle.Service.SetProtection | internal/lima/lifecycle.go:468-488 | success sets the flag and nothing else; failure changes nothing; it works on every instance that is there |
| Lifecycle.Service.Delete | internal/lima/lifecycle.go:494-518 | success means absent; a protected instance, and only such a one, is refused and stays; nothing else changes |
| Lifecycle.Service.Create | internal/lima/lifecycle.go:164-232 | success means the requested run state and protection; Registered is true only for an instance this call added; an existing one is never touched |
| Lifecycle.Service.BringUp | internal/lima/lifecycle.go:206-231 | the rest of a create reaches the requested run state and protection unless something goes wrong |
| Lifecycle.DiskService.Create | internal/lima/disk.go:225-247 | creates an absent disk of the size asked for; an existing one, and only such a one, is refused, without a command |
| Lifecycle.DiskService.Resize | internal/lima/disk.go:255-281 | a disk only grows, exactly when it is free and the size is not smaller; shrinking is refused without a command |
| Lifecycle.DiskService.Delete | internal/lima/disk.go:284-304 | success means absent; a disk a running machine holds, and only such a one, is refused, without a command |
| InstanceUpdate.RecordedExactly | internal/provider/instance_resource.go:713-812 | state tells the truth about protection for every outcome of every call exactly when protection does not change or sizes parse and the plan renders, as far as each matters |
| InstanceUpdate.NumbersRefreshed | internal/provider/models.go:280-292 | from accurate state, refresh after an update gives the planned cpus, memory and disk back in the user's spelling, exactly when they could be applied |
| InstanceUpdate.MountsRefreshed | internal/provider/models.go:517-601 | the planned mounts come back exactly when each agrees with Lima's mount at the first planned one for its location |
| InstanceUpdate.ForwardsRefreshed | internal/provider/models.go:603-619 | the planned forwards come back exactly when each that sets a host port sets the one Lima has at the first planned one for its guest port |
| InstanceUpdate.StaleOutcome | internal/provider/instance_resource.go:783-812 | for each outcome of the edit, state that is not rewritten is still right exactly when the plan keeps everything that was recorded, host ports as Lima has them |
| InstanceUpdate.StaleExactly | internal/provider/instance_resource.go:783-812 | it is right whatever Lima fills in exactly under a condition on plan, state and Lima's configuration before the update |
| InstanceUpdate.SurvivesOutcome | internal/provider/instance_resource.go:810-812 | for each outcome of the edit, a recorded plan is right exactly when its numbers could be applied, its mounts are consistent or need no edit and agree with Lima's, and Lima has the planned host ports |
| InstanceUpdate.SurvivesExactly | internal/provider/instance_resource.go:810-812 | it is right whatever Lima fills in exactly under a condition on plan, state and Lima's configuration before the update |
| InstanceUpdate.ConfigurationRecorded | internal/provider/instance_resource.go:713-812 | exit by exit, exactly when state is right about the configuration whatever Lima fills in, by a condition known before the update |
| InstanceUpdate.InstanceResource.RecordProtection | internal/provider/instance_resource.go:724-730 | afterwards state records the given flag and differs in nothing else |
| InstanceUpdate.InstanceResource.RecordAppliedResize | internal/provider/instance_resource.go:1030-1054 | records the plan with the tracked protection, and running only if the machine was seen running |
| InstanceUpdate.InstanceResource.HasDocument | internal/provider/instance_resource.go:974-992 | decides exactly whether the plan has a document |
| InstanceUpdate.InstanceResource.FinishUpdate | internal/provider/instance_resource.go:783-813 | the tail of an update: flag in effect and flag recorded on each exit, everything else about the instance kept, and state otherwise unchanged unless the plan was recorded |
| InstanceUpdate.InstanceResource.ApplyUpdate | internal/provider/instance_resource.go:753-781 | from the resize on: flags and recorded configuration on each exit, what a failed restart records, and how far it gets unless something goes wrong |
| InstanceUpdate.InstanceResource.Update | internal/provider/instance_resource.go:681-813 | flag in effect and flag recorded on every exit; when no edit was made configuration and state are kept; otherwise the planned edit holds, and state is the plan after a failed restart and on success and what it was on the other exits; what state says about running; nothing else in the home changes; and which exit is taken when nothing goes wrong |
| Sweep.Sweeper.Sweep | internal/lima/sweep.go:67-126 | a nil error means an empty home; every object is reported removed or failed but not both; what is not mentioned is untouched; a disk stays held only by an instance that could not be removed; Lima's default home is refused untouched; and when nothing goes wrong the home is emptied |
| Sweep.Sweeper.SweepInstances | internal/lima/sweep.go:81-103 | the first loop: every listed instance settled up to where it stopped |
| Sweep.Sweeper.SweepInstance | internal/lima/sweep.go:81-103 | one iteration settles one instance and nothing else |
| Sweep.Sweeper.SweepDisks | internal/lima/sweep.go:105-125 | the second loop and the folding of failures into the error |
| Sweep.Sweeper.SweepDisk | internal/lima/sweep.go:113-123 | one iteration settles one disk and nothing else |
| Documents.MergeMaps | internal/lima/config.go:270-294 | the loops compute the merge for every order of map iteration |
| Documents.MergeLookup | internal/lima/config.go:253-269 | what a merged document says at any path, by asking the layers: the upper one decides where it says anything, mappings add up, the lower one shows elsewhere |
| Documents.MergeIdempotent | internal/lima/config.go:270-294 | applying a layer twice is applying it once |
| Documents.HiddenExactly | internal/lima/config.go:270-294 | a layer hides the one below exactly when it covers its keys at every shared level |
| Documents.MergeAssociatesExactly | internal/lima/config.go:270-294 | three layers can be grouped either way exactly when no mapping cut off in the middle is healed by the top |
| Documents.MergeIsMergePatch | internal/lima/config.go:257-269 | up to the nulls it writes out, the merge is the MergePatch procedure of section 2 of RFC 7396 |
| Documents.MarkEmptySequencesAsClears | internal/lima/config.go:310-327 | the loop marks exactly the empty sequences reached through mappings, for every order of iteration |
| Documents.MarkMerges | internal/lima/config.go:296-327 | marking a merged document is merging marked layers |
| Documents.MarkedLookup | internal/lima/config.go:296-327 | marking changes nothing at a path but an empty sequence at its end |
| Documents.ToOrdered | internal/lima/config.go:384-406 | the ordered document is the same for every order of map iteration |
| Documents.ArrangedApart | internal/lima/config.go:363-406 | ordering is injective: different trees give different ordered documents |
| Documents.TypedKeys | internal/lima/config.go:65-81 | a key of the typed layer is there exactly when its attribute is set, and is never a null, a mapping or an empty list |
| Documents.ConfiguresAnything | internal/lima/config.go:335-342 | true exactly when some key is set to something other than a clear |
| Documents.Render | internal/lima/config.go:115-165 | which refusal is given when, and otherwise the ordered document of the three layers |
| Documents.RenderOver | internal/lima/config.go:140-164 | typed attributes and marked overrides laid over a base, refused when nothing is configured |
| Documents.LayerOf | internal/lima/config.go:17-27 | which layer each top-level key of the document comes from |
| Documents.UnsetAttributeIsSilent | internal/lima/config.go:203-204 | an attribute that is not set leaves its key to the other layers |
| Documents.ClearsReachTheDocument | internal/lima/config.go:259-269 | a null or empty sequence of the overrides is a null in the document at any depth over any base |
| Documents.NullsComeFromSomewhere | internal/lima/config.go:305-309 | and every null in the document is one of those or an untouched one of the base |
| Documents.SpellingsRenderAlike | internal/lima/config.go:299-303 | `[]` and `null` at a path of the overrides give the same document |
| Documents.ConfiguresExactly | internal/lima/config.go:329-342 | exactly when the layers are not refused as empty |
| Ordering.InOrderIsSorted | internal/lima/config.go:387-391 | the order given to keys is the sorted one |
| Ordering.OrderIsUnique | internal/lima/config.go:365-367 | there is only one sorted order, which is what makes output reproducible |
| Ordering.SortStrings | internal/lima/config.go:391-391 | sorting keys collected in any order gives that order |
| Ordering.CollectKeys | internal/lima/config.go:387-390 | ranging over a map collects every key once, in any order |
| Environment.Cut | internal/lima/commands.go:225-225 | splits an entry at its first equals sign and loses nothing |
| Environment.BuildEnv | internal/lima/commands.go:208-244 | the loops compute the layered environment for every order of map iteration |
| Environment.PutInherited | internal/lima/commands.go:224-230 | the inherited layer: last well-formed value, keys in order of first appearance |
| Environment.PutExtra | internal/lima/commands.go:234-242 | the caller's layer: its values win and its new keys come last, sorted |
| Environment.FirstSeenOrder | internal/lima/commands.go:217-222 | keys come in order of first appearance, so none comes twice |
| Environment.ValueOfEvery | internal/lima/commands.go:217-222 | a key is in the environment exactly when some layer gives it a value |
| Environment.ProcessSees | internal/lima/commands.go:203-207 | read back, the environment answers every key as the layers do |
| Environment.ProcessSeesExactly | internal/lima/commands.go:203-207 | for all keys at once exactly when no caller key is empty or contains an equals sign |
| Sizes.FlagIsExact | internal/lima/sizes.go:94-115 | a size is accepted exactly when it is m times a power of two with m below 2^24, and Lima then reads the same byte count |
| Sizes.WholeMiBAccepted | internal/lima/sizes.go:86-89 | every whole-MiB size below 2^24 MiB is accepted |
| Sizes.FormatThenParse | internal/lima/sizes.go:33-77 | printing and parsing returns the size exactly when the printed number has at most 53 significant bits |
| Sizes.SmallSizesRoundTrip | internal/lima/sizes.go:57-77 | in particular whenever the printed number is at most 2^53 |
| Sizes.ObservedSizeIdempotent | internal/provider/models.go:321-329 | refreshing a size twice is refreshing it once |
| Sizes.RefreshThenPlan | internal/provider/instance_resource.go:1158-1173 | planning against a refreshed size asks for a change exactly when the planned bytes differ from the observed ones, under the exact condition for that |
| Floats.RoundExact | internal/lima/sizes.go:99-108 | rounding to nearest, ties to even, leaves an integer alone exactly when its significant bits fit |
| Floats.RoundKeepsFactor | internal/lima/sizes.go:47-54 | rounding a multiple of a power of two gives a multiple of it |
| Findings.DriftedMount | internal/lima/lifecycle.go:769-771 | a mount at /a that Lima has at /b compares equal and is refreshed to something else |
| Findings.ContradictingMounts | internal/provider/instance_resource.go:507-528 | /a writable and /private/a not, written as declared, are refreshed to something else |
| Findings.DoubledForward | internal/provider/instance_resource.go:479-489 | one guest port on two guest addresses: nothing to edit, and refreshed to something else |
| Findings.ChangedAddress | internal/lima/lifecycle.go:780-803 | a new guest address causes no edit |
| Findings.NegativeCpus | internal/lima/lifecycle.go:630-641 | a negative number is asked for again |
| Findings.NoSuchFlag | internal/lima/sizes.go:94-115 | 1073741825B is a positive size and no flag |
| Findings.StoppedInVain | internal/lima/lifecycle.go:420-437 | a resize to 2^30 + 1 bytes stops a running machine, issues no edit and leaves the machine down, although nothing went wrong |
| Findings.OddSize | internal/lima/sizes.go:33-77 | 2^53 + 1 bytes do not survive printing and parsing, nor refreshing and planning |
| Findings.UnrenderablePlan | internal/provider/instance_resource.go:804-808 | a plan that cannot be rendered leaves the wrong protection in state although every call succeeded |
| Findings.UnreadableSize | internal/provider/instance_resource.go:749-753 | so does a size that does not parse, where protection is lifted |
| Findings.StaleCpus | internal/provider/instance_resource.go:794-802 | after a failed read state has the cpus of before the edit |
| Findings.HealedMapping | internal/lima/config.go:270-294 | a mapping cut off by a null and healed shows that merging is not associative |
| Findings.EqualsSignInKey | internal/lima/commands.go:234-242 | a key containing an equals sign is not seen under its name |
| Paths.SamePathIsEquivalence | internal/lima/inspect.go:262-274 | path comparison is an equivalence, namely equality of keys |
| Paths.SamePathExact | internal/lima/inspect.go:262-274 | exactly which spellings are accepted |
| Paths.CleanIdempotent | internal/lima/sweep.go:133-135 | cleaning a cleaned path changes nothing |
| Paths.CleanExactly | internal/lima/sweep.go:133-137 | paths clean alike exactly when they are both absolute or both relative and come down to the same components |
| Paths.DetoursVanish | internal/lima/sweep.go:128-132 | a trailing separator, or a step down and up again, does not get past the check of the default home |

## Left out

- Running processes, temporary files, finding the binary, and reading its output: a command is a step of the transition rules in `Lima.dfy`.
- Time: deadlines, back-off and the length of waits.  A wait may end at any look.
- YAML and JSON text, regular expressions and SHA-256: documents start as trees, the hash is of the ordered document and is not modelled, and turning non-string keys into strings while decoding is left to the decoder.
- Diagnostics, redaction and error texts.
- The Terraform schema and its validators; where a property needs what they guarantee, it says so as a condition on the model.
- Data sources, import, the provider's Create, Read and Delete around the operations modelled here.
- Comparing a declared template with the images of an adopted instance: it can only warn.
- Copying of trees (`deepCopy`, `Clone`): trees are values here, so that no result aliases an input is true of the model without a proof.
- Disks taken by an instance that starts while a disk operation runs: disk keys do not exclude that, and nothing is claimed about it.
- Version comparison, naming rules, and the other argument builders.
- The two forms of a mount (`Mount` and `MountView`) and of a forward are one type each.
- The list fields of `ResizeParams.Desired`, which no caller fills in.
- Lifecycle.Service.Lock: leaves open when a lock is granted, because that depends on other callers; `Locks` and `Fleet` model that.
- Lifecycle.Service.ResizeTwice: speaks of an instance that was running or stopped or is to run, and of numbers that are not negative; `Reconcile.ResizeSettles` has the exact condition on numbers.
