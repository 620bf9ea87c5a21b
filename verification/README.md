# nasty-csi, modelled and proved in Dafny

A CSI driver for NASty storage. The driver keeps four promises that are easy to break and hard to
see from one function: a volume is handled by one node RPC at a time and a single-writer volume is
published at one place; a subvolume is used, presented and rolled back according to who owns it;
storage is deleted only when that is certainly right; and names, IDs, capacities and pages mean what
the interface says. This project models the code behind those promises and proves them over all
inputs, all interleavings and all outcomes of the commands and backend calls.

`dafny verify dfyconfig.toml` checks everything.

## How the project is organised

**Node side.**

- `LifecycleLock.dfy`: the per-volume lock as a machine whose actions are the atomic steps of any
  number of goroutines. Main results: `LockIsSafe`, `NoLostToken`, and `StepRefinesOwned` (the lock
  is a plain table of owners). `LifecycleEntries.dfy` has the class with its `entries` table,
  reference counts and token channels; each method takes exactly one step of the machine.
- `MountInfo.dfy`, `MountPaths.dfy`, `MountRefs.dfy`: decoding of the host mount table, paths as
  strings and as components, and the search for the other mounts of what is staged, as written and
  as it is meant (`BindRefsMeaning`).
- `Publication.dfy`: publishes and unpublishes of any number of volumes on one host mount table,
  with failing commands and driver restarts. Main results: `SingleWriterIsExclusive`,
  `SingleWriterIsInvariant`, and `ApartIsNeeded` (why a target must not lie between the mount that
  contains the staging path and that path); a publish can be repeated after a failure and undone
  (`RepeatedPublishSucceeds`, `UnpublishUndoesPublish`). `NodePublish.dfy` has the check and the test-mode record
  as the node service keeps them.
- `ISCSIStaging.dfy`: staging with its reuse, guard, retries, type check and repair, and unstaging.
  Main result: `StageISCSIVolume` (no teardown while anything is staged). `NodeSessions.dfy` puts the
  stage and unstage RPCs of a node over the lock, with repairs and logouts that take time and
  cancellation at any moment. Main results: `RepairNeverOverlapsLogout`, `RepairIsNotInterrupted`.

**Controller side.**

- `VolumeIdentity.dfy`: the properties that record ownership and the decisions on them.
  `IdentityWrites.dfy`: writing an identity and rolling a creation back, as the controller does it.
- `CreateSteps.dfy`: concurrent creates, clones and adoptions of all four protocols, one backend call
  at a time, each of which may err before or after committing, with snapshots, expansions, deletions
  (the presentation, then the storage) and crashes between any two. Over this machine:
  - `CreateOwnership.dfy`: ownership lasts until the volume is deleted, rollback deletes only what
    its own call made and nobody owns, and nothing is presented without an owner. The proof is by
    rely and guarantee.
  - `CreateIdentity.dfy`: no two owned subvolumes share a UUID, and an interrupted clone is never
    accepted with the identity it copied.
  - `CreateAdoption.dfy`: the one way in which that fails, exactly when, and a run in which it does.
  - `CreateStability.dfy`: with calls one after another, a stored UUID and creation time never
    change. `NameReuse.dfy`: why that asks that no name is used again while something refers to the
    deleted volume that had it. `CloneCapacity.dfy`: a clone is never refused for the capacity it
    recorded.
  - `CreateRetry.dfy`: once the identity has committed, an error-free retry finishes the create, and
    an identical retry of a finished create only reads.
  - `CreateOutcomes.dfy`, `CloneOutcomes.dfy`: both sides of a create. When it is refused (another
    size) and when it takes a subvolume over; that without errors every create, adoption and clone can
    be carried out and ends finished; that after an error what it made is deleted again; and that no
    call gets stuck.
- `Deletion.dfy`: fail-closed deletion for the four protocols. `Retry.dfy`: the bounded retry of an
  arbitrary function.
- `Capacity.dfy`, `VolumeNames.dfy`, `SnapshotIds.dfy`, `Pagination.dfy`: the computations that the
  above relies on, each against an independent statement of what it is for. `Protocols.dfy` and
  `Wrappers.dfy` hold the datatypes that several modules share.

## Results that differ from what the code or its comments suggest

- Adoption goes by the recorded names, and an interrupted clone still records its source's, so a
  retried create can adopt the clone in place of the volume if the search returns the clone. Two
  volumes then share a UUID: `CreateAdoption.AdoptionRunDuplicates` is one such run, from an empty
  backend. An adoption keeps UUIDs unique exactly when looking up the name that the found subvolume
  records does not give another owner of its UUID (`CreateAdoption.AdoptionKeepsUniqueIff`, in any
  state whose identities are traced at the moment of the write, as they are in every state of an
  orderly run; another write of an identity read before can still duplicate it later); with calls one after another, exactly when the found subvolume records its own
  name or that of a volume that is gone, or has no identity (`CreateAdoption.SequentialAdoptionIff`).
  The driver makes neither check; the uniqueness and stability results assume that it records its
  own name or has no identity (`CreateIdentity.AdoptsOnlyOwn`).
- A snapshot keeps the identity of its deleted volume. Cloning it under that volume's own name makes
  a subvolume that is its owner at once, with a UUID that the clone then replaces
  (`NameReuse.RecreationChangesIdentity`). Stability therefore asks that a name which is not there is
  created only if nothing refers to it (`CreateStability.Fresh`), which a caller can check.
- Deletion removes the presentations of the recorded protocol only, so a subvolume that is also
  shared over another protocol leaves that share without storage (`Deletion.OrphanOtherProtocol`).
  Everything stays backed exactly when there was no such presentation
  (`Deletion.FailingClosedKeepsBacking`).
- `sanitizeVolumeNameUnlimited` trims `._:` before `-` (`pkg/driver/template.go:223`), so `.-.a`
  becomes `.a`, which is neither valid nor a fixed point (`VolumeNames.PunctuatedTwiceExample`). Both
  properties hold exactly for names that do not start, once squeezed, with punctuation, one hyphen
  and punctuation again.
- A snapshot name with `@` encodes but does not decode back
  (`SnapshotIds.AtSignsDoNotRoundTrip`).
- The comment on `deleteNVMeOFVolume` (`pkg/driver/controller_nvmeof.go:465`) says that the subvolume
  is deleted first; the code deletes the subsystem first, and the model follows the code.
- In `representableCapacity` the sum `requiredBytes + alignment` may wrap around by one just below
  the largest integer, and the subtraction that follows wraps it back
  (`Capacity.WrapsBack`).

## Model

| member | source | states |
|---|---|---|
| LifecycleLock.StepKeeps | pkg/driver/node_lifecycle.go:20-61 | every atomic step of any goroutine keeps: one token for each live entry, `refs` equal to the goroutines inside, every goroutine under its own volume's entry |
| LifecycleLock.LockIsSafe | pkg/driver/node_lifecycle.go:20-61 | in every state of every interleaving: at most one holder for a volume, returning a token never blocks, a waiter waits for somebody who has the token, the table holds exactly the volumes in use and is empty when idle |
| LifecycleLock.NoLostToken | pkg/driver/node_lifecycle.go:37-51 | nobody gets stuck: each goroutine can move, or waits for one on its volume that has the token and can move |
| LifecycleLock.StepRefinesOwned | pkg/driver/node_lifecycle.go:20-61 | each step acquires a volume nobody owns, releases an owned one, or is invisible; cancelling never takes a lock away |
| LifecycleEntries.VolumeLifecycleLocks.Enter | pkg/driver/node_lifecycle.go:24-35 | registering with an existing or new entry is the machine's Enter step, and keeps the invariant |
| LifecycleEntries.VolumeLifecycleLocks.Receive | pkg/driver/node_lifecycle.go:38 | taking the token is the Receive step |
| LifecycleEntries.VolumeLifecycleLocks.SendToken | pkg/driver/node_lifecycle.go:40-45 | sending the token back is the Return step, whose slot is always free |
| LifecycleEntries.VolumeLifecycleLocks.Release | pkg/driver/node_lifecycle.go:54-61 | the last reference removes the entry: the Release step |
| MountInfo.DecodeMountInfoPath | pkg/mount/mountinfo.go:62-80 | the byte loop with its jumps computes the recursive decoding |
| MountInfo.DecodeAccepts | pkg/mount/mountinfo.go:62-80 | decoding accepts exactly the strings in which every backslash starts one of the four escapes |
| MountInfo.DecodeUndoesEscape | pkg/mount/mountinfo.go:62-80 | decoding undoes the kernel's escaping for every string |
| MountInfo.EscapeUndoesDecode | pkg/mount/mountinfo.go:62-80 | escaping what was decoded gives the field back |
| MountInfo.UnescapeAgrees | pkg/mount/mount_refs_linux.go:46 | the replacer agrees with the strict decoder on every string that one accepts |
| MountPaths.ContainsIsPrefix | pkg/mount/mount_refs_linux.go:79 | the string prefix test is component-wise prefix, on clean absolute paths |
| MountPaths.LongerIsDeeper | pkg/mount/mount_refs_linux.go:80 | among containing mounts, a longer string is a deeper path |
| MountPaths.RelJoinGrafts | pkg/mount/mount_refs_linux.go:95-99 | the relative path joined to a root grafts the components below the mount onto it |
| MountPaths.RenderInjective | pkg/mount/mount_refs_linux.go:102 | different clean paths are different strings |
| MountRefs.ContainingIsUnique | pkg/mount/mount_refs_linux.go:79-84 | the running choice is the last of the longest containing mount points, and no other |
| MountRefs.BindMountRefs | pkg/mount/mount_refs_linux.go:42-107 | the two passes compute the specified outcome |
| MountRefs.SearchMeaning | pkg/mount/mount_refs_linux.go:42-107 | on the lines that the kernel writes for a clean table none is refused, and the outcome is what it means on the mounts: the other mount points of the source's origin, or the failure |
| MountRefs.AcceptableIff | pkg/mount/mount_refs_linux.go:71-77 | a well-shaped line is refused exactly if its mount point is not absolute, or its root is not and it is not of the namespace filesystem |
| MountRefs.RefusedLineFails | pkg/mount/mount_refs_linux.go:48-77 | the search fails as malformed exactly if some line is refused |
| MountInfo.UnescapeUndoesEscape | pkg/mount/mount_refs_linux.go:46 | the replacer undoes the kernel's escaping for every string |
| MountRefs.CollectRefs | pkg/mount/mount_refs_linux.go:100-106 | the second pass collects exactly the other entries with the source's device and root |
| MountRefs.BindRefsMeaning | pkg/mount/mount_refs_linux.go:42-107 | on every clean table: the result is the set of other mount points whose device and root are those of what the source path names, and it fails exactly when no mount contains the source |
| Publication.CheckIsExact | pkg/driver/node_publish.go:16-51 | the check passes exactly when the volume is published nowhere but at the target |
| Publication.StepKeeps | pkg/driver/node.go:392-409 | publishes, unpublishes, failures, restarts and foreign mounts keep what the staging path names and what a passed check promises |
| Publication.SuccessPublishes | pkg/driver/node.go:392-409 | a successful publish has its target mounted, with the volume's content if it mounted it, and no mount is lost |
| Publication.CheckDecidesIff | pkg/driver/node_publish.go:13-51 | a publish gets past the check exactly if it allows several writers, or the table could be read and shows the volume nowhere but at the target |
| Publication.PublishWorks | pkg/driver/node.go:376-409 | a publish at a free target, of a volume that nothing else publishes, can be carried out from every state, and mounts the target and nothing else |
| Publication.RepeatedPublishSucceeds | pkg/driver/node.go:392-409 | after a mount command that failed with effect, and a restart, the repeated publish succeeds and mounts nothing more |
| Publication.UnpublishUndoesPublish | pkg/driver/node.go:392-531 | publishing and unpublishing again gives back the mount table |
| Publication.SingleWriterIsExclusive | pkg/driver/node_publish.go:13-51 | when a single-writer publish succeeds, its target is the only one published, in any interleaving with restarts |
| Publication.SingleWriterIsInvariant | pkg/driver/node.go:392-409 | if all publishes of a volume are single-writer and nobody else mounts it, it has at most one target in every state of the run |
| Publication.ApartIsNeeded | pkg/mount/mount_refs_linux.go:78-99 | binding at a target changes what the staging path names exactly when the target is on the way from the containing mount to the staging path |
| NodePublish.NodeService.CheckSingleWriterPublication | pkg/driver/node_publish.go:16-51 | success and each error, exactly |
| NodePublish.NodeService.PublishInTestMode | pkg/driver/node.go:398-409 | the whole new record; a successful single-writer publish leaves its target alone |
| NodePublish.NodeService.UnpublishInTestMode | pkg/driver/node.go:490-503 | forgets the target, and the volume with its last target |
| ISCSIStaging.NodeService.RefuseTeardownWhileStaged | pkg/driver/node_device.go:142-167 | a teardown is let through only if nothing is staged; an unreadable path or table refuses |
| ISCSIStaging.NodeService.PrepareFilesystemForMount | pkg/driver/node_nvmeof_device.go:329-403 | a device is repaired only if its type was verified, it is ext and not mounted; the outcome for every script of commands: the first probe that answers decides, a cancelled round ends it, and without an answer it is Unavailable, or a refusal if the last probe found no signature; when nothing fails, success exactly for the expected filesystem, not mounted elsewhere if it is ext |
| ISCSIStaging.NodeService.StageBlockDevice | pkg/driver/node_device.go:169-200 | success means the symlink is to this device, and comes exactly when the commands that the path needs work and nothing is mounted in the way; a failure leaves the path, or removed it |
| ISCSIStaging.NodeService.FormatAndMount | pkg/driver/node_iscsi.go:601-667 | success means mounted, by a working command after a probe that showed the expected filesystem; Unavailable means that nothing got staged; the refusals of each early failure; when nothing fails, success exactly if the device can be staged |
| ISCSIStaging.NodeService.StageISCSIDevice | pkg/driver/node_iscsi.go:556-598 | Unavailable implies that this attempt staged nothing; a device that disappears is Unavailable with nothing changed; when nothing fails, success exactly if the device can be staged |
| ISCSIStaging.NodeService.ConnectAndStage | pkg/driver/node_iscsi.go:129-188 | over all retries every logout happens with nothing staged; when nothing fails, the first login stages its device, and one that brings no device is logged out of twice |
| ISCSIStaging.NodeService.StageISCSIVolume | pkg/driver/node_iscsi.go:70-189 | every logout and forced kill happens while the path is neither a mount point nor a symlink; success means staged, and a new mount is of a device that a probe showed to have the expected filesystem; without a reusable session a staged volume is refused unchanged, and otherwise the outcome follows the guard, the kill and the tool check; when nothing fails, staging succeeds exactly if the session's device can be staged |
| ISCSIStaging.NodeService.UnstageISCSIVolume | pkg/driver/node_iscsi.go:672-728 | the new state, status and events for every outcome: an unreadable table changes nothing, an effective unmount unmounts, and a resolved session is logged out of after the unmount attempt |
| NodeSessions.OneCommandPerVolume | pkg/driver/node.go:122-127 | over every interleaving of stage and unstage RPCs with cancellations, a volume has at most one repair or logout under way |
| NodeSessions.RepairNeverOverlapsLogout | pkg/driver/node_nvmeof_device.go:431-434 | in no state of any run does a volume have a repair and a logout in progress |
| NodeSessions.RepairIsNotInterrupted | pkg/driver/node_nvmeof_device.go:431-434 | until a repair ends by itself its RPC keeps the lock, whatever is cancelled meanwhile |
| NodeSessions.RpcCanStart | pkg/driver/node_lifecycle.go:20-61 | from every state, an RPC for a volume that nobody uses gets to work, alone with its volume |
| NodeSessions.RpcCanEnd | pkg/driver/node_lifecycle.go:20-61 | an RPC that is alone with its volume can end, and leaves nothing behind in the table, among the waiting or among the RPCs |
| NodeSessions.CommandsCanOccur | pkg/driver/node_iscsi.go:129-188 | any sequence of commands that staging or unstaging runs is a run of the machine while its RPC holds the lock, also of a cancelled RPC that has no repair left to do |
| VolumeIdentity.WantedOwns | pkg/driver/volume_identity.go:169-173 | whatever the base and the rest, containing the wanted properties is ownership, with the decided identity |
| VolumeIdentity.OwnedIff | pkg/driver/volume_identity.go:253-259 | a subvolume is owned exactly if it contains what is stored for some complete identity |
| VolumeIdentity.DecideExistingKeepsOwners | pkg/driver/volume_identity.go:63-82 | an owned subvolume is accepted exactly for its owner, with the identity that is stored |
| VolumeIdentity.DecideExistingIff | pkg/driver/volume_identity.go:63-119 | who may use an existing subvolume, property by property, with the refusal codes and the identity that is kept |
| VolumeIdentity.ClassifyCloneIff | pkg/driver/volume_identity.go:306-362 | when a clone attempt may go on with its destination, property by property, and with which identity |
| VolumeIdentity.CarriesCopyIff | pkg/driver/volume_identity.go:330-397 | when a destination counts as a copy of its source, property by property |
| VolumeIdentity.CopyIsRecognisedIff | pkg/driver/volume_identity.go:364-397 | which exact copies are recognised as copies |
| VolumeIdentity.DecideExistingIsGuarded | pkg/driver/volume_identity.go:84-119 | anyone else needs the adopting class or a legacy record that names the request or claim |
| VolumeIdentity.ClassifyReplacesOwnersIff | pkg/driver/volume_identity.go:306-397 | a clone attempt replaces an owner's UUID exactly when it is another's and shared with the source, and under a legacy name only with proof of ownership |
| VolumeIdentity.CopiedIdentityIsReplaced | pkg/driver/volume_identity.go:330-362 | an interrupted clone with its source's identity gets the new one, unless found under its legacy name without proof, and other paths refuse it |
| IdentityWrites.MergeProperties | pkg/driver/volume_identity.go:56-61 | the loop is the merge of the maps |
| IdentityWrites.ContainsProperties | pkg/driver/volume_identity.go:206-213 | the loop decides containment |
| IdentityWrites.ControllerService.VerifyFailedWrite | pkg/driver/volume_identity.go:178-192 | Internal exactly when the subvolume was read back and does not hold what was to be written |
| IdentityWrites.ControllerService.PersistVolumeIdentity | pkg/driver/volume_identity.go:153-196 | the new store, copy and status for every outcome: success is ownership, Internal is a write that certainly did not happen, Aborted is everything else |
| IdentityWrites.ControllerService.RollbackCreatedSubvolume | pkg/driver/volume_identity.go:223-259 | never deletes an owned subvolume, nor after Aborted, nor when the state is unreadable |
| IdentityWrites.ControllerService.PersistOrRollBack | pkg/driver/controller_nfs.go:404-410 | the status and the store for every outcome: a write that committed is never rolled back, one that certainly failed is, and afterwards the subvolume is owned, kept for a retry, or gone |
| CreateOwnership.StepRespects | pkg/driver/volume_identity.go:153-251 | each step of a call leaves other calls' ownership, creations, presentations and lock alone |
| CreateOwnership.StepKeeps | pkg/driver/controller_iscsi.go:200-322 | every action keeps what each call knows about the backend, and all ownership |
| CreateOwnership.PersistOwns | pkg/driver/volume_identity.go:174-195 | after a successful persist the stored properties are owned, even if nothing was written because the copy read earlier sufficed |
| CreateOwnership.OwnershipIsPermanent | pkg/driver/volume_identity.go:223-259 | over any run of interleaved creates, clones, adoptions, failures, rollbacks, deletions and crashes, an owned subvolume stays, owned, until it is itself deleted |
| CreateOwnership.RollbackIsSafe | pkg/driver/volume_identity.go:223-251 | a subvolume disappears only by its deletion or by the rollback of the call that made it while unowned, and in either case not presented |
| CreateOwnership.PresentedIsBacked | pkg/driver/controller_nfs.go:404-413 | every presentation has storage, and an owner if a call of the run made it |
| CreateOwnership.ExposureNeedsOwnership | pkg/driver/controller_smb.go:301-309 | on every path of every protocol, a presentation is made only when the stored identity is complete |
| CreateOwnership.DeleteNeedsCleanFailure | pkg/driver/volume_identity.go:177-226 | over any run, a call that deletes after its write has erred has read back in between and seen that the write had not committed |
| CreateOwnership.UnknownWriteIsRefused | pkg/driver/volume_identity.go:223-226 | after an unreadable or positive verification the rollback refuses, and nothing else can follow |
| CreateIdentity.DecisionIsTraced | pkg/driver/volume_identity.go:63-109 | an identity that is accepted is new or already the subvolume's own |
| CreateIdentity.ClassificationIsTraced | pkg/driver/volume_identity.go:306-362 | so is the identity a clone's destination gets |
| CreateIdentity.StepKeepsTraced | pkg/driver/controller_snapshot_clone.go:56-137 | every stored identity is whole and its UUID was issued for the name it records |
| CreateIdentity.UUIDsAreUnique | pkg/driver/volume_identity.go:306-397 | over any orderly run, with deletions and from any backend whose identities are traced, no two owned subvolumes share a UUID |
| CreateIdentity.RunsCanFollow | pkg/driver/volume_identity.go:38-54 | what such a run leaves behind is, after a restart, where another can start |
| CreateIdentity.CopiesAreReidentified | pkg/driver/volume_identity.go:330-339 | a call that goes on with a subvolume holding another's identity has drawn a new UUID for it |
| CreateAdoption.AdoptionKeepsUniqueIff | pkg/driver/controller_nfs.go:603-625 | in any traced state, an adoption keeps UUIDs unique exactly when the name that the found subvolume records is not another owner of its UUID |
| CreateAdoption.AdoptionAfterRunIff | pkg/driver/controller.go:1472-1569 | the same for an adoption at the end of any orderly run, decided at its search |
| CreateAdoption.SequentialAdoptionIff | pkg/driver/controller.go:1576-1613 | after any sequential run, exactly when what was found records its own name or that of a volume that is gone, or has no identity |
| CreateAdoption.CrashedCloneKeepsCopy | pkg/driver/controller.go:924-927 | from any state, a clone that crashes leaves its source's properties on the destination |
| CreateAdoption.AdoptingACopyDuplicates | pkg/driver/controller.go:1472-1569 | from any such state, a retried create whose search returns the copy adopts it, and two volumes share a UUID |
| CreateAdoption.AdoptionRunDuplicates | pkg/driver/controller.go:1472-1569 | one run from an empty backend that creates, crashes in a clone, adopts the copy and ends with two owners of one UUID |
| CreateStability.ClassificationKeeps | pkg/driver/volume_identity.go:306-362 | with calls one after another, a clone attempt on an owned destination keeps its UUID or gives up |
| CreateStability.RunKeepsSequential | pkg/driver/controller.go:869-994 | sources that are there never carry an owned clone's identity, recorded identities are their owners' or of volumes that are gone, and a call's copy is what is stored |
| CreateStability.IdentityIsStable | pkg/driver/volume_identity.go:38-109 | once owned, a subvolume keeps its UUID and creation time over any sequential run, until it is deleted |
| NameReuse.RecreationChangesIdentity | pkg/driver/volume_identity.go:306-341 | from any state, cloning a deleted volume's snapshot under that volume's name changes the UUID of a subvolume that was owned |
| CloneCapacity.CloneCapacityAgrees | pkg/driver/controller_iscsi.go:332-347 | over any sequential run, no protocol's create refuses to select a clone that has written its properties, and for block protocols the capacity mismatch cannot fire |
| CreateRetry.CreateFinishes | pkg/driver/controller_nfs.go:404-422 | a create that writes and exposes leaves a finished volume |
| CreateRetry.InterruptedRetryConverges | pkg/driver/controller_nfs.go:330-422 | from any state in which the request's identity is stored but nothing presented, the error-free retry exists and ends with the volume finished, for all four protocols |
| CreateRetry.FinishedRetryOnlyReads | pkg/driver/controller_nfs.go:224-279 | an identical retry makes no mutating call wherever it ends, and a response gives the same volume and the requested capacity |
| CreateRetry.FinishedRetrySucceeds | pkg/driver/controller_nfs.go:224-279 | an identical retry that meets no errors exists, changes no data, and responds with the same volume and capacity |
| CreateOutcomes.ListRefusesIff | pkg/driver/controller_nfs.go:254-262 | unless it adopts, a create is refused exactly if the share's noted capacity, or a block volume's stored one, differs from the requested one |
| CreateOutcomes.MismatchIsRefused | pkg/driver/controller_iscsi.go:332-347 | a create of a volume that is there in another size, wherever it fails, writes nothing, takes at most four steps and fails |
| CreateOutcomes.SearchAdoptsIff | pkg/driver/controller.go:1472-1569 | which subvolume the search takes over, refuses or passes by, property by property |
| CreateOutcomes.SnapshotIsPermanent | pkg/driver/controller_snapshot.go:190-194 | a snapshot keeps for the rest of the run what its volume recorded when it was taken |
| CreateOutcomes.ExpandOnlyResizes | pkg/driver/controller_nfs.go:707-711 | recording an expansion changes the size of its volume and nothing else |
| CreateOutcomes.ErrorsHideEffects | pkg/driver/volume_identity.go:177-196 | every writing backend call may also err, after the very same effect on the data or after none |
| CreateOutcomes.VolumeCanBeDeleted | pkg/driver/controller_nfs.go:513-547 | a volume can be deleted as soon as no call under way has to do with it, and nothing is left of it but its snapshots |
| CreateOutcomes.CallCanEnd | pkg/driver/volume_identity.go:164-251 | no call gets stuck: wherever it is it can end, which frees the lock, presents nothing, and deletes no other subvolume than its own |
| CreateOutcomes.AbortedIff | pkg/driver/volume_identity.go:177-251 | where a call ends as aborted, and nowhere else |
| CreateOutcomes.CreateConverges | pkg/driver/controller_nfs.go:330-422 | a create of a volume that is not there can be carried out, over any protocol, and ends finished |
| CreateOutcomes.MadeIsRolledBack | pkg/driver/volume_identity.go:223-251 | a call that errs before its subvolume is owned can delete it again, and then has |
| CreateOutcomes.FailedWriteIsRolledBack | pkg/driver/controller_nfs.go:404-410 | so can one whose write certainly failed |
| CloneOutcomes.SourceIsNeededIff | pkg/driver/controller_snapshot_clone.go:52-55 | a clone of a volume fails if that is gone, and one of a snapshot goes on |
| CloneOutcomes.DestinationIff | pkg/driver/volume_identity.go:267-304 | which destination a clone goes on with, and that it gives up exactly on a legacy one whose record does not prove ownership, property by property |
| CloneOutcomes.AdoptionConverges | pkg/driver/controller_nfs.go:567-680 | an adoption can be carried out, and ends with the found subvolume owned by the request, with its UUID, and presented |
| CloneOutcomes.CloneConverges | pkg/driver/controller.go:869-994 | a clone can be carried out, over any protocol, and ends owned with its own UUID, presented, and stored and answered in the size it was given |
| Retry.WithRetry | pkg/retry/retry.go:75-147 | for any function: at most the configured attempts, each but the last retryable, exactly the due waits between them, success exactly when the last call succeeded, and cancelled exactly at the first look that finds the context done |
| Retry.WithDefaults | pkg/retry/retry.go:78-91 | settings that are not positive get positive defaults, and positive ones stay |
| Retry.BackoffIsExponential | pkg/retry/retry.go:137-141 | with a whole multiplier the wait is the initial one times its power, capped at the maximum |
| Retry.DueWaitsAreBounded | pkg/retry/retry.go:137-141 | no due wait exceeds the larger of the two backoffs |
| Retry.DeletionWaitsEvenly | pkg/retry/retry.go:269-278 | with the deletion settings every wait is five seconds |
| Deletion.ControllerService.DeleteShareByPath | pkg/driver/share_cleanup.go:12-32 | success means that no share with the path is left; nothing else is removed; without a listing nothing is |
| Deletion.ControllerService.DeleteTarget | pkg/driver/controller_iscsi.go:460-490 | success means that no target with the key is left; nothing else is removed |
| Deletion.ControllerService.VerifyOwnership | pkg/driver/delete_ownership.go:12-30 | goes on exactly with a subvolume that may be deleted |
| Deletion.ControllerService.DeleteWithRetry | pkg/driver/controller_nfs.go:528-547 | at most thirteen calls, none after an uncertain one; success exactly if the last call succeeded, and then it is gone |
| Deletion.ControllerService.DeleteShares | pkg/driver/controller_nfs.go:496-523 | the share with a known identifier and every share with the path are gone on success; nothing else is removed |
| Deletion.ControllerService.DeleteNFSVolume | pkg/driver/controller_nfs.go:426-555 | fails closed, and succeeds when nothing fails |
| Deletion.ControllerService.DeleteSMBVolume | pkg/driver/controller_smb.go:321-397 | the same, with a single deletion call |
| Deletion.ControllerService.DeleteISCSIVolume | pkg/driver/controller_iscsi.go:431-522 | the same for targets |
| Deletion.ControllerService.DeleteNVMeOFVolume | pkg/driver/controller_nvmeof.go:466-564 | the same for subsystems |
| Deletion.FailingClosedKeepsBacking | pkg/driver/controller_iscsi.go:429-430 | every presentation keeps its storage but for the volume's own through another protocol; all stay backed exactly if there were none |
| Deletion.OrphanOtherProtocol | pkg/driver/controller_nfs.go:513-523 | deleting an NFS volume that is also shared over SMB succeeds, when nothing fails, and leaves the SMB share without storage |
| Deletion.ProvenIsProper | pkg/driver/delete_ownership.go:34-65 | an ID that is a plain name leads to the deletion of no subvolume of another name |
| Deletion.DenotedIff | pkg/driver/delete_ownership.go:34-46 | a path denotes the subvolume at it, and a plain name those that record it |
| Deletion.KeyTellsVolumes | pkg/driver/controller_iscsi.go:64-66 | a share path, NQN or IQN belongs to one volume name, for IQNs up to the case of letters |
| Deletion.ControllerService.LookupDeletionVolume | pkg/driver/delete_ownership.go:34-66 | finds exactly what may be looked at for deletion; absence is success, and only if nothing has the ID |
| Deletion.ControllerService.DeleteVolume | pkg/driver/controller.go:1049-1086 | over any backend outcomes: storage goes only when proven and unpresented by its protocol, nothing else changes, what stays backed is exact, success means gone, retained or absent, and what is left can be deleted later; when nothing fails, the status is exact, with success for what is absent or retained |
| Capacity.WrapsBack | pkg/driver/controller.go:411-414 | the wrapping sum is the exact one |
| Capacity.RepresentableMeaning | pkg/driver/controller.go:401-415 | a size is representable exactly if some aligned 64-bit size covers it, and the least such size is taken; with 512 bytes for block and 1024 for file protocols |
| Capacity.NormalizeMeaning | pkg/driver/controller.go:489-526 | succeeds exactly when a representable size fits the range and bounds, and takes the least |
| Capacity.NormalizeIsIdempotent | pkg/driver/controller_snapshot_clone.go:39-42 | normalising again, or first for NFS and then for any protocol, changes nothing |
| Capacity.ExpansionRangeIff | pkg/driver/controller.go:423-436 | a request to expand is valid exactly if it names a size without limit, or a limit that the size does not exceed |
| Capacity.PlanMeaning | pkg/driver/controller.go:423-487 | never shrinks, never exceeds the limit, grows to the least fitting size, and is refused exactly when nothing fits |
| Capacity.ExpansionsOnlyGrow | pkg/driver/controller.go:438-487 | over any run of expansions capacity is monotone, covers every request, and stays aligned and within the ceiling |
| Capacity.CreateVolumeRequest.NormalizeCreateCapacity | pkg/driver/controller.go:489-526 | the request's new range, or the error and the request untouched |
| Capacity.ClonedCapacityIff | pkg/driver/controller.go:996-1046 | when a clone's size is accepted, which it is, and which refusal it is otherwise |
| Capacity.ClonedCapacityMeaning | pkg/driver/controller.go:996-1046 | an accepted size covers the request, respects the limit, and is what the backend last reported |
| Capacity.CreateVolumeRequest.EnsureClonedVolumeCapacity | pkg/driver/controller.go:996-1046 | success, exactly when; the size returned is the size the request now asks for, within its range |
| VolumeNames.SanitizeVolumeNameUnlimited | pkg/driver/template.go:204-224 | the scan with its flag computes the squeezed and trimmed name |
| VolumeNames.SanitizedMeaning | pkg/driver/template.go:204-224 | only name characters, no hyphen at an end or next to another, and when it starts alphanumerically |
| VolumeNames.SanitizedIsValidIff | pkg/driver/template.go:200-224 | valid exactly when something is left and the name is not punctuated twice |
| VolumeNames.SanitizedIsFixedIff | pkg/driver/template.go:200-224 | idempotent exactly then, or when nothing is left |
| VolumeNames.PunctuatedTwiceExample | pkg/driver/template.go:223 | `.-.a` is a counterexample to both |
| VolumeNames.BackendNameSuffix | pkg/driver/template.go:186-195 | the buffer holds the eight-digit base-62 numeral of the number modulo 62 to the eighth |
| VolumeNames.RenderMeaning | pkg/driver/template.go:158-184 | at most 63 characters of the grammar, and success and emptiness exactly when |
| VolumeNames.RenderShowsCandidate | pkg/driver/template.go:158-184 | a rendered name is the candidate, or as much of the sanitized candidate as fits, a hyphen and the suffix |
| VolumeNames.NameCharacters | pkg/driver/template.go:200-224 | the characters of names, by their codes |
| VolumeNames.DifferentDigestsDiffer | pkg/driver/template.go:175-177 | digests that differ modulo 62 to the eighth never give the same templated name |
| SnapshotIds.DecodeUndoesEncode | pkg/driver/controller_snapshot.go:41-89 | decode after encode, for any volume ID and any name without `@` |
| SnapshotIds.EncodeUndoesDecode | pkg/driver/controller_snapshot.go:41-89 | encode after decode, for every string that decodes |
| SnapshotIds.DecodeSnapshotIDIff | pkg/driver/controller_snapshot.go:56-89 | an ID decodes exactly to the parts of which it is made, for a known protocol, two names and no separator in the second |
| SnapshotIds.EncodeRefusesIff | pkg/driver/controller_snapshot.go:41-52 | a snapshot without a separator in its name is refused an ID exactly if no ID decodes to it |
| SnapshotIds.AtSignsDoNotRoundTrip | pkg/driver/controller_snapshot.go:69-75 | the round trip holds exactly for names without `@` |
| SnapshotIds.SplitUndoesJoin | pkg/driver/controller_nfs.go:558-564 | splitting succeeds exactly on a joined filesystem and name, and brings them back |
| Pagination.ListVolumes | pkg/driver/controller.go:1238-1290 | the scan for the token computes the specified page |
| Pagination.VolumePageIff | pkg/driver/controller.go:1248-1289 | what a page is, and that a token is refused exactly if it is no volume's ID |
| Pagination.VolumePagesAreComplete | pkg/driver/controller.go:1248-1289 | following the tokens ends and gives every volume once, in order |
| Pagination.ParseMeaning | pkg/driver/controller_snapshot_list.go:15-27 | a token parses to an offset exactly when it is its canonical decimal |
| Pagination.ListSnapshotsBySourceVolume | pkg/driver/controller_snapshot_list.go:187-249 | the index loop computes the specified page |
| Pagination.SnapshotPagesAreComplete | pkg/driver/controller_snapshot_list.go:187-345 | both snapshot listings end and give every entry once, in order, whatever the page sizes |

## Left out

- gRPC, flags, shutdown, metrics, the dashboard, mount-option merging, health reports and getters: plumbing and easy members.
- The commands `mount`, `iscsiadm`, `blkid` and `e2fsck`, and the backend with its client library: they appear as outcomes with their effect on mounts, symlinks, devices, properties and presentations. The client library nasty-go is not part of this model.
- One backend filesystem at a time: subvolumes of different filesystems do not meet in the create and delete models.
- Property values are compared, not looked into: `VolumeIdentity.Text` keeps the empty string, the three constants and numbers apart from all other strings. Random UUIDs are a source that never repeats; the time of creation is a parameter.
- Go templates, the SHA-256 digest, the tokenising of mountinfo lines and the matching of error texts are inputs: a rendered string, a number, a line that is well shaped or not, an error kind.
- `DeleteVolume` interleaves with creates by both its effects: the create runs withdraw any presentation at any time, and remove any subvolume that is not presented, except while a call under way has to do with it; the driver itself does not keep the two apart. How a deletion decides on them and fails is proved alone, over every sequence of outcomes (`Deletion.dfy`).
- UUID stability is for calls one after another, since `persistVolumeIdentity` does not read before it writes (`pkg/driver/volume_identity.go:169-177`). A crash between creation and the identity write leaves an ownerless subvolume that a plain retry refuses; convergence is proved from the committed identity on (`CreateRetry.InterruptedRetryConverges`).
- `DeleteSnapshot`: in the runs of creates no snapshot goes away (`CreateOutcomes.SnapshotIsPermanent`).
- CreateIdentity.UUIDsAreUnique: does not cover adoptions of a subvolume that records another's name, for which it fails (`CreateAdoption.AdoptionRunDuplicates`). Each request name has one request, as retries repeat it, and the current backend name of one request is no name of another; legacy names may be shared. A request is not repeated after its volume was deleted if its lookup would then come to its other name (`CreateIdentity.MayBegin`).
- CreateStability.IdentityIsStable: has the same conditions, starts settled (whatever records an identity of a volume that is there has that volume's UUID, and no source records that of its own owned clone), and creates no volume under a name that is not there but to which a clone, a snapshot or a copied identity refers, for which it fails (`NameReuse.RecreationChangesIdentity`).
- CloneCapacity.CloneCapacityAgrees: is for calls one after another, as the stability of what a clone recorded is. The capacity of a file share is noted on the share, so the listing step of file protocols makes no such comparison before the share exists.
- CreateRetry.FinishedRetryOnlyReads: covers source-less requests for which the adoption search finds nothing adoptable, and runs in which no other call interferes.
- Backend checks beside ownership in the create paths (the block device, its filesystem, the LUN of a target, the name of an SMB share) are errors that may occur before the identity is written; how they are decided is not modelled, and neither is `selectNVMeSubsystem`.
- Deletion.ControllerService.DeleteVolume: assumes that a presentation is listed under the key of its storage; for NVMe-oF that the backend uses the fixed prefix, and for iSCSI that no two targets share an IQN. Its volumes are in one filesystem, whose name has no slash, so that the ID it builds for the volume splits into the same parts.
- Overflow of the float conversion in the backoff (`pkg/retry/retry.go:138`): the multiplier is a real number and the product is rounded down.
- Publication.SingleWriterIsExclusive: assumes that nobody but the driver mounts the volume's content between a passed check and the end of that publish, that no target lies between the mount that contains a staging path and that path, and that staged sources differ; `filepath.EvalSymlinks` and `filepath.Clean` have been applied.
- NodeSessions.RepairNeverOverlapsLogout: covers RPCs. The health monitor recovers sessions without the lifecycle lock, the NVMe-oF reconnect loop disconnects without the guard, and `NodeUnstageVolume` logs out even after a failed unmount; nothing is claimed of these.
- Listing order, sorting, `listSnapshotByID` and snapshot creation times; `isPathInMountInfo` beyond its decoding; unlimited waits and sleeps.
