# Verified model of the gateway's stateful core

This project models, in Dafny, the parts of the computer-use gateway whose guarantees
span whole runs, and proves those guarantees.

- **Browser references** (`BrowserRef*.dfy`). Public references form a tree of target, tab,
  snapshot and element, with dialogs beside. The registry deletes eagerly, with several
  differently written sweeps. `BrowserRefsLedger` defines a lazy counterpart that never deletes:
  it counts one epoch per tab for page references and one for dialogs, and remembers what was
  revoked. The registry is proved to be exactly the live part of that ledger after every run. The
  registry object carries its run as ghost state, so its methods promise what the run theorems say.
- **Download staging** (`Download*.dfy`, `TransferNames.dfy`). `finalize` takes the mutex twice with
  file work in between. Calls are split at those points and interleaved freely. Backend ids and
  destination names are strings, judged by a model of Unix path components.
- **Ephemeral data** (`Ephemeral*.dfy`, `Tally.dfy`). The Hub's reference budgets under
  saturating arithmetic and expiry, and the Agent's byte store with its running total, partial
  pruning and ranged reads.
- **Windows upgrade** (`WindowsUpgrade.dfy`). A pair of services upgraded file by file behind a
  durable status record. Every durable write is kept in a trail. At every point of it the record's
  state and phase say what the tracked files are, and the same is proved of any sequence of
  upgrades, each killed anywhere.
- **Mutation authority** (`MutationAuthority.dfy`). Processes that interleave, and die, around one
  lock and one durable (owner, epoch) cell.
- **Backup and restore** (`BackupRestore*.dfy`, `RelativePath.dfy`). A digest-pinned manifest, a
  verified stage, and an activation of which it is proved exactly when it installs the manifest's tree.
- **Upgrade transaction** (`UpgradeTransaction*.dfy`). The durable record of an upgrade: its
  validity, its commands, and what no sequence of commands can undo.

For each component that updates state in place, a class carries the fields and its methods are
proved equal to specification functions; the run theorems are stated over those functions. Beside
them stands, for every main operation, an outcome stated without naming its body: the condition
under which it succeeds, which refusal each unmet condition gives, and every field it stores.

## Assumptions

- Random identifiers are parameters. `FreshRun` says that a draw never repeats an identifier
  issued earlier in the run; the code itself only compares with live ones, and the model does too.
  Likewise the transaction id of a Windows upgrade differs from the one in the status file it finds.
- Clocks, file operations, controller calls and the identity checks of a backup are parameters or
  arbitrary choices that may fail at any call. Where a contract says when an operation succeeds,
  flags of the caller say which of them do not fail.
- SHA-256 is a free constructor, hence injective.
- Only the modelled operations change the modelled files. Exceptions: source files may change
  between any two reads while a backup is made, a backup may change between its verification, its
  copying and the comparison with the stage, and backup and stage may be replaced by arbitrary ones
  between staging and activation.
- Commands on one transaction file run one at a time, and so do upgrades of one host: neither
  script takes a lock, and two overlapping read-modify-write calls could store a record or a status
  that the results about runs exclude.
- The trail of a Windows upgrade describes the death of the process. `atomic_copy` does not sync, so
  nothing is claimed of a power failure.
- `WindowsUpgrade.Host.faithfulConfigs`: copies of binaries may come out altered at any time and
  the digests catch it. Configuration copies made by snapshot, staging and activation are not
  re-hashed by the code, so what is said of configurations in a completed upgrade, or of their kept
  copies, is stated for hosts that copy configurations faithfully. Rollback re-hashes what it
  restores and needs no such assumption. Plists are installed without re-hashing too; their copies
  are taken to be exact or to fail.

## Properties that hold under a condition

Each of these was found to fail without a condition, which is stated and proved to be exact.

- `_safe_rel` names `.` among the parts it refuses, yet accepts the path that is a single dot,
  because that path has no parts. `RelativePath.SafeExactly` states the exact language. A lone dot
  belongs to no staging namespace, and no dot can follow one (`RelativePath.SafeBelow`).
- A `finalize` under the wrong fence changes nothing iff the backend id is a safe path component,
  because the id is checked, and the operation dropped, before the fence is looked at
  (`DownloadTheorems.WrongFenceIsHarmlessExactlyWhenIdSafe`, with a run in
  `DownloadTheorems.ForeignParentIdDropsTheOperation`). The safe ids are exactly those of
  `TransferNames.SafeComponentExactly`: `f/` and `f/.` are among them and mean `f`
  (`TransferNames.TrailingSlashAndDotAreSafe`).
- A prune goes unnoticed by the next call, after every run, iff its clock reading is not ahead of
  that call's or is at most one lifetime after zero, before which nothing minted can expire
  (`EphemeralHub.PruneIsInvisibleExactlyWhen`).
- The byte budgets are exact except at the largest u64, where saturation hides an overrun
  (`EphemeralHub.ByteBudgetIsExactIff`, `EphemeralAgent.AccountingIsExactIff`). For the Agent the
  objects must moreover be able to add up to that much, none being longer than a slice can be.
- A rollback restores the old tree iff no tracked binary was a symlink
  (`WindowsUpgrade.Host.PerformUpgrade`, with a run in `WindowsUpgrade.RollBackOverASymlink`).
- An activation compares the stage with the backup as it is then, not with the recorded digests. It
  installs the manifest's tree iff every payload file was still intact at that reading
  (`BackupRestore.InstallsExactlyWhenIntact`, with accepted backups and stages that install another
  tree in `BackupRestore.ChangedPayloadIsInstalled`).
- A discard of references keeps the tree of live ancestors iff it takes every live child of what it
  removes (`BrowserRefsTheorems.DiscardKeepsTreeExactlyWhenClosed`, with a run in
  `BrowserRefsTheorems.OpenDiscardOrphansATab`).

## Model

| member | source | states |
|---|---|---|
| BrowserRefsLedger.EagerRefinesLazy | src/v2_browser_refs.rs:106-449 | after every run the eagerly swept map is exactly the live part of the epoch ledger, and the ledger's links are well formed |
| BrowserRefsLedger.TurnPageIsSweep | src/v2_browser_refs.rs:590-605 | the field-by-field sweep of page references removes exactly what bumping that tab's epoch kills |
| BrowserRefsLedger.TurnDialogsIsSweep | src/v2_browser_refs.rs:414-426 | the differently written dialog sweep removes exactly what bumping that tab's dialog epoch kills |
| BrowserRefsTheorems.ResolvesExactlyInItsEpoch | src/v2_browser_refs.rs:459-503 | an issued page reference resolves, to its own backend value, iff asked under its own context, target and tab, its tab's epoch is unchanged and neither it nor an ancestor was revoked |
| BrowserRefsTheorems.DialogResolvesExactlyInItsEpoch | src/v2_browser_refs.rs:331-349 | the same characterization for dialogs and the dialog epoch |
| BrowserRefsTheorems.DeadStaysDead | src/v2_browser_refs.rs:428-449 | once an issued reference left the registry no later call brings it back |
| BrowserRefsTheorems.ContinuationConsumedOnce | src/v2_browser_refs.rs:374-398 | two successful consumptions of one continuation in a run are the same call |
| BrowserRefsTheorems.EveryRunIsATree | src/v2_browser_refs.rs:123-254 | every live reference hangs below live ancestors of the right kind, context, target and tab, in every run whose discards take whole subtrees |
| BrowserRefsTheorems.DiscardKeepsTreeExactlyWhenClosed | src/v2_browser_refs.rs:445-449 | a discard keeps that tree iff it takes every live child of what it removes |
| BrowserRefsTheorems.OpenDiscardOrphansATab | src/v2_browser_refs.rs:445-449 | two mints and a discard of the target alone leave a live tab without its parent |
| BrowserRefsTheorems.OneSnapshotAndOneDialogPerTab | src/v2_browser_refs.rs:142-163 | in every run a tab has at most one live snapshot and one live dialog, and its page references name that snapshot |
| BrowserRefsTheorems.OtherTabsKeepTheirOutcomes | src/v2_browser_refs.rs:351-426 | an operation on one tab changes no lookup outcome, success or refusal, for pages, dialogs, tabs or actions, of issued references that do not hang below that tab |
| BrowserRefsTheorems.OtherContextsAreUntouched | src/v2_browser_refs.rs:414-431 | an operation that names one context id leaves every other context's references identical, in any state; the device-wide invalidations and the discard name no context |
| BrowserRefsTheorems.EveryContextStaysWithinLimit | src/v2_browser_refs.rs:555-562 | no run, with or without fresh identifiers, exceeds the per-context limit |
| BrowserRefsTheorems.RefusedMintTakesOnlyItsTab | src/v2_browser_refs.rs:144-163 | a refused mint adds nothing and removes at most its own tab's page references or dialog |
| BrowserRefsTheorems.GrantsAreExact | src/v2_browser_refs.rs:178-180 | sorting and deduplicating yields a strictly ordered list set-equal to the given actions |
| BrowserRefsTheorems.ActionNeedsAGrant | src/v2_browser_refs.rs:284-310 | at any later time an element resolves for an action set iff it resolves as a page reference and one of those actions was named at mint |
| BrowserRefPromises.MintedLooksUp | src/v2_browser_refs.rs:106-254 | in any state, whatever a mint returns resolves at once for its context, target and tab to what it was minted for |
| BrowserRefPromises.MintLeavesNone | src/v2_browser_refs.rs:142-163 | in every run a snapshot or dialog mint past its check leaves none of the tab's earlier ones, minted or refused |
| BrowserRefPromises.SweepsLeaveNone | src/v2_browser_refs.rs:400-426 | in every run the sweeps, which compare context and target too, leave nothing that names the tab |
| BrowserRefOutcomes.OwnedExactly | src/v2_browser_refs.rs:518-540 | a reference is found iff it is live under exactly that context; each refusal names the first part of the context that differs |
| BrowserRefOutcomes.KindExactly | src/v2_browser_refs.rs:505-516 | a reference passes the kind check iff it is live, of that kind, under exactly that context |
| BrowserRefOutcomes.TabExactly | src/v2_browser_refs.rs:256-271 | a tab resolves, to both backend values, iff target and tab are live under that context and the tab hangs below the target |
| BrowserRefOutcomes.SnapshotExactly | src/v2_browser_refs.rs:488-503 | a snapshot passes iff it is live and belongs to that live tab and target |
| BrowserRefOutcomes.PageExactly | src/v2_browser_refs.rs:459-486 | a page reference resolves to a value iff it has it, is of an allowed kind, and is inside a live snapshot of that live tab |
| BrowserRefOutcomes.DialogExactly | src/v2_browser_refs.rs:331-349 | a dialog resolves to a value iff it has it and belongs to that live tab |
| BrowserRefOutcomes.BackendExactly | src/v2_browser_refs.rs:637-645 | a backend value is valid iff it has between one and 4096 bytes and no control character |
| BrowserRefOutcomes.MintsExactly | src/v2_browser_refs.rs:543-588 | after any run a mint succeeds iff its parents are live, an element has actions, the backend value is valid, the context has room after the mint's own sweep and a draw is free; each refusal past the parents is as exact |
| BrowserRefOutcomes.ConsumesExactly | src/v2_browser_refs.rs:374-398 | after any run a consumption returns a value iff the continuation stands in its live snapshot, tab and target with that value, and then exactly it goes; otherwise nothing changes |
| BrowserRefOutcomes.DoneExactly | src/v2_browser_refs.rs:351-412 | completing a dialog and sweeping a tab are done iff what they name stands |
| BrowserRefRegistry.Open | src/v2_browser_refs.rs:96-104 | a registry exists iff the limit is positive, and starts with an empty run |
| BrowserRefRegistry.Registry.Insert | src/v2_browser_refs.rs:543-588 | the bounded draw loop inserts under the first unused draw, or refuses without change |
| BrowserRefRegistry.Registry.CountOf | src/v2_browser_refs.rs:555-559 | the counting loop counts exactly the context's references |
| BrowserRefRegistry.Registry.InvalidateSnapshotBoundForTab | src/v2_browser_refs.rs:590-605 | the field-by-field retain loop takes exactly the tab's page references of that context |
| BrowserRefRegistry.Registry.InvalidateDialogsForTab | src/v2_browser_refs.rs:414-426 | the retain loop takes exactly the tab's dialogs of that context id |
| BrowserRefRegistry.Registry.MintTarget | src/v2_browser_refs.rs:106-121 | succeeds iff the backend value is valid, the context has room and a draw is free, and each refusal says which fails first; a minted target can be looked up under its context at once |
| BrowserRefRegistry.Registry.MintTab | src/v2_browser_refs.rs:123-140 | succeeds iff the parents it names are live, the backend value is valid, the context has room and a draw is free, and each refusal says which fails first; a minted tab resolves with its target to both backend values |
| BrowserRefRegistry.Registry.BeginSnapshot | src/v2_browser_refs.rs:144-163 | succeeds iff target and tab stand, the backend value is valid, the context has room after the sweep and a draw is free; once target and tab check out, no earlier page reference of that tab is left, even when the mint is refused; a minted snapshot can be used at once |
| BrowserRefRegistry.Registry.MintActionElement | src/v2_browser_refs.rs:165-191 | succeeds iff the parents it names are live, the backend value is valid, the context has room and a draw is free, and each refusal says which fails first; it is refused for want of actions exactly when the parents stand and none is given; a minted element resolves to its backend value and carries exactly the sorted, deduplicated actions |
| BrowserRefRegistry.Registry.MintContentElement | src/v2_browser_refs.rs:193-212 | succeeds iff the parents it names are live, the backend value is valid, the context has room and a draw is free, and each refusal says which fails first; a minted element resolves to its backend value |
| BrowserRefRegistry.Registry.MintContinuation | src/v2_browser_refs.rs:214-233 | succeeds iff the parents it names are live, the backend value is valid, the context has room and a draw is free, and each refusal says which fails first; a minted continuation resolves to its backend value |
| BrowserRefRegistry.Registry.MintDialog | src/v2_browser_refs.rs:235-254 | succeeds iff target and tab stand, the backend value is valid, the context has room after the sweep and a draw is free; once target and tab check out, no earlier dialog of that tab is left, even when the mint is refused; a minted dialog resolves to its backend value |
| BrowserRefRegistry.Registry.InvalidateTabDialogs | src/v2_browser_refs.rs:351-360 | succeeds iff the tab stands, and then no dialog of that tab is left |
| BrowserRefRegistry.Registry.CompleteDialog | src/v2_browser_refs.rs:362-372 | succeeds iff the dialog resolved; then exactly it goes and no context, target or tab resolves it any more |
| BrowserRefRegistry.Registry.ConsumeContinuation | src/v2_browser_refs.rs:375-398 | returns a backend value iff the continuation resolves to it; then exactly it goes and nothing resolves it any more, and otherwise nothing changes |
| BrowserRefRegistry.Registry.InvalidateTabDocument | src/v2_browser_refs.rs:402-412 | succeeds iff the tab stands, and then no page reference and no dialog of that tab is left |
| BrowserRefRegistry.Registry.InvalidateContext | src/v2_browser_refs.rs:428-431 | a reference is found afterwards, as the same record, iff it was found before and the asking context is another |
| BrowserRefRegistry.Registry.InvalidateDeviceGeneration | src/v2_browser_refs.rs:433-437 | a reference is found afterwards, as the same record, iff it was found before and the asking context is of another device or of that generation |
| BrowserRefRegistry.Registry.InvalidateCapabilityRevision | src/v2_browser_refs.rs:439-443 | a reference is found afterwards, as the same record, iff it was found before and the asking context is of another device or of that revision |
| BrowserRefRegistry.Registry.DiscardRefs | src/v2_browser_refs.rs:445-449 | the removal loop leaves exactly the references that are not listed |
| DownloadTheorems.EveryInterleavingIsSound | src/v2_browser_staging.rs:585-840 | every interleaving of prepares, split finalizes, aborts and cleanups keeps provenance, names, budget, directories and the settlement log |
| DownloadTheorems.OneDownloadPerName | src/v2_browser_staging.rs:616-627 | per context at most one pending and one completed download of a name, and no completed twin of a pending one that may not overwrite |
| DownloadTheorems.CommitKeepsNames | src/v2_browser_staging.rs:715-754 | the commit, which never looks for a collision, cannot create one |
| DownloadTheorems.SettlesAtMostOnce | src/v2_browser_staging.rs:665-785 | of all finalizes and aborts of one operation at most one returns success |
| DownloadTheorems.BudgetHolds | src/v2_browser_staging.rs:603-615 | pending plus completed downloads of a context never exceed 32 |
| DownloadTheorems.FinalizeReturnsWhatWasPrepared | src/v2_browser_staging.rs:690-713 | a successful finalize goes back to an earlier prepare of the run: it returns exactly the reported number of bytes, within the bound that prepare's request named, under the name it named |
| DownloadTheorems.LiveDirectoriesStand | src/v2_browser_staging.rs:737-742 | no call removes the directory of a download that is still pending or completed |
| DownloadTheorems.WrongFenceIsHarmlessExactlyWhenIdSafe | src/v2_browser_staging.rs:674-687 | after any run, a finalize under another fence leaves the broker as it was iff the backend id is a safe component |
| DownloadTheorems.EndsOnlyUnderItsFenceOrAnUnsafeId | src/v2_browser_staging.rs:665-785 | in every interleaving a pending operation ends only by a call under its own fence, a cleanup, or a finalize with an unsafe id |
| DownloadTheorems.ForeignParentIdDropsTheOperation | src/v2_browser_staging.rs:674-677 | a run in which another context's finalize with the id `..` drops the operation and its directory |
| DownloadOutcomes.FenceExactly | src/v2_browser_staging.rs:859-875 | the fence check passes iff the fence is the record's own, and else names the first part that differs |
| DownloadOutcomes.BeginsExactly | src/v2_browser_staging.rs:678-689 | an operation can be begun iff it is pending under that fence, and which refusal it gets otherwise |
| DownloadOutcomes.PreparesExactly | src/v2_browser_staging.rs:585-662 | a prepare succeeds iff name and bound are valid, the context has room, no pending or, unless overwriting, completed download has the name, a draw is free and the directory can be made; each refusal names the first that fails; what is stored is the request, under the new handle |
| DownloadOutcomes.PreparedCanBeBegun | src/v2_browser_staging.rs:585-662 | what was prepared can be begun under the fence of its request, and an abort under that fence undoes the prepare |
| DownloadOutcomes.FileWorkExactly | src/v2_browser_staging.rs:690-713 | the file checks pass iff the reported size is within both bounds and file and bytes are of that size |
| DownloadOutcomes.CommitsExactly | src/v2_browser_staging.rs:715-761 | a commit acts iff the operation is still pending under that fence; it then takes exactly the completed downloads it overwrites, ends the operation, and completes it iff a draw is free |
| DownloadOutcomes.UndisturbedFinalizeSucceeds | src/v2_browser_staging.rs:665-761 | after any run a finalize that nothing disturbs, under its fence with a safe id and a file of the reported size within bounds, returns those bytes under the prepared name |
| DownloadOutcomes.AbortsExactly | src/v2_browser_staging.rs:763-785 | after any run an abort succeeds iff the operation is pending under that fence; then exactly it and its directory go, and otherwise nothing changes |
| DownloadOutcomes.CleanupsExactly | src/v2_browser_staging.rs:796-840 | after any run a cleanup takes exactly the downloads of its context, or all of them, removes their directories and leaves the others as they were |
| DownloadOutcomes.NoDirectoryIsForgotten | src/v2_browser_staging.rs:737-840 | in every interleaving each directory ever made is in use, removed, or lost with an operation that found no handle |
| TransferNames.SafeComponentExactly | src/v2_browser_staging.rs:975-981 | an id is accepted iff it is bounded, free of control characters, and a child's name followed only by slashes and lone dots |
| TransferNames.TrailingSlashAndDotAreSafe | src/v2_browser_staging.rs:979-980 | a child's name is also accepted, as the same component, with a slash or a slash and a dot behind it |
| TransferNames.SafeIdIsADirectChild | src/v2_browser_staging.rs:694 | joined to any directory, a safe id is a direct child of it |
| TransferNames.ValidNameIsOneComponent | src/v2_browser.rs:602-634 | a valid destination name is a single path component, namely itself |
| TransferNames.StemExactly | src/v2_browser.rs:620-624 | the stem is what stands before the first dot, in ASCII upper case |
| TransferNames.ReservedExactly | src/v2_browser.rs:625-628 | the reserved stems are CON, PRN, AUX, NUL, and COM and LPT with a digit from one to nine |
| TransferNames.ReservedNamesExactly | src/v2_browser.rs:620-631 | a name is refused as reserved iff it is a device name, in any mixture of letter cases, alone or before a dot |
| TransferNames.DestinationNameExactly | src/v2_browser.rs:602-634 | the exact language of destination names: between one and 255 bytes, equal to their own trim, without control or forbidden characters, not ending in a dot, and naming no device |
| DownloadBroker.Broker.UniqueHandle | src/v2_browser_staging.rs:959-973 | the loop finds the first draw not in use, and finds one iff there is one |
| DownloadBroker.Broker.PrepareDownload | src/v2_browser_staging.rs:585-662 | succeeds iff name and bound are valid, the context has room, the name is not taken, a draw is free and the directory can be made, with the first failing check as the refusal; the request is stored as it was asked for and can be begun under its fence |
| DownloadBroker.Broker.FinalizeBegin | src/v2_browser_staging.rs:678-689 | the first section succeeds iff the operation is pending under that fence, and clones it |
| DownloadBroker.Broker.FinalizeCommit | src/v2_browser_staging.rs:715-761 | the second section refuses, changing nothing, unless the operation is still pending under that fence; else it takes exactly the completed downloads it overwrites, the operation ends, lost iff no handle is free, and a success completes the clone's directory and name |
| DownloadBroker.Broker.RemoveCompleted | src/v2_browser_staging.rs:737-741 | the loop removes exactly the collected handles |
| DownloadBroker.Broker.AbortDownload | src/v2_browser_staging.rs:763-785 | succeeds iff the operation is pending under that fence, and removes exactly it |
| DownloadBroker.Broker.CleanupOf | src/v2_browser_staging.rs:796-824 | a record is there afterwards iff it was there before and is of another context |
| EphemeralHub.EveryRunFits | src/v2_ephemeral_data_refs.rs:188-203 | reference counts hold for every owner in every reachable state, and byte sums too below the largest u64 |
| EphemeralHub.SaturatingCheckIsExactIff | src/v2_ephemeral_data_refs.rs:201-203 | the saturating comparison decides like exact arithmetic iff the limit is below the largest u64 |
| EphemeralHub.ByteBudgetIsExactIff | src/v2_ephemeral_data_refs.rs:192-203 | every run keeps every owner's true byte sum within the limit iff the limit is below the largest u64 or an owner may hold one reference only |
| EphemeralHub.PruningIsInvisible | src/v2_ephemeral_data_refs.rs:316-320 | while clock readings never go back, prunes inserted anywhere change no mint reply and no successful resolve; Expired may become UnknownRef, a remove may miss what it found, a sweep may count fewer, and nothing else differs |
| EphemeralHub.PruneIsInvisibleExactlyWhen | src/v2_ephemeral_data_refs.rs:316-320 | a prune goes unnoticed by the next call, after every run and for every call, iff its clock reading is not ahead of that call's or at most one lifetime after zero |
| EphemeralHubLife.ResolvedWasMinted | src/v2_ephemeral_data_refs.rs:235-301 | what a lookup returns was written by an earlier mint of the run for that very owner and binding, expires one lifetime after it, and has not expired |
| EphemeralHubLife.HeldExactlyUntilEnded | src/v2_ephemeral_data_refs.rs:303-344 | a minted reference is held, unchanged, exactly until the first call that ends it |
| EphemeralHubLife.ResolvesExactlyWhileAlive | src/v2_ephemeral_data_refs.rs:235-301 | after any run a minted reference resolves, to what was minted, iff asked by its owner under its binding, unexpired, and ended by no call since |
| EphemeralHubLife.MintsExactly | src/v2_ephemeral_data_refs.rs:162-232 | a mint succeeds iff binding and locator are valid, both counts and the owner's true byte sum leave room among what has not expired, the expiry is a u64 and a draw is free; each refusal names the first that fails |
| EphemeralHubLife.LooksUpExactly | src/v2_ephemeral_data_refs.rs:235-301 | after any run a lookup returns the record iff owner and whole binding match and it has not expired; each refusal names the first part that differs |
| EphemeralHub.BindingExactly | src/v2_ephemeral_data_refs.rs:805-819 | a binding is valid iff its device and, if any, its operation show something but white space and generation and revision are positive |
| EphemeralHub.LocatorExactly | src/v2_ephemeral_data_refs.rs:182-187 | a locator is valid iff it has between one and 512 bytes and no control character |
| EphemeralHubRegistry.Open | src/v2_ephemeral_data_refs.rs:146-159 | a registry exists iff the limits are valid, and starts with an empty run |
| EphemeralHubRegistry.Registry.OwnerUsage | src/v2_ephemeral_data_refs.rs:192-197 | the loop yields the owner's exact count and the true byte sum clamped at the largest u64 |
| EphemeralHubRegistry.Registry.MintRef | src/v2_ephemeral_data_refs.rs:162-232 | succeeds iff binding, locator, counts, bytes, expiry and draws allow it, with the first failing check as the refusal; keeps exactly what has not expired, and on success the new record, field by field; what it returns resolves at once and is on record as minted by this call |
| EphemeralHubRegistry.Registry.ResolveRef | src/v2_ephemeral_data_refs.rs:235-301 | returns the record iff owner and binding match and it has not expired, with the first failing part as the refusal; it is what an earlier call on this object minted; nothing changes but for an expired reference it finds |
| EphemeralHubRegistry.Registry.Lookup | src/v2_ephemeral_data_refs.rs:263-301 | the written-out tests give the specified lookup |
| EphemeralHubRegistry.Registry.RemoveRef | src/v2_ephemeral_data_refs.rs:303-314 | removes the reference iff its owner asks, and says so |
| EphemeralHubRegistry.Registry.PruneRefs | src/v2_ephemeral_data_refs.rs:316-320 | keeps exactly what has not expired and reports how many had |
| EphemeralHubRegistry.Registry.InvalidateDeviceGeneration | src/v2_ephemeral_data_refs.rs:322-332 | afterwards a lookup succeeds iff it did before and its binding is of another device or of that generation |
| EphemeralHubRegistry.Registry.InvalidateCapabilityRevision | src/v2_ephemeral_data_refs.rs:334-344 | afterwards a lookup succeeds iff it did before and its binding is of another device or of that revision |
| EphemeralAgent.EveryRunAccounts | src/v2_ephemeral_data_refs.rs:526-595 | object count, object sizes, running total and file lengths stay within limits on every run, also after removals that failed midway |
| EphemeralAgent.AccountingIsExactIff | src/v2_ephemeral_data_refs.rs:548-587 | the running total equals the true sum after every run iff no sum of objects that the limits admit and a slice can carry saturates |
| EphemeralAgent.PruneTakesOnlyExpired | src/v2_ephemeral_data_refs.rs:686-697 | pruning never takes a live record and, when it finishes, leaves nothing expired |
| EphemeralAgent.FenceExactly | src/v2_ephemeral_data_refs.rs:821-845 | the fence passes iff the request names the whole binding, and else names the first part that differs |
| EphemeralAgent.ReadsExactly | src/v2_ephemeral_data_refs.rs:598-664 | a read returns a range iff the size asked for is legal and the object is there, unexpired, under that very binding, intact, reaches the offset and can be read; each refusal names the first that fails; nothing live changes |
| EphemeralAgent.RemovesExactly | src/v2_ephemeral_data_refs.rs:666-684 | a removal returns true iff the object is there under that very binding and its file can go, and then exactly its record and file go; false iff it is absent; otherwise nothing changes |
| EphemeralAgent.StagesExactly | src/v2_ephemeral_data_refs.rs:526-595 | after any run whose limits cannot saturate, staging succeeds iff every expired object can go, the binding is valid, size, count, true byte total and expiry are within bounds without them, a draw is free and the file can be written |
| EphemeralAgent.PagingReturnsTheObject | src/v2_ephemeral_data_refs.rs:598-664 | any mix of legal page sizes returns the object's bytes in order, reports the end exactly at the end, and reaches it within as many pages as there are bytes |
| EphemeralAgent.StagedBytesComeBack | src/v2_ephemeral_data_refs.rs:526-664 | after any later calls that neither remove the object nor read a clock past its expiry, paging from offset zero returns exactly the staged bytes |
| EphemeralAgentStore.AgentStore.RemoveOne | src/v2_ephemeral_data_refs.rs:699-713 | succeeds iff the record is absent or its file can go; then it is gone and all others stay, and a failure changes nothing |
| EphemeralAgentStore.AgentStore.RemoveEach | src/v2_ephemeral_data_refs.rs:693-695 | the loop stops at the first failure, as specified |
| EphemeralAgentStore.AgentStore.PruneExpired | src/v2_ephemeral_data_refs.rs:686-697 | live records are kept as they were, and success leaves nothing expired and reports how many had expired |
| EphemeralAgentStore.AgentStore.StageObject | src/v2_ephemeral_data_refs.rs:526-595 | under limits that cannot saturate it succeeds iff binding, size, count, true byte total, expiry, draw and file allow it once everything expired is gone, with the first failing check as the refusal; a success holds exactly the given bytes under the given binding |
| EphemeralAgentStore.AgentStore.ReadObject | src/v2_ephemeral_data_refs.rs:598-664 | returns a range iff the size asked for is legal and the object is there, unexpired, under that very binding, intact, reaches the offset and can be read, with the first failing check as the refusal; the range is exactly the object's bytes from the offset on, as many as asked for or left unless the read comes up short, and the end is reported exactly at the end |
| EphemeralAgentStore.AgentStore.RemoveObject | src/v2_ephemeral_data_refs.rs:666-684 | true iff the object was there under exactly that binding and its file could go, and then exactly its record and file are gone; false iff it was absent; otherwise nothing changes, and a file that cannot go is an I/O failure |
| MutationAuthority.EveryScheduleIsSound | src/mutation_authority.rs:89-265 | every schedule of process steps and deaths keeps lock ownership, program counters, cell and history consistent |
| MutationAuthority.MutualExclusion | src/mutation_authority.rs:93-99 | two processes inside an exclusive section are the same process |
| MutationAuthority.PermitIsFresh | src/mutation_authority.rs:100-120 | for a permit's whole life its owner and epoch are the durable ones |
| MutationAuthority.EveryoneAnswersWhatWasAsked | src/mutation_authority.rs:89-265 | in every schedule each process stands where only the call it last began, with its roles, can have taken it |
| MutationAuthority.PermitIsForTheRoleThatAsked | src/mutation_authority.rs:100-120 | whoever holds a permit asked for it in the role that owns the durable cell |
| MutationAuthority.AcquireExactly | src/mutation_authority.rs:93-120 | under the lock an acquire ends in a permit iff the cell is there and belongs to the role that asked; otherwise nothing changes |
| MutationAuthority.LockingExactly | src/mutation_authority.rs:93-99 | an idle process gets into an exclusive call iff the lock file is there and nobody holds the lock |
| MutationAuthority.InspectExactly | src/mutation_authority.rs:180-195 | an idle process gets to inspect iff the lock file is there and nobody is in an exclusive call, and changes neither cell nor exclusive lock |
| MutationAuthority.EveryWayOutLetsGo | src/mutation_authority.rs:89-265 | after any schedule, a drop, a finish, a failed write or a death lets exactly that process go of the lock and leaves cell and history |
| MutationAuthority.InitializesAtMostOnce | src/mutation_authority.rs:147-178 | at most one initialization reports success, and the durable epoch always equals the number of statuses ever installed |
| MutationAuthority.OwnersAlternate | src/mutation_authority.rs:253-264 | the history is the alternating chain from epoch one, and the initial owner holds exactly the odd epochs |
| MutationAuthority.SwitchLeavesOldOrSuccessor | src/mutation_authority.rs:380-425 | however a switch ends, the cell holds what it read or the exact successor, and the successor on success |
| MutationAuthority.EqualEpochsMeanNoSwitch | src/mutation_authority.rs:213-265 | two permits of a run with equal epochs have no switch between them |
| MutationAuthority.SwitchToItselfIsRefused | src/mutation_authority.rs:222-224 | a switch to the owner it names as current begins nothing |
| MutationAuthority.SwitchExactly | src/mutation_authority.rs:235-260 | under the lock a switch goes on iff the cell belongs to the owner named as current, and past its guard iff that passes and the epoch can grow; otherwise nothing changes |
| MutationAuthority.WritesAreAskedFor | src/mutation_authority.rs:147-265 | every write of the cell is what its writer asked for: the first owner at epoch one, or the owner named as next, one epoch on, over the owner named as current |
| MutationAuthority.UndisturbedSwitchSwitches | src/mutation_authority.rs:213-265 | after any schedule an undisturbed switch from the current owner, with a passing guard and a write that goes through, installs the other owner one epoch on |
| MutationAuthority.UndisturbedInitInitializes | src/mutation_authority.rs:147-178 | after any schedule that left the cell empty an undisturbed initialization installs its owner at epoch one and reports success |
| UpgradeTransaction.StoredRecordsAreValid | scripts/v2_upgrade_transaction.py:103-177 | only records that pass validation are ever stored |
| UpgradeTransaction.CompletedMeansTheWholeContract | scripts/v2_upgrade_transaction.py:167-175 | a stored completed record has each of the nine flags, both identities, v2 ownership with an epoch, and no failure |
| UpgradeTransaction.StepGoesOnward | scripts/v2_upgrade_transaction.py:179-292 | one command moves the record onward along the allowed statuses, or starts anew over a replaceable one |
| UpgradeTransaction.TransactionsNeverRegress | scripts/v2_upgrade_transaction.py:199-229 | within a transaction identity is fixed and phase, flags and time stamp never go back, whatever the clock and the disk do |
| UpgradeTransaction.FailedClosedIsAbsorbing | scripts/v2_upgrade_transaction.py:40 | no sequence of commands changes a record that failed closed |
| UpgradeTransaction.OperatorActionLeftOnlyByDeferredCleanup | scripts/v2_upgrade_transaction.py:241-292 | a record needing operator action changes only by the exact deferred cleanup, and is then completed |
| UpgradeTransaction.DeferredCleanupIsTheSameCompletion | scripts/v2_upgrade_transaction.py:220-292 | both routes to completion store the same record up to the time stamp |
| UpgradeTransaction.WordsExactly | scripts/v2_upgrade_transaction.py:22-24 | which strings are commits, tokens and reasons, by length and alphabet |
| UpgradeTransaction.PhasesInOrder | scripts/v2_upgrade_transaction.py:25-29 | every phase stands in the listed order at its own index |
| UpgradeTransaction.ValidExactly | scripts/v2_upgrade_transaction.py:125-177 | a record is valid iff words and times are in order and it is marked completed, in status and phase alike, only when it is done |
| UpgradeTransaction.StartsExactly | scripts/v2_upgrade_transaction.py:179-197 | a start returns iff commits, id and clock are in order, what it replaces is valid and replaceable, and the write goes through; the record stored, field by field |
| UpgradeTransaction.AdvancesExactly | scripts/v2_upgrade_transaction.py:199-218 | an advance returns iff the record is open, the phase does not go back or to completed, words are in order and owner and epoch come together; each given field replaces the old one, flags are only raised, everything else stays |
| UpgradeTransaction.FailsExactly | scripts/v2_upgrade_transaction.py:220-229 | a fail of an open record stores status, reason and action and nothing else; of a settled one it returns what is there |
| UpgradeTransaction.CompletesExactly | scripts/v2_upgrade_transaction.py:231-238 | a complete returns iff the record is open in cleanup with every flag, both identities and v2 ownership, and stores that record as done |
| UpgradeTransaction.DefersExactly | scripts/v2_upgrade_transaction.py:241-292 | a deferred cleanup returns iff the record is the one refused-cleanup failure of that id, commit and generation with every flag but cleanup, and stores that record as done |
| UpgradeTransactionFile.TransactionFile.AtomicWrite | scripts/v2_upgrade_transaction.py:103-124 | the file is replaced iff the record is valid and the write reaches its rename |
| UpgradeTransactionFile.TransactionFile.StartTransaction | scripts/v2_upgrade_transaction.py:179-197 | returns iff commits, id and clock are in order, the record found is valid and completed or failed before install, and the write goes through; stores exactly the arguments, the clock as both times, the first phase, no flags and nothing else |
| UpgradeTransactionFile.TransactionFile.AdvanceTransaction | scripts/v2_upgrade_transaction.py:199-218 | returns iff the record is open, the phase goes neither back nor to completed, words are in order and owner and epoch come together, and the write goes through; each stored field is the given value or the old one, flags are the union and the time stamp the later |
| UpgradeTransactionFile.TransactionFile.SetFlags | scripts/v2_upgrade_transaction.py:214-216 | the loop raises exactly the listed flags |
| UpgradeTransactionFile.TransactionFile.FailTransaction | scripts/v2_upgrade_transaction.py:220-229 | stores status, reason and action into an open record and leaves every other field but the time stamp; returns, changing nothing, when the transaction is already settled |
| UpgradeTransactionFile.TransactionFile.CompleteTransaction | scripts/v2_upgrade_transaction.py:231-238 | returns iff the record is open in cleanup with every flag, both identities and v2 ownership, and the write goes through; the record stored is then the same one, done |
| UpgradeTransactionFile.TransactionFile.CompleteDeferred | scripts/v2_upgrade_transaction.py:272-292 | returns iff the record is the refused-cleanup failure of that id, commit and generation with every flag but cleanup, and the write goes through; the record stored is then the same one, done |
| WindowsUpgrade.Host.PerformUpgrade | scripts/v2_windows_upgrade.py:423-502 | every durable write leaves either status and tracked files untouched or this run's record, whose state and phase tell what the tree is, with evidence of the old tree and its files kept; the run reports an upgrade, a rollback or a blocked host iff the status says so; a rollback is exact iff no binary was a symlink; a blocking status changes nothing; an upgrade in which nothing fails completes, and on a host with faithful configuration copies a rollback in which nothing fails never needs an operator; an upgraded run wrote hub health, then agent health, then the external smoke iff one is configured, then completion; a run with a service call that fails, a failing file operation or no configuration is not an upgrade; a run that failed before it touched the services says so in its status when that can be written; the stage is gone after an upgrade or a rollback |
| WindowsUpgrade.Host.CheckHealth | scripts/v2_windows_upgrade.py:463-471 | the hub is checked first, then the agent, each after its phase is on record; passes when both succeed and not when one fails, and touches no tracked file |
| WindowsUpgrade.Host.Activate | scripts/v2_windows_upgrade.py:453-472 | at every write the record tells the tree: drained means old, brought up or completed means the whole candidate set |
| WindowsUpgrade.Host.Rollback | scripts/v2_windows_upgrade.py:480-501 | every write is under a blocking status or after the whole old set is back, and the kept files stay |
| WindowsUpgrade.Host.StageCandidate | scripts/v2_windows_upgrade.py:344-351 | no tracked file or status changes |
| WindowsUpgrade.Host.SnapshotPrevious | scripts/v2_windows_upgrade.py:324-341 | no tracked file or status changes, the evidence describes the tracked files, and every old binary is kept |
| WindowsUpgrade.Host.ActivateStaged | scripts/v2_windows_upgrade.py:354-364 | success means every binary has the reviewed digest's content and, when configurations are copied faithfully, both configurations are the candidate's |
| WindowsUpgrade.Host.RestorePrevious | scripts/v2_windows_upgrade.py:367-392 | success means every tracked path is as the evidence says; a binary that was absent or a symlink is absent |
| WindowsUpgrade.Host.RestoreConfigs | scripts/v2_windows_upgrade.py:389-392 | success means both configurations are the old ones and no binary was touched |
| WindowsUpgrade.Host.WriteStatus | scripts/v2_windows_upgrade.py:412-420 | the record gets the new state, phase and result and a time stamp that never goes back; the file is replaced by it or left as it was |
| WindowsUpgrade.Host.ActivateBinaries | scripts/v2_windows_upgrade.py:360-364 | success means every binary has the reviewed digest's content; configurations, status and kept files are untouched |
| WindowsUpgrade.Host.RestoreBinary | scripts/v2_windows_upgrade.py:371-388 | touches only its own binary, and success means it is as the evidence says |
| WindowsUpgrade.EveryHistoryIsUniform | scripts/v2_windows_upgrade.py:316-321 | after any sequence of upgrades each cut off anywhere, a non-blocking status means uniformly the candidate that completed last or, if none did, the first set less any symlinked binaries a rollback took; a completed status written in the sequence names that candidate |
| WindowsUpgrade.UntilCompletionNothingChanges | scripts/v2_windows_upgrade.py:475-502 | without symlinked binaries, until an upgrade completes every non-blocking stop leaves exactly the first set |
| WindowsUpgrade.AttemptUpgrade | scripts/v2_windows_upgrade.py:423-502 | a run of the upgrade killed before its first write, after any write, or not at all is an attempt in the sense of the history results |
| WindowsUpgrade.UpgradeRepeatedly | scripts/v2_windows_upgrade.py:423-502 | runs of the upgrade one after the other, each killed anywhere, form such a history and leave the uniform set it promises |
| WindowsUpgrade.RollBackOverASymlink | scripts/v2_windows_upgrade.py:480-497 | a run over a tree with a symlinked Hub binary whose services cannot be stopped ends rolled back, without that binary |
| RelativePath.SafeExactly | scripts/v2_backup_restore.py:133-139 | a path is accepted iff it is a lone dot or every piece between slashes names a child |
| RelativePath.SafeBelow | scripts/v2_backup_restore.py:999-1013 | below a namespace a safe path is followed by a safe path that is not the dot |
| BackupRestore.DestinationsStayInside | scripts/v2_backup_restore.py:999-1013 | every staged path of a verified backup is a safe path, not the dot, below the stage's root or launchd directory |
| BackupRestore.DestinationsDoNotCollide | scripts/v2_backup_restore.py:1002-1013 | different backup paths are staged at different places |
| BackupRestore.DestinationExactly | scripts/v2_backup_restore.py:999-1013 | a path has a place iff it is in the payload, then below the root, or in launchd, then where it is |
| BackupRestore.VerifiedStageIsTheManifestTree | scripts/v2_backup_restore.py:1015-1057 | a verified stage of a verified backup that did not change holds the payload with recorded bytes and modes, one empty lock, and nothing else |
| BackupRestore.VerifiedStageInstallsWhatItWasComparedWith | scripts/v2_backup_restore.py:1026-1057 | whatever the backup held when compared, a verified stage holds the manifest's paths and modes with exactly those bytes |
| BackupRestore.InstallsExactlyWhenIntact | scripts/v2_backup_restore.py:1044-1052 | that tree is the manifest's iff every payload file still had its recorded bytes |
| BackupRestore.ChangedPayloadIsInstalled | scripts/v2_backup_restore.py:1318-1334 | for every file name, a backup that is verified and then changed, and a stage that passes the comparison with it, whose tree is not the manifest's |
| BackupRestore.SameDigestSameTree | scripts/v2_backup_restore.py:861-868 | two stages verified under one digest, from any two backups, hold identical install trees |
| BackupRestore.RestoreReturnsTheBackup | scripts/v2_backup_restore.py:1015-1057 | a stage verified under a backup's digest, even from another copy of it, holds exactly that backup's payload files plus the empty lock |
| BackupRestore.VerifiedExactly | scripts/v2_backup_restore.py:854-908 | a backup verifies iff its manifest has the pinned digest and lists at least one file, the listed paths are distinct and exactly the files there, the lock is not among them, every file has its recorded size, mode and bytes, and the identity checks pass |
| BackupRestore.StagedExactly | scripts/v2_backup_restore.py:1015-1057 | a stage verifies iff its marker names the digest and both directories, its files are the destinations of all records and one empty private lock, and each copy has the backup's bytes and the recorded mode |
| BackupRestoreHost.CollectRecords | scripts/v2_backup_restore.py:811-827 | the loop accepts iff records are valid under distinct paths, and collects exactly those paths |
| BackupRestoreHost.CompareFiles | scripts/v2_backup_restore.py:844-852 | the loop accepts iff every recorded file is there as recorded |
| BackupRestoreHost.VerifyFileRecords | scripts/v2_backup_restore.py:810-852 | accepts iff the files are exactly the recorded ones |
| BackupRestoreHost.VerifyBackup | scripts/v2_backup_restore.py:854-908 | accepts iff digest, records, files and absence of the lock all hold and the identity checks pass |
| BackupRestoreHost.CompareCopies | scripts/v2_backup_restore.py:1044-1052 | the comparison loop accepts iff every staged copy agrees with the backup's file and the recorded mode |
| BackupRestoreHost.VerifyStagedRestore | scripts/v2_backup_restore.py:1015-1075 | accepts iff marker, file set, copies and lock are as specified and the identity checks pass |
| BackupRestoreHost.RecordSource | scripts/v2_backup_restore.py:217-225 | a record is made iff the path is safe and the source acceptable, with size and mode of one reading and the digest of the next |
| BackupRestoreHost.RecordSources | scripts/v2_backup_restore.py:785-789 | succeeds iff every source can be recorded, and gives each record from its own two readings, in order |
| BackupRestoreHost.MeasureSources | scripts/v2_backup_restore.py:758-760 | succeeds iff every source is acceptable when measured, and yields the sum of the sizes each reading found |
| BackupRestoreHost.CopySources | scripts/v2_backup_restore.py:938-940 | succeeds iff every source is there when copied, and holds exactly the bytes those readings found |
| BackupRestoreHost.CreateBackup | scripts/v2_backup_restore.py:910-956 | a successful backup verifies and holds for every source bytes that its hashing and its copying both found, of the size and mode recorded, however sources change meanwhile; count and measured total are within bounds; when nothing changes it succeeds and mirrors the sources |
| BackupRestoreHost.Machine.CopyStage | scripts/v2_backup_restore.py:1109-1111 | copies every file, as read then, to its place, and always succeeds on distinct records of known namespaces without I/O failures |
| BackupRestoreHost.Machine.StageRestore | scripts/v2_backup_restore.py:1077-1126 | success leaves a stage verified against the backup as last read, failure leaves the stage as it was unless its removal fails, and without I/O failures or changes a verified backup of known namespaces is staged on a clean target |
| BackupRestoreHost.Machine.InstallLaunchAgents | scripts/v2_backup_restore.py:1129-1158 | success installs the three staged plists; in every case files that were there stay as they were and new ones are staged plists; a failure whose removals succeed changes nothing; without I/O failures it succeeds iff all three are staged and none was there |
| BackupRestoreHost.Machine.RemoveInstalled | scripts/v2_backup_restore.py:1152-1158 | adds and rewrites nothing, removes only what is listed, and all of it when every removal succeeds |
| BackupRestoreHost.Machine.ActivateRestore | scripts/v2_backup_restore.py:1307-1360 | without I/O failures succeeds iff a stage is there, the target is clean, backup and stage verify and all three plists are staged; success installs the pinned manifest's paths, modes and all three plists, and its bytes iff the payload was intact when compared, and uses the stage up; failure leaves the install root as it was or, where there was none, complete with the stage's root gone, keeps every old launch file, and adds only the manifest's plists |
| BackupRestoreHost.MovedStageIsRefused | scripts/v2_backup_restore.py:1323-1334 | a stage whose root has been moved away never passes verification again |
| BackupRestoreHost.Machine.InstallPlists | scripts/v2_backup_restore.py:1335-1360 | the plists installed are the manifest's, and a failure whose removals succeed changes no launch file; without I/O failures it succeeds iff all three are staged |
| BackupRestoreHost.Machine.Promote | scripts/v2_backup_restore.py:1323-1360 | moves the verified root into place and installs the plists; without I/O failures it succeeds iff all three are staged, and success uses the stage up |

## Left out

- The upload staging broker: one map with a per-context count and fenced removal; it would add only easy members.
- Mutation authority is a state machine over process steps, not a class, because its guarantees are about interleavings; permission and path checks, malformed cell contents and the in-process reservation on Windows are refusals that change nothing and are not distinguished.
- TransferNames.SafeComponentExactly: models Unix path components; backslashes and drive prefixes, which Windows paths know, are not modelled.
- Directory modes, symlink checks, canonicalization, fsync and ACLs: file operations that may fail.
- The runtime, handoff, state and code-signing checks of a backup, and the manifest's metadata: one boolean outcome per verification and one opaque field.
- Starting services after a restore and their health polling: activation is modelled up to that point. In the Windows upgrade these are calls that succeed or fail.
- The JSON codec and its type checks: records are typed.
- BackupRestoreHost.CreateBackup: the encoded size of the manifest is a boolean, and the separate bound of the handoff tree is part of the identity checks.
- Debug redaction, error-code strings, command lines and logging.
- WindowsUpgrade.EveryHistoryIsUniform: does not model an operator who repairs a blocked host; a blocked history stays blocked.
- BackupRestoreHost.Machine.StageRestore: says nothing of what a failed removal of the stage leaves, except that the next staging then refuses; each pass over the backup is one reading.
- BackupRestoreHost.Machine.ActivateRestore: does not model temporary files left by an interrupted plist copy.
