# Apollo SFS: a verified model

This project models the transactional core of the Apollo SFS API in Dafny and proves what
that core promises. Each database table is a finite map (or set) held by an object, each SQL
statement or transaction is a method on it, and `NOW()` is a clock that never goes back. A
method's contract says what the whole new state is; runs are sequences of such steps, and the
main results are about every run. Beside the specification of an operation stand lemmas that
say by the tables' columns when it succeeds and what it leaves behind. `dafny verify
dfyconfig.toml` checks everything.

| area | modules |
|---|---|
| vocabulary, sums, tables | `Prelude`, `Sums`, `Tables` |
| drive capacity, registration slots, allocations | `Drives`, `Registration`, `Allocations`, `AdminBrowse`, `Runs`, `Holds`, `Capacity`, `Quotas`, `Refunds`, `OrderCapture` |
| folder forest | `Forest`, `Subtrees`, `FolderSizes`, `FolderStore`, `FolderRuns` |
| recognition | `JobQueue`, `RecognitionGroups` |
| queries and paging | `Paging`, `Where`, `MediaFilter` |
| byte ranges | `ByteRange` |
| master keys | `MasterKeys`, `KeyRotation` |
| expansion requests and invoices | `Expansion`, `Invoices` |
| pricing discounts | `Discounts` |

The results worth reading first: `Capacity.RunWithinCapacityIff`, `Refunds.RunNonNegativeIff`,
`Holds.HonouredHoldRegistersIff`, `Quotas.AcceptedSaveIsExact`, `OrderCapture.QuotaTracksOrdersIff`,
`Forest.CycleCheckIsExact`, `FolderSizes.MoveShiftsSizes`, `FolderRuns.RunKeepsForestIff`,
`FolderRuns.RunKeepsDrivesIff`, `JobQueue.ClaimIsFair`, `RecognitionGroups.PurgesCommute`,
`MediaFilter.Clauses`, `Paging.TimeWalksCompleteIff`, `ByteRange.WrittenSelects`,
`MasterKeys.BootstrapIsExclusive`, `KeyRotation.StepKeepsUsableIff`,
`MediaFilter.WalksShowAllIff`, `Expansion.StatusChangesAreBounded` and
`Discounts.ListingOrderIsIrrelevant`.

Several promises hold only under a condition. Most of these are stated as equivalences, and
concrete runs or inputs show the other side:

- Capacity survives extending or reactivating a group and registering through a hold of an expired
  group exactly when the bytes fit, which the code does not check (`Capacity.ExpiredGroupOvercommits`).
  A purchased top-up is checked, but in a statement of its own, so two of them that were checked
  together fit exactly if their sum does (`Capacity.TwoCheckedTopUps`). Capacity survives a save
  exactly when dropping rows that a refund left negative fits too.
- A per-drive quota stays non-negative exactly while every refund or revert is covered by the row it
  hits, which is that of the drive primary at the time (`Refunds.RefundHitsOtherDrive`).
- Completing a hold trusts the slot its caller names (`Holds.CompletionNeedsOwnSlot`).
- The aggregate quota drifts from the sum exactly when a top-up lands on no held drive, or an admin
  overwrites the aggregate with something other than the sum.
- A user's quota follows the storage orders exactly while each capture, wherever it can land, reads
  a row worth what the order's one uncaptured row is; order ids are not unique, so it need not
  (`OrderCapture.SharedOrderMisgrants`). An order that is reverted and then refunded is taken back
  twice (`OrderCapture.RevertedThenRefunded`).
- A cycle check made before another move no longer covers a later reparenting
  (`FolderRuns.StaleCheckClosesCycle`).
- The promise that subfolders inherit their parent's drive is kept exactly by the events that join no
  two drives. WebDAV moves and folders created by path do not check this
  (`FolderRuns.MoveCrossesDrives`, `FolderRuns.UnpinnedChildLeavesDrive`), and the folder service
  compares drives with missing pins resolved, so a later change of the primary drive can split a tree
  (`FolderRuns.UnpinnedUnderPrimarySplits`).
- Merging into a target that is also a source deletes the target.
- Purging two collections ends the same in either order exactly when, of the detections that only
  they hold, neither indexes one that the other holds unindexed
  (`RecognitionGroups.UnindexedMemberLeaks`).
- Time-cursor paging loses tied rows and loops on the epoch. Media paging shows every file exactly
  when no two files tie in the sort order.
- `IsZero` says "would narrow nothing", but a request that names all three media types narrows
  nothing either, and its filter is not zero.
- A suffix range on an empty file is accepted with an end of -1 (`ByteRange.EmptyFileSuffix`). An
  accepted range header is in the standard's grammar exactly when neither number has a sign
  (`ByteRange.PlusIsAccepted`, `ByteRange.MinusZeroIsAccepted`), and a number beyond 64 bits is
  refused where the standard would clamp it.
- Widening a range can overflow within the last four MiB below 2^63.
- A user put on a retiring key by a stale process, after another process counted zero, loses
  the key at the purge.
- Capturing a deposit is not guarded by the request's status, so it reopens a rejected request;
  that is the only way a request's rank falls.
- Creating an invoice is two statements outside a transaction, so two creates can interleave.

## Model

| member | source | states |
|---|---|---|
| `Drives.PickBestFit` | api/db/registration_groups.go:84-112 | The drive chosen for a slot has room for it and no drive with room has less; nothing is chosen exactly when no drive of the tier has room. |
| `Drives.SelectDriveForQuota` | api/db/drives.go:331-353 | The chosen drive is active, on an active server, and has the room, and no such drive with room has less; none is chosen exactly when no active drive of an active server has the room. |
| `Drives.PlacementIsInService` | api/db/registration_groups.go:66-82 | The same for a slot, among the drives of its tier on its server. |
| `Drives.RoomIsUnclaimed` | api/db/drives.go:331-347 | The room on a drive is its capacity less the users' quotas there and less the unconsumed slots of active, unexpired groups. |
| `Drives.AdvertisedMaximumIsExact` | api/db/drives.go:355-377 | A positive quota can be placed exactly when it is at most the advertised maximum. |
| `Drives.TierAvailabilityIsExact` | api/db/registration_groups.go:672-701 | A slot of positive quota can be placed exactly when its server and tier are listed with at least that much. |
| `Drives.ListedIffInService` | api/db/registration_groups.go:672-701 | A tier is listed exactly when it has an active drive on an active server. |
| `Drives.AdvertisedMaximumIsFloored` | api/db/drives.go:355-377 | For a zero quota the advertised maximum, floored at zero, can mislead. |
| `Registration.InsertSlot` | api/db/registration_groups.go:89-112 | One slot goes, under a fresh id, to a best-fit drive given the slots placed before it; otherwise the outcome names what stopped it, exactly, and nothing changes. |
| `Registration.InsertedSlot` | api/db/registration_groups.go:89-112 | The new row is unconsumed, of the group and type asked for, on an active drive of that server and tier that has the room, and none of them with room has less. |
| `Registration.InsertSlots` | api/db/registration_groups.go:89-112 | The loop over specs and copies: the tables go through one best-fit insert per slot, in order, and stop at the first that cannot be placed. |
| `Registration.CreateRegistrationGroup` | api/db/registration_groups.go:114-139 | A fresh active group with all its slots placed one after the other, or no change at all; a taken link id is refused. |
| `Registration.CreatedGroupHasSlots` | api/db/registration_groups.go:114-139 | A new group has exactly as many slots of each type as were asked for; a taken link or a failed insert keeps nothing. |
| `Registration.AddRegistrationSlots` | api/db/registration_groups.go:141-155 | All the slots are placed, or no change at all. |
| `Registration.AddedSlotsCount` | api/db/registration_groups.go:141-155 | The number of slots of each type grows by exactly what was asked for, or nothing changes. |
| `Registration.DeleteFreeRegistrationSlots` | api/db/registration_groups.go:173-191 | Exactly the type's slots that are unconsumed and not held live go, with their reservation rows, and their number is returned. |
| `Registration.FreeSlotsGo` | api/db/registration_groups.go:157-191 | A slot goes exactly when it is of the type, unconsumed, and each hold on it is closed or expired; a reservation row goes exactly with its slot. |
| `Registration.ReplaceRegistrationSlotType` | api/db/registration_groups.go:195-213 | The free slots of the old type are deleted and the new ones placed after that, or no change at all. |
| `Registration.ReplacedTypeCounts` | api/db/registration_groups.go:195-213 | The type loses as many slots as are listed available, the new type gains what was asked for, or nothing changes. |
| `Registration.AvailableCountsFreeSlots` | api/db/registration_groups.go:313-345 | The listed `available` of a type is the number of its free slots, so it is never negative. |
| `Registration.ListingCounts` | api/db/registration_groups.go:313-345 | The listed total, consumed and reserved numbers count the type's slots, its consumed ones, and its unconsumed ones under an open, unexpired hold. |
| `Registration.ReleaseExpiredSlotReservations` | api/db/registration_groups.go:402-417 | Every open hold that has expired is released, nothing else changes, and their number is returned. |
| `Registration.SweepReleasesExpired` | api/db/registration_groups.go:402-417 | An open hold whose expiry has come gets the time as its release, and every other row stays as it is. |
| `Registration.OldestClaimable` | api/db/registration_groups.go:455-475 | The oldest unconsumed slot of the type without an open hold, or none exactly when there is none. |
| `Registration.ReserveRegistrationSlot` | api/db/registration_groups.go:424-493 | Sweeps, then holds the oldest claimable slot of the named slot's type under the token; the error cases change nothing and are told apart. |
| `Registration.ReserveSucceedsIff` | api/db/registration_groups.go:424-493 | A reservation succeeds exactly with a new token while some unconsumed slot of the type has no open, unexpired hold. |
| `Registration.ReserveHoldsOldest` | api/db/registration_groups.go:455-485 | The hold is on the oldest such slot, under the token, until the expiry, and the sweep is all that happens besides. |
| `Registration.NoFreeSlotIffNoneListed` | api/db/registration_groups.go:313-345 | A reservation on an existing slot fails for want of a slot exactly when the listing shows zero available, although the two use different predicates. |
| `Registration.SweepMakesFreeClaimable` | api/db/registration_groups.go:40-45 | After the sweep, having no open hold means what having no live hold meant before it. |
| `Registration.ReleaseSlotReservation` | api/db/registration_groups.go:542-552 | Exactly the open holds under the token are released. |
| `Registration.ReleaseClosesToken` | api/db/registration_groups.go:542-552 | Afterwards no hold under the token is open, and holds under other tokens and closed ones are as they were. |
| `Registration.ReleasedSlotCanBeReserved` | api/routes/services/registration_group.go:500-503 | An unconsumed slot that only this token held can be reserved again at once. |
| `Registration.CompleteSlotReservation` | api/db/registration_groups.go:558-590 | Completes an open hold and consumes the named slot, or fails and changes nothing when the hold is closed or the slot is consumed. |
| `Registration.CompletionIsExact` | api/db/registration_groups.go:554-590 | It completes exactly an open hold with an unconsumed slot, both rows get the time, the slot its user, and nothing else changes. |
| `Registration.SetRegistrationGroupActive` | api/db/registration_groups.go:347-359 | Sets the flag of an existing group and nothing else. |
| `Registration.UpdateRegistrationGroup` | api/db/registration_groups.go:361-384 | Sets the expiry of an existing group and nothing else. |
| `Registration.DeleteRegistrationGroup` | api/db/registration_groups.go:386-398 | The group goes with its slots and their reservations; nothing else changes. |
| `Registration.DeletedGroupTakesSlots` | api/db/registration_groups.go:386-398 | Exactly the group's slots and the reservations on them go. |
| `Runs.StepKeepsSound` | api/db/registration_groups.go:84-213 | Every event on the storage tables, refunds and aggregate overwrites included, keeps references resolved and slot quotas positive. |
| `Runs.RegisterWritesOneRow` | api/db/registration_groups.go:558-590 | Registering through a hold adds one user whose whole quota is one primary row on the slot's drive. |
| `Runs.RegisterClosesBoth` | api/db/registration_groups.go:554-590 | The hold was open and unexpired and its group active; it is completed now, and its slot is the new user's. |
| `Runs.SavedRowsAreRequested` | api/routes/admin_browse.go:391-482 | After an accepted save the user's rows are exactly the requested drives with the requested quotas. |
| `Runs.RunKeepsSound` | api/db/registration_groups.go:84-213 | References and positive slot quotas survive every run. |
| `Runs.GroupEventsTakeEffect` | api/db/registration_groups.go:347-552 | What a release, a sweep, a group edit and a group deletion leave behind, by the columns of the tables. |
| `Runs.DeleteFreeTakesEffect` | api/db/registration_groups.go:173-191 | After deleting the free slots of a type, whatever is left of it is consumed or under a live hold. |
| `Runs.UserEventsTakeEffect` | api/db/drives.go:590-654 | What provisioning, a new primary, a top-up and an overwrite leave behind. |
| `Holds.StepKeepsProtocol` | api/db/registration_groups.go:424-493 | Every event keeps: at most one open hold per slot; consumed exactly when exactly one hold is completed; no open hold on a consumed slot; tokens unique. |
| `Holds.RunKeepsProtocol` | api/db/registration_groups.go:424-590 | The reservation protocol holds in every state of every run. |
| `Holds.CompletionNeedsOwnSlot` | api/db/registration_groups.go:558-590 | Completion trusts the slot its caller names: on success the protocol survives exactly when that is the hold's own slot. |
| `Holds.StepHonoursHold` | api/db/registration_groups.go:173-213 | No event but its release, its completion or its group's deletion changes a live hold or its slot. |
| `Holds.LiveHoldIsHonoured` | api/db/registration_groups.go:406-493 | Through any run of other events a live hold stays open on its unconsumed slot for as long as it is unexpired. |
| `Holds.LiveHoldCompletes` | api/db/registration_groups.go:542-590 | After any such run the hold's own completion succeeds and its user gets the slot. |
| `Holds.HonouredHoldRegistersIff` | api/db/registration_groups.go:542-590 | After any such run an unexpired hold can be registered through exactly when its group is still active and the user name is new. |
| `Capacity.InsertsKeepCapacity` | api/db/registration_groups.go:66-112 | Placing slots one by one never takes a drive past its capacity. |
| `Capacity.EditKeepsCapacityIff` | api/db/registration_groups.go:347-384 | Extending or reactivating a group keeps capacity exactly when the quota it sets aside again fits on every drive. |
| `Capacity.RegisterKeepsCapacityIff` | api/db/registration_groups.go:558-590 | Registering through a hold keeps capacity exactly when the slot's quota was set aside or fits on its drive. |
| `Capacity.TopUpKeepsCapacityIff` | api/db/storage_orders.go:105-134 | A top-up, of any sign, keeps capacity exactly when the bytes fit on the drive whose row they change. |
| `Capacity.TwoCheckedTopUps` | api/routes/billing/handler.go:672-695 | Two top-ups of one drive that both passed the check before either ran fit exactly when their sum does. |
| `Capacity.ProvisionKeepsCapacity` | api/db/drives.go:306-353 | Checking the fit and then allocating a new user keeps every drive within capacity. |
| `Capacity.SaveKeepsCapacityIff` | api/routes/admin_browse.go:391-482 | An accepted save takes no drive's availability from non-negative to negative exactly when there is room for each negative row it drops; without negative rows there always is (`Refunds.NonNegativeDropFits`). |
| `Capacity.StepKeepsCapacityIff` | api/db/registration_groups.go:29-36 | For every event, refunds included, the exact condition under which capacity survives it. |
| `Capacity.RunWithinCapacityIff` | api/db/registration_groups.go:29-213 | A run stays within capacity on every drive throughout exactly when each event fitted when it happened. |
| `Capacity.ExpiredGroupOvercommits` | api/db/registration_groups.go:558-590 | A concrete run: a hold completed after its group expired overcommits its drive. |
| `Refunds.StepNonNegativeIff` | api/routes/orders/handler.go:425-460 | An event leaves every per-drive quota non-negative exactly when it is no refund beyond what the hit row has. |
| `Refunds.RunNonNegativeIff` | api/db/storage_orders.go:105-134 | Over any run per-drive quotas stay non-negative exactly when every refund or revert was covered by the row it hit. |
| `Refunds.RefundHitsOtherDrive` | api/routes/orders/handler.go:443-453 | A concrete run: bytes bought on one drive are refunded from another that became primary, and its quota goes negative. |
| `Refunds.NonNegativeDropFits` | api/routes/admin_browse.go:391-482 | Where none of the user's quotas is negative, dropping rows in a save always fits. |
| `Allocations.AllocateUserToDrive` | api/db/drives.go:590-611 | The row is written with the quota and is the user's only primary; a missing user or drive changes nothing. |
| `Allocations.AllocationIsPrimary` | api/db/drives.go:590-611 | The user's quotas sum to what they did but for the target row, which is the one primary; other users keep their rows. |
| `Allocations.SetPrimaryDrive` | api/db/drives.go:627-654 | Exactly the named row becomes primary; without that row nothing changes. |
| `Allocations.OnePrimaryIsOne` | api/db/drives.go:627-654 | The primary law says that the number of primary rows is one. |
| `Allocations.Upsert` | api/db/drives.go:718-744 | Rows left out go, wanted rows get the last quota asked for, kept rows keep their age and flag. |
| `Allocations.LastEntryWins` | api/db/drives.go:730-744 | When a drive is named more than once, the last entry counts: one counts when no later one names its drive. |
| `Allocations.AssignPrimary` | api/db/drives.go:746-761 | A surviving primary stays; otherwise a row with the largest quota, oldest first, becomes it. |
| `Allocations.ReassignedPrimary` | api/db/drives.go:746-761 | Without a surviving primary the flag goes to one row whose quota no other exceeds and that none of the same quota predates; nothing else changes. |
| `Allocations.SaveUserDriveAllocations` | api/db/drives.go:718-775 | The user's rows are replaced by the wanted set with one primary and the aggregate recomputed, or nothing changes. |
| `Allocations.SavedRowsKeepAge` | api/db/drives.go:730-744 | A save keeps the age of the rows it keeps and dates new ones now. |
| `Allocations.DistinctWantsAreExact` | api/db/drives.go:718-744 | When no drive is named twice each gets exactly the quota asked for. |
| `Allocations.AddUserQuotaAndAllocation` | api/db/storage_orders.go:105-134 | Both rows move by the bytes, the drive's only where there is one; an unknown user changes nothing. |
| `Allocations.TopUpIsExact` | api/db/storage_orders.go:105-134 | The user's aggregate and the quota of the named row move by the bytes, and no other column of any row changes. |
| `Allocations.UpdateUserQuota` | api/db/users.go:568-579 | The user's aggregate is overwritten and nothing else changes. |
| `AdminBrowse.CheckItems` | api/routes/admin_browse.go:391-459 | The validation loop stops for a malformed or unassignable item and otherwise collects exactly the violations and the wanted rows. |
| `AdminBrowse.CheckRemovals` | api/routes/admin_browse.go:460-466 | Exactly the held drives that are left out although they hold bytes are reported. |
| `AdminBrowse.CleanIffAcceptable` | api/routes/admin_browse.go:391-470 | Both loops find nothing exactly when the request is acceptable by its declarative definition. |
| `AdminBrowse.AcceptableIff` | api/routes/admin_browse.go:339-475 | A request is acceptable exactly when it names each drive once with no negative quota, every held one gets no less than is used and no more than it has or than fits, every new one is active and has the room, and no drive with bytes is left out. |
| `AdminBrowse.ViolationsAreExact` | api/routes/admin_browse.go:391-466 | Which violations a request has, with the used bytes and the maximum each one reports. |
| `AdminBrowse.AdminUpdateUserStorageAllocations` | api/routes/admin_browse.go:339-482 | A request is saved exactly when it is acceptable; otherwise nothing changes, a conflict lists exactly the violations, and the other refusals name what they found. |
| `Quotas.AcceptedSaveIsExact` | api/routes/admin_browse.go:386-482 | All an accepted save does: the rows asked for, one primary (the old one or a largest-quota one), usage respected, others untouched, no drive newly overdrawn unless by dropping a negative row. |
| `Quotas.StepKeepsAggregateIff` | api/db/drives.go:763-774 | An event keeps the aggregate equal to the sum of the rows exactly when it is neither a top-up off the user's drives nor an overwrite with another number. |
| `Quotas.RunAggregatedIff` | api/db/storage_orders.go:105-134 | Over any run the aggregate equals the sum throughout exactly when every top-up landed on a held drive and every overwrite was the sum. |
| `Quotas.RunKeepsPrimaryLaw` | api/db/drives.go:585-654 | In every state of every run a user with rows has exactly one primary. |
| `OrderCapture.OrderStore.MarkStorageOrderCaptured` | api/db/storage_orders.go:63-82 | The one uncaptured row of the order is captured; nothing changes when there is none, or when the unique capture id would be shared. |
| `OrderCapture.OrderStore.CreateStorageOrder` | api/db/storage_orders.go:18-53 | A fresh row, refused exactly when its capture id is in use. |
| `OrderCapture.OrderStore.MarkStorageOrderRefunded` | api/db/orders.go:323-336 | A captured order becomes refunded, once. |
| `OrderCapture.OrderStore.MarkStorageOrderAllocationReverted` | api/db/orders.go:356-369 | A captured, unreverted sandbox order is marked reverted and stays captured. |
| `OrderCapture.QuotaTracksOrdersIff` | api/routes/billing/handler.go:290-352 | Under any interleaving of captures, direct purchases, refunds and reverts, a user's quota with what is still to be added follows the orders' histories throughout exactly when each capture with an unused id reads a row worth what the order's one uncaptured row is. |
| `OrderCapture.DistinctOrdersReadRight` | api/db/storage_orders.go:55-61 | Where no two rows share an order id, every capture does. |
| `OrderCapture.SharedOrderMisgrants` | db/19_storage_orders.sql:15-31 | A concrete step: two rows share an order id, the capture reads one and marks the other, and a user's balance moves. |
| `OrderCapture.CapturedOrdersCountOnce` | api/db/storage_orders.go:63-134 | With distinct order ids and nothing in flight, each capture, refund and revert has moved the quota exactly once, however often it was requested. |
| `OrderCapture.EventsTakeEffect` | api/routes/orders/handler.go:425-546 | Which row each event marks and which bytes it leaves its request to add or take. |
| `OrderCapture.NetIsActiveIff` | api/db/orders.go:356-369 | The histories ask for exactly the bytes of the active orders when, and only when, no order was both reverted and refunded. |
| `OrderCapture.StepUndoesTwiceIff` | api/db/orders.go:323-336 | An event undoes an order twice exactly when it refunds a captured order that was reverted. |
| `OrderCapture.RevertedThenRefunded` | api/routes/orders/handler.go:425-546 | A concrete run: a sandbox order is reverted, then refunded, and its bytes are taken twice. |
| `Forest.AcyclicIffNoCycle` | api/db/folders.go:470-487 | Having a rank that falls towards the root is the same as no folder being its own proper ancestor. |
| `Forest.AboveIsUp` | api/db/folders.go:470-511 | The recursive walk up reaches exactly the folders some number of parent steps away. |
| `Forest.CycleCheckIsExact` | api/db/folders.go:470-487 | Setting f's parent to t leaves the forest acyclic exactly when the check says it would not create a cycle. |
| `Forest.MoveToRootKeepsAcyclic` | api/db/folders.go:345-356 | Moving a folder to the root never makes a cycle. |
| `Subtrees.FrontierShrinks` | api/db/folders.go:385-404 | Each step of the walk down leaves a folder behind, so the recursion ends. |
| `Subtrees.SubtreeIffDescendant` | api/db/files.go:186-218 | A folder is in the subtree the downward queries range over exactly when the upward descendant check says so. |
| `Subtrees.AncestorsAreRootPath` | api/db/folders.go:406-437 | The breadcrumb is a duplicate-free path from a root to the folder, each entry the parent of the next, with exactly the folders above it. |
| `Subtrees.AncestorsAreOwned` | api/db/folders.go:406-437 | The breadcrumb has the user's own folders alone, and is empty exactly for an unknown or foreign folder. |
| `Subtrees.RetagInheritsIff` | api/db/folders.go:385-404 | Retagging a subtree alone keeps children on their parents' drives exactly when the top has no parent or one on that drive, missing pins resolved to the owner's primary. |
| `Subtrees.MigrationKeepsDrivesIff` | api/routes/services/folder_drive_migration.go:139-158 | Retagging and then reparenting keeps every child on its parent's drive exactly at the root, inside the subtree, or under a folder on that drive, pinned or by its owner's primary. |
| `Subtrees.InheritsIffForAllPrimaries` | api/routes/services/folder.go:281-305 | Children have their parents' pins exactly when they are on their parents' drives whatever the owners' primary drives are. |
| `FolderSizes.SizeIsDirectPlusChildren` | api/db/folders.go:18-30 | A folder's recursive size is its direct files plus its children's sizes. |
| `FolderSizes.RootSizesTotal` | api/db/folders.go:18-30 | Root folders and root files together account for every file once. |
| `FolderSizes.SubtreeAfterMove` | api/db/folders.go:345-356 | Exactly which folders each subtree loses and gains in a move. |
| `FolderSizes.MoveShiftsSizes` | api/db/folders.go:345-356 | A move takes the moved size from the old ancestors, gives it to the new ones, and changes no other folder's size. |
| `FolderStore.Store.UpdateFolderParent` | api/db/folders.go:343-356 | Sets the parent; an unknown folder or parent, or a taken name, changes nothing. |
| `FolderStore.Store.MoveFolder` | api/routes/services/folder.go:500-549 | Each refusal told apart: missing or foreign folders, another effective drive, a cycle, a taken name; otherwise the parent is set, and the forest stays acyclic. |
| `FolderStore.SameEffectiveDriveIff` | api/routes/services/folder.go:281-305 | The drive comparison with its shortcuts is equality of the drives with missing pins resolved. |
| `FolderStore.Store.MoveByPath` | api/routes/dav/manage.go:278-320 | The WebDAV move, to the root or under a folder, whatever the drives: refused for a missing folder, a cycle, a file or folder of the name at the destination, or a sibling of the name where the folder is now; otherwise renamed and reparented. |
| `FolderStore.Store.UpdateFolderName` | api/db/folders.go:154-167 | Sets the name; an unknown folder or a taken name changes nothing. |
| `FolderStore.Store.SetFolderSubtreeDriveID` | api/db/folders.go:385-404 | Exactly the subtree's folders get the drive. |
| `FolderRuns.StepKeepsForestIff` | api/db/folders.go:345-487 | Every event keeps an acyclic forest with resolved parents, one owner per tree and unique names, a migration exactly when its cycle check would still pass. |
| `FolderRuns.RunKeepsForestIff` | api/routes/services/folder_drive_migration.go:417-440 | A run of creations, renamings, moves, migrations and deletions keeps the forest throughout exactly when each migration's check still holds as it completes. |
| `FolderRuns.EventsTakeEffect` | api/db/folders.go:333-404 | Which columns of which folders each event changes: creation, renaming, move, migration with its subtree, deletion with its subtree. |
| `FolderRuns.StepKeepsDrivesIff` | api/routes/services/folder.go:515-533 | An event keeps every subfolder on its parent's drive exactly when it puts no folder under one on another drive; a change of primary exactly when the user's trees do not mix pinned and unpinned folders. |
| `FolderRuns.RunKeepsDrivesIff` | db/migrations/055_tier_first_browser.sql:1-18 | A run keeps a forest with every tree on one drive throughout exactly when each migration's check still holds as it completes and no event joins two drives. |
| `FolderRuns.StepKeepsPinsIff` | db/migrations/055_tier_first_browser.sql:1-18 | Taken literally, pins alone: an event keeps children on their parents' pins exactly when it joins no two different pins. |
| `FolderRuns.ServiceMovesJoin` | api/routes/services/folder.go:500-549 | The folder service's moves are exactly the owner's moves that join no two drives. |
| `FolderRuns.PathMovesAreSteps` | api/routes/dav/manage.go:286-320 | WebDAV's moves are exactly the owner's renamings followed by a move, whatever the drives, where no file has the name at the destination. |
| `FolderRuns.MoveCrossesDrives` | api/routes/dav/manage.go:286-320 | A concrete WebDAV move leaves a subfolder on another drive than its parent. |
| `FolderRuns.UnpinnedChildLeavesDrive` | api/routes/dav/handler.go:578-593 | A folder created by path has no pin, so under a folder on another drive than the primary it leaves that drive. |
| `FolderRuns.UnpinnedUnderPrimarySplits` | api/routes/services/folder.go:515-533 | A concrete run: an accepted service move mixes an unpinned folder with the primary's pin, and a change of primary splits the tree. |
| `FolderRuns.StaleCheckClosesCycle` | api/routes/services/folder_drive_migration.go:417-440 | A concrete run: a check made before another move no longer covers the reparenting done after it. |
| `JobQueue.Queue.ClaimRecognitionJobs` | api/db/recognition.go:110-144 | The claim is the first min(limit, pending) jobs in round-robin order; exactly those become processing with one more attempt. |
| `JobQueue.ClaimIsFirst` | api/db/recognition.go:110-144 | The claim is every pending job, or as many as the limit allows: the lowest places in their users' queues, and of one place the lowest ids. |
| `JobQueue.RowNumberIsPlace` | api/db/recognition.go:116-121 | A job's place counts its user's pending jobs up to it, oldest first. |
| `JobQueue.ClaimIsUnique` | api/db/recognition.go:110-144 | There is one claim for a table and a limit. |
| `JobQueue.ClaimTakesPrefixes` | api/db/recognition.go:110-144 | A user's claimed jobs are a prefix of that user's own queue. |
| `JobQueue.ClaimIsFair` | api/db/recognition.go:107-144 | While a user still has an unclaimed job, no other user got more than one job more. |
| `JobQueue.EveryUserIsServed` | api/db/recognition.go:107-144 | A claim with room for one job per waiting user serves every one of them. |
| `JobQueue.Queue.FinishRecognitionJob` | api/db/recognition.go:148-156 | The job gets the status, pending requeues it; no other job changes. |
| `JobQueue.Queue.ResetStaleRecognitionJobs` | api/db/recognition.go:158-170 | Exactly the jobs processing for longer than the bound are requeued, and counted. |
| `JobQueue.Queue.UpsertRecognitionJobs` | api/db/recognition.go:87-105 | Every listed file ends with one job in the collection; only files without one get a new pending job, and those are counted. |
| `JobQueue.UpsertedJobs` | api/db/recognition.go:87-105 | Each listed file has a job in the collection; old jobs stay; a new one is pending with no attempts, for a listed file that had none. |
| `RecognitionGroups.Recognition.MergeRecognitionGroups` | api/db/recognition.go:536-557 | The merge succeeds exactly when it meets neither the primary key nor a missing target; then the target has all the sources' detections and no other group changes. |
| `RecognitionGroups.MergeableIff` | api/db/recognition.go:536-557 | A merge can be done exactly when every detection two sources share is in the target already, and the target exists unless the sources bring it nothing. |
| `RecognitionGroups.DisjointSourcesMerge` | api/db/recognition.go:536-557 | Pairwise disjoint sources always merge into an existing target. |
| `RecognitionGroups.MergeKeepsGroupedIff` | api/db/recognition.go:536-557 | A merge leaves every grouped detection grouped exactly when the target is no source, or the sources' detections are all held by other groups. |
| `RecognitionGroups.Recognition.DeleteDetections` | db/36_recognition.sql:45-99 | Deleted detections take their members, clear the covers that show them, and return one row each. |
| `RecognitionGroups.ScanCrops` | api/db/recognition.go:788-808 | The loop over the returned rows keeps the rows with a crop key, in order. |
| `RecognitionGroups.Recognition.PurgeRecognitionData` | api/db/recognition.go:771-816 | Removes the collection's groups, ledger and orphaned detections, keeps every other collection's members, leaves nothing dangling, and the returned crops weigh on each drive what the stored crops shrank by. |
| `RecognitionGroups.CropsWeighRows` | api/db/recognition.go:788-808 | The crops of the returned rows weigh, drive by drive, what the deleted detections did. |
| `RecognitionGroups.PurgeTwice` | api/db/recognition.go:771-816 | A second purge of the collection changes and frees nothing. |
| `RecognitionGroups.PurgeLeavesNoOrphans` | api/db/recognition.go:766-816 | What survives of the collection's files is held by another collection's group. |
| `RecognitionGroups.PurgeKeepsCovers` | db/36_recognition.sql:70-86 | A group that survives a purge keeps its cover exactly when the detection on it survives. |
| `RecognitionGroups.PurgesCommute` | api/db/recognition.go:771-816 | While every member's file is in its collection's ledger, purging two collections ends the same in either order. |
| `RecognitionGroups.PurgesCommuteIff` | api/db/recognition.go:771-816 | Purging two collections ends the same in either order exactly when, of the detections only they hold, neither indexes one that the other holds unindexed. |
| `RecognitionGroups.PurgeKeepsLedger` | api/db/recognition.go:771-816 | A purge keeps every remaining member's file in its collection's ledger. |
| `RecognitionGroups.MergeKeepsLedgerIff` | api/db/recognition.go:536-557 | A merge does exactly when all the target is given is indexed in the target's collection. |
| `RecognitionGroups.MergeWithinCollectionKeepsLedger` | api/routes/services/recognition.go:396-407 | A merge within one collection, the only kind the service makes, always does. |
| `RecognitionGroups.AddMemberKeepsLedgerIff` | api/db/recognition.go:559-570 | Adding a member does exactly when its file is indexed in the group's collection. |
| `RecognitionGroups.DropJobsKeepsLedgerIff` | api/db/recognition.go:209-220 | Dropping jobs does exactly when none of them is a member's. |
| `RecognitionGroups.UnindexedMemberLeaks` | api/db/recognition.go:780-787 | A concrete catalog: without that, the order decides whether a detection is ever deleted. |
| `Paging.ClampLimit` | api/db/queries.go:89-97 | The effective limit is between 1 and 128, and a limit already there is kept. |
| `Paging.OffsetWalkIsComplete` | api/db/queries.go:45-106 | For any limits, following next tokens from the empty cursor ends and has returned exactly the list, in order. |
| `Paging.TimeWalksCompleteIff` | api/db/metrics.go:95-144 | Time-cursor walks are complete for all limits exactly when timestamps strictly decrease and none is the epoch. |
| `Paging.EpochLoops` | api/db/queries.go:65-86 | A page that ends on the epoch sends the walk back to the first page for ever. |
| `Paging.TieSkips` | api/db/metrics.go:95-144 | Of two rows with one timestamp, the second is skipped when the first ends a page. |
| `Where.AndJoin` | api/db/files.go:594-642 | Under SQL precedence, two fragments joined by AND mean both. |
| `Where.OrJoin` | api/db/files.go:620-634 | A conjunction joined by OR to a fragment means either. |
| `Where.Parenthesize` | api/db/files.go:620-634 | A parenthesised fragment is one factor with the fragment's meaning. |
| `Where.ReadOrMoreArgs` | api/db/files.go:590-594 | Arguments bound later change no fragment's meaning. |
| `MediaFilter.Clauses` | api/db/files.go:594-642 | For any leading arguments the fragment accepts exactly the files the filter describes, numbers the new arguments once each in order, and leaves the earlier ones alone. |
| `MediaFilter.CompiledMeaning` | api/db/files.go:601-641 | The files a fragment passes, by their columns: the taken bounds apply to the capture date or, without one, the upload date; the uploaded bounds to the upload date; sources, media types and groups admit the files that have one of them. |
| `MediaFilter.MediaTypeParts` | api/db/files.go:620-631 | The loop over media types: one part per known type, in order, none for unknown ones. |
| `MediaFilter.JoinedTypesMean` | api/db/files.go:620-634 | The joined parts mean that the file's type is among the listed ones. |
| `MediaFilter.KnownDecides` | api/db/files.go:620-634 | Whether a file's type is accepted depends on the known listed types alone. |
| `MediaFilter.ListMediaFilesQuery` | api/db/files.go:659-680 | The whole WHERE means scope, hidden state and filter together, and LIMIT and OFFSET name their own values. |
| `MediaFilter.ListMediaFileIDsQuery` | api/db/files.go:710-722 | The same WHERE without an offset, limited to the selection cap. |
| `MediaFilter.SelectedFiles` | api/db/files.go:643-680 | Which files a listing returns, by folder, pointer and hidden flag. |
| `MediaFilter.ArrangedByColumns` | api/db/files.go:528-541 | The four orders, by columns: newest upload or capture first, then by name; by name; by source, then newest capture, then name. |
| `MediaFilter.OneArrangement` | api/db/files.go:530-541 | Without ties there is one order the database can return. |
| `MediaFilter.SelectionIsWalk` | api/db/files.go:659-741 | Under a total order, selecting all ids equals walking all pages with any limits, cut at 20000. |
| `MediaFilter.WalksShowAllIff` | api/db/files.go:659-680 | Every walk, for any limits and any orders the database may return, ends with every matching file shown exactly when no two files tie. |
| `MediaFilter.WalksShowSelectionIff` | api/db/files.go:659-741 | Every walk shows what every selection does, in its order, exactly when no two files tie. |
| `MediaFilter.TiedFilesMayRepeat` | api/db/files.go:530-541 | With two tied files a walk may return one twice and the other never. |
| `MediaFilter.NarrowsNothingIff` | api/db/files.go:584-589 | A filter accepts every file exactly when it has no bound, source or group and names no known media type or all three. |
| `MediaFilter.IsZeroIsExactIff` | api/db/files.go:584-589 | The zero test tells whether every file is accepted exactly for filters that name no type, narrow otherwise, or name a known type but not all. |
| `MediaFilter.ParseMediaTypes` | api/routes/media.go:85-91 | The handler's loop keeps the known types of a request, in order. |
| `MediaFilter.RequestIsZeroIsExactIff` | api/routes/media.go:73-101 | For filters read from a request: exactly unless it names all three types and nothing else narrows. |
| `MediaFilter.IsZeroIsNotExact` | api/db/files.go:584-589 | A request for all three media types gives a filter that is not zero and narrows nothing. |
| `ByteRange.AcceptedInBoundsIff` | api/routes/files.go:418-460 | An accepted header gives 0 <= start <= end < size exactly when the file is not empty. |
| `ByteRange.EmptyFileSuffix` | api/routes/files.go:434-444 | On an empty file bytes=-1 is accepted as the span from 0 to -1. |
| `ByteRange.ParseRendered` | api/routes/files.go:418-460 | The decimal rendering of a-b, a- or -n selects what section 14.1.2 of RFC 9110 says when its numbers fit 64 bits, and is refused otherwise. |
| `ByteRange.WrittenSelects` | api/routes/files.go:418-460 | Any header in the standard's grammar, leading zeros included, selects what section 14.1.2 of RFC 9110 says its own digits select when they fit 64 bits, and is refused otherwise; on an empty file a suffix is accepted as well. |
| `ByteRange.ConformsIffWritten` | api/routes/files.go:418-460 | A header is in the grammar, digit runs around a dash, exactly when it writes some range. |
| `ByteRange.AcceptedConformsIff` | api/routes/files.go:434-455 | An accepted header is in the grammar exactly when neither of its parts starts with a sign. |
| `ByteRange.AcceptedMeansRange` | api/routes/files.go:418-460 | Every accepted header is served as the standard's range that its own digits write once their signs are dropped. |
| `ByteRange.PlusIsAccepted` | api/routes/files.go:444-455 | bytes=+1-+2 is accepted as 1 to 2 although the grammar has no sign. |
| `ByteRange.MinusZeroIsAccepted` | api/routes/files.go:444-455 | bytes=0--0 is accepted as 0 to 0. |
| `ByteRange.StreamFile` | api/routes/files.go:353-390 | Status 416 exactly for refused headers; otherwise the span keeps its start and, exactly when nothing overflows, covers what was asked and is as long as the minimum or the file allows; it lies in the file exactly when nothing overflows and the file has a byte. |
| `ByteRange.DigitsRoundTrip` | api/routes/files.go:434-455 | Reading a decimal rendering gives the number back. |
| `MasterKeys.BootstrapIsExclusive` | api/db/master_keys.go:52-101 | However processes interleave, die or lose a commit's acknowledgement, all that return have the same stored key, it is the only active one, exactly one process made it, and none but that one is told so. |
| `MasterKeys.NeverTwoActive` | api/db/master_keys.go:52-101 | No interleaving has two active keys or runs into the unique index. |
| `MasterKeys.NoDeadlock` | api/db/master_keys.go:64-101 | While a process has not finished, some process can run its next statement. |
| `MasterKeys.LiveProcessesSucceed` | api/db/master_keys.go:64-101 | However live processes interleave, one whose key id is free ends with the stored key. |
| `MasterKeys.AloneStoresKey` | api/db/master_keys.go:64-101 | Alone on a table without an active key, a process stores its key and is told that it is new. |
| `MasterKeys.AloneAdoptsKey` | api/db/master_keys.go:77-84 | Alone on a table with an active key, it adopts that key and stores nothing. |
| `MasterKeys.DeathRollsBack` | api/db/master_keys.go:64-72 | A process that dies before its commit leaves the table as it was and gives up the lock. |
| `MasterKeys.LostCommitStores` | api/db/master_keys.go:97-101 | A commit whose acknowledgement is lost stores the key all the same, and its caller is not told. |
| `MasterKeys.RunKeepsGood` | api/db/master_keys.go:64-101 | The invariant of lock, phases and table holds in every interleaving. |
| `KeyRotation.KeyStore.BootstrapMasterKey` | api/db/master_keys.go:64-101 | Run alone: an active key is adopted, a free id is stored as the active key, a taken id is an error. |
| `KeyRotation.AloneIsTheCall` | api/db/master_keys.go:64-101 | The call run alone and the same statements as interleaved processes run them end alike. |
| `KeyRotation.KeyStore.RetireAndCreateMasterKey` | api/db/master_keys.go:111-133 | Succeeds exactly when the new id is free and no other key stays active; then one key retires and one is added, else nothing changes. |
| `KeyRotation.KeyStore.PurgeMasterKey` | api/db/master_keys.go:135-148 | The key loses its material and is deleted; the row stays. |
| `KeyRotation.KeyStore.UpdateUserEncryptionKey` | api/db/users.go:514-524 | The user moves to the version if it exists. |
| `KeyRotation.KeyStore.CountUsersByKeyVersion` | api/db/users.go:529-539 | The number of users on the version. |
| `KeyRotation.RotationKeepsActiveIff` | api/db/master_keys.go:103-133 | A rotation commits without an active key exactly when it stores an inactive one over the only active one. |
| `KeyRotation.StepKeepsUsableIff` | api/db/master_keys.go:135-148 | Only putting a user on purged material, or on a key cleared for purging, can break that every user has a key. |
| `KeyRotation.RunKeepsUsable` | api/db/users.go:512-539 | If users only go onto the active key and only keys counted at zero are purged, no user is ever on a purged key. |
| `KeyRotation.RunUsableIff` | api/db/users.go:512-539 | Over any run every user has a key throughout exactly when users only go onto keys with material that nobody has cleared for purging. |
| `KeyRotation.RunKeepsOneActive` | api/db/master_keys.go:103-133 | From one active key, rotations to active keys keep exactly one active at every commit, whatever users and stale writers do. |
| `KeyRotation.RunKeepsOneActiveIff` | api/db/master_keys.go:103-148 | Over any run exactly one key stays active throughout exactly when each rotation that goes through leaves an active key. |
| `KeyRotation.StaleWriterLosesKey` | api/db/users.go:512-539 | A concrete run: a process that still writes under the retiring key after the count loses its user's key. |
| `Expansion.RequestTable.MarkExpansionRequestCaptured` | api/db/expansion_requests.go:201-215 | The uncaptured request of the order is captured and set to opened, whatever its status; the unique index refuses a shared capture. |
| `Expansion.RequestTable.CreateExpansionRequest` | api/db/expansion_requests.go:116-144 | A fresh opened request, refused exactly when its capture is in use. |
| `Expansion.RequestTable.CancelExpansionRequest` | api/db/expansion_requests.go:413-425 | Refunded with its refund and time, exactly from opened, accepted, approved or expanded. |
| `Expansion.RequestTable.ExpireExpansionRequest` | api/db/expansion_requests.go:430-445 | Expired, exactly from opened, accepted, invoice_sent or approved. |
| `Expansion.RequestTable.ApproveExpansionRequest` | api/db/expansion_requests.go:451-462 | Approved with its deadline, exactly from opened or accepted. |
| `Expansion.RequestTable.ProvisionExpansionRequest` | api/db/expansion_requests.go:469-480 | Expanded with the quota and the payment due time, exactly from opened or approved. |
| `Expansion.RequestTable.MarkExpansionRequestPaid` | api/db/expansion_requests.go:484-495 | Completed, exactly from expanded. |
| `Expansion.RequestTable.MarkExpansionInvoiceSent` | api/db/expansion_requests.go:498-509 | Invoice_sent, exactly from opened or invoice_sent itself. |
| `Expansion.RequestTable.AcceptExpansionRequestInvoice` | api/db/expansion_requests.go:514-540 | Accepted with the invoice's terms, exactly from invoice_sent; refused exactly when the capture belongs to another request. |
| `Expansion.RequestTable.RejectExpansionRequest` | api/db/expansion_requests.go:544-555 | Rejected, exactly from opened or invoice_sent without a capture. |
| `Expansion.RequestTable.MarkExpansionReminderSent` | api/db/expansion_requests.go:560-570 | The reminder counter is raised, never lowered, exactly while expanded. |
| `Expansion.RequestTable.RevertExpansionRequest` | api/db/expansion_requests.go:602-612 | Expired, exactly from expanded. |
| `Expansion.UpdateRaisesRank` | api/db/expansion_requests.go:413-612 | Every update that fires raises the rank, except a reminder or re-sending an invoice, which keep the status. |
| `Expansion.StepLowersRankIff` | api/db/expansion_requests.go:201-215 | A step lowers a request's rank exactly when it is a capture with an unused id, the request is the only uncaptured one of the order, and it is past opened. |
| `Expansion.EndedIsLeftIff` | api/db/expansion_requests.go:201-215 | An ended request leaves its status exactly when such a capture lands on it. |
| `Expansion.RunOfRow` | api/db/expansion_requests.go:413-612 | In every run a request's row stays and moves only by its updates and its order's capture. |
| `Expansion.StatusChangesAreBounded` | api/db/expansion_requests.go:413-612 | When deposits are captured only while opened, a request changes status at most five times, stays as it ends, and its reminder counter never falls. |
| `Expansion.StatusChangesCount` | api/db/expansion_requests.go:413-612 | The changes bounded are the places at which the status differs from the one before. |
| `Expansion.RankNeverFallsIff` | api/db/expansion_requests.go:201-215 | In a run a request's rank never falls exactly when its deposit is captured only while opened. |
| `Expansion.RejectedCanReopen` | api/db/expansion_requests.go:544-555 | A concrete run: a rejected request's order is captured and the request is opened again. |
| `Expansion.RunKeepsBilled` | api/db/expansion_requests.go:464-495 | In every run expanded and completed requests have a post-quota and a payment due time, and no capture is shared. |
| `Invoices.InvoiceTable.CreateExpansionInvoice` | api/db/expansion_invoices.go:72-110 | Run alone: the new invoice is the request's only pending one; other requests' and accepted invoices stay. |
| `Invoices.InvoiceTable.AcceptExpansionInvoice` | api/db/expansion_invoices.go:152-172 | A sent invoice is accepted with its payment references; otherwise nothing changes. |
| `Invoices.InvoiceTable.SetExpansionInvoiceStatus` | api/db/expansion_invoices.go:174-184 | Only a sent invoice changes. |
| `Invoices.StepKeepsOnePendingIff` | api/db/expansion_invoices.go:68-110 | A statement leaves at most one pending invoice per request exactly when it is no insert over a pending one. |
| `Invoices.RunKeepsOnePending` | api/db/expansion_invoices.go:68-110 | No request ever has two pending invoices in runs where nobody inserts between a create's two statements. |
| `Invoices.RunKeepsOnePendingIff` | api/db/expansion_invoices.go:68-110 | Over any run no request has two pending invoices throughout exactly when no insert finds one pending. |
| `Invoices.RunKeepsAccepted` | api/db/expansion_invoices.go:68-184 | An accepted invoice stays as it is in every run. |
| `Invoices.InterleavedCreatesLeaveTwo` | api/db/expansion_invoices.go:72-110 | A concrete run: two interleaved creates leave two pending invoices. |
| `Discounts.ResolveDiscount` | api/models/pricing.go:82-97 | The loop returns a usable discount that no usable candidate outranks, or none exactly when none is usable. |
| `Discounts.UsableIff` | api/models/pricing.go:51-91 | A discount is usable until its expiry, by whom it is for, on what it targets. |
| `Discounts.MostSpecificWins` | api/models/pricing.go:74-97 | An item's own discount goes before its tier's, and that before its server's. |
| `Discounts.ResolutionIsUnique` | api/models/pricing.go:74-97 | With one discount per target the result does not depend on the candidates' order and is strictly the most specific. |
| `Discounts.ListingOrderIsIrrelevant` | api/db/pricing.go:172-222 | After any run of creates and deletes, listings in different orders resolve alike. |
| `Discounts.OrderMatters` | api/models/pricing.go:82-97 | With two discounts on one target the order decides. |
| `Discounts.Pricing.CreatePricingDiscount` | api/db/pricing.go:172-213 | The new row replaces the one on its exact target and no other, or a row that fails a check changes nothing; targets stay unique. |
| `Discounts.SameTargetIff` | api/db/pricing.go:172-213 | Two checked discounts of one scope have the same target exactly when they apply to the same items. |
| `Discounts.CheckedIff` | db/migrations/049_product_pricing.sql:37-57 | The table lets through exactly a scope with its target and a mode with its value in range. |
| `Discounts.Pricing.DeletePricingDiscount` | api/db/pricing.go:215-222 | Exactly the row with the id goes. |
| `Discounts.RunKeepsSound` | api/db/pricing.go:172-222 | Every run of creates and deletes keeps one discount per exact target. |
| `Discounts.PercentPriceIsNearest` | api/models/pricing.go:99-109 | For 0 to 100 percent the price is within half a cent of exact and between nothing and the base. |
| `Discounts.PercentPriceIsMonotone` | api/models/pricing.go:99-109 | The price never falls with a higher base and never rises with a higher percentage. |
| `Discounts.PercentInRangeIff` | api/models/pricing.go:99-109 | Exactly the percentages from 0 to 100 keep every price between nothing and its base. |
| `Discounts.NeverMarksUp` | api/models/pricing.go:99-117 | A discount the table accepts never raises a price and never makes it negative. |
| `Discounts.FixedPriceIsLower` | api/models/pricing.go:99-117 | In price mode the lower of the price and the base is paid. |
| `Discounts.BadgeIsNearest` | api/models/pricing.go:119-131 | In price mode the badge is within half a percent of the true deduction and between 0 and 100. |
| `Discounts.PercentBadgeIsDeducted` | api/models/pricing.go:119-131 | In percent mode the deduction is within half a cent of the badge. |

## Left out

- Allocations.DistinctWantsAreExact: is about lists that name each drive once, which the admin handler enforces; for other lists the last entry wins, as `Upsert` says.
- MediaFilter.SelectionIsWalk: needs an order without ties, as the source's listings need; `WalksShowSelectionIff` shows that nothing less will do.
- FolderStore.Store.MoveFolder: treats the checks and the update as one step, although the service runs them as separate statements; `FolderRuns.StaleCheckClosesCycle` shows what a move in between does.
- AdminBrowse.AdminUpdateUserStorageAllocations: treats the handler's reads and the save as one step, so changes by others between validation and save are not modelled.
- RecognitionGroups.Recognition.PurgeRecognitionData: runs as one transaction, as its comment demands; deleting the blobs and refunding quota is the caller's work.
- Expansion.RequestTable.CreateExpansionRequest: always creates an opened request, as all its callers do, and keeps only the columns the lifecycle reads.
- MasterKeys.BootstrapIsExclusive: every process proposes an active key, as the one caller does; other proposed statuses are not modelled.
- Registering an account through a reservation is one event, although it spans several transactions and a failed completion is only logged.
- JobQueue and ReserveRegistrationSlot model the case in which no other worker holds a row lock (FOR UPDATE SKIP LOCKED).
- Shrinking a drive's capacity, deactivating drives and deleting users or drives are not events of a run.
- Invitations pinned to a drive.
- Row-level security (so a query sees every owner's rows, and the cycle check outside the user's transaction sees what it would see inside), audit rows, notifications and e-mail.
- Sums, quotas, sizes and prices are unbounded integers; only range parsing and widening model 64-bit arithmetic.
- Names, labels, centroids, embeddings, invoice lines, review tokens and refund reasons are carried nowhere.
- Page tokens are an injective encoding of one integer; base64 and JSON are not part of this model.
- Range headers are sequences of characters; the parts of the handler that stream bytes are not part of this model.
- Key material, nonces and capture ids are opaque values; encryption, the key-encryption key and PayPal are not part of this model.
- The user whose key is rewrapped is read in batches by the rotation service, which is not part of this model.
- Discount audiences, e-mail recipients and the legacy hardcoded plan table.
- Premium payments and their refunds.
- HTTP binding, sessions, metrics, alarms, devices, feedback, bans, backups, preferences and the client applications.
