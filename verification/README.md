# Verified model of the inventory backend

The backend keeps an inventory of equipment, accessories and consumables for a site of departments,
locations and rooms. This project models its decision-making core in Dafny and proves what that core
is for. `dafny verify dfyconfig.toml` checks all of it.

Each service function that runs in one database transaction is one step that commits or leaves no
trace. Interleaving is modelled where the code is meant to survive it: the two cache protocols, the
execution lease of background jobs, and the gaps in the recovery pass. Database tables are maps or
sequences of rows, and foreign keys are indices, so several rows may refer to one.

| module | what it is about |
|---|---|
| `GenerationCall`, `ScopeProtocol`, `ScopeReuse` | the per-user cache generation: one call among disturbances, then all workers together with a changing database and a cache that may drop any key at any moment; what is never served, and what the cache achieves |
| `OptionVersions` | the version counter of the option caches |
| `ReturnTables`, `ReturnDesk` | returns and equipment custody as functions on tables, and as loops and assignments proved equal to them |
| `ReturnApproval`, `ReturnCreation`, `ReturnAliasing`, `ReturnRuns`, `ReturnSettled`, `ReturnSharing` | when decisions and creations succeed and what they leave, also when entries name one row several times, what holds over every run, what stays once a request is settled, and when requests come to share a row |
| `EquipmentCustody`, `ReturnOwnership`, `OwnershipCases` | the one assignment row per equipment against its event log, and whose custody an approval ends |
| `Sequences`, `Outcomes` | shared helpers |
| `Roles`, `Governance` | delegation of roles over the site tree |
| `Boundary`, `PermissionMatrix` | which role may ever have which permission, and reconciling the matrix |
| `AgreementLifecycle`, `AgreementCoverage` | dated agreements with their history log, and coverage conflicts |
| `Base62`, `PublicIds` | public ids and their permanent ledger |
| `JobLease`, `JobRecovery` | the execution lease of report and import jobs, and the pass that recovers stale ones |

## What the proofs found

Some natural statements are false of the code. Each is replaced by the exact condition, most with an
input or a run on which the natural statement fails.

- Creating a request checks each accessory entry alone, so a payload that repeats an accessory can be
  created and then fail on approval. A created request can be approved exactly when the entries served
  from one holding together ask for no more than it holds (`ReturnAliasing.FreshRequestApprovable`, with
  an input in `RepeatedAccessoryIsStuck`).
- The item table takes no null room although every asset's room may be null, so a request in which
  everything else is in order is still refused as a whole exactly when an asset it names has lost its
  room (`ReturnCreation.RoomMissingExactly`, with an input in `RefusedForTheRoom`).
- Approving an equipment item does not ask whether the assignment is still open or still the requester's.
  It returns the equipment from the requester exactly if the row is open and the requester's at that
  moment, which is so exactly if nothing closed the equipment since the request, or it was handed to the
  requester again after the last close (`ReturnOwnership.ApprovalInRunExact`, with a run in
  `OwnershipCases.ApprovalReturnsNextHolder`). The event log matches the holder exactly as long as no
  approval found a closed row (`EquipmentCustody.LogMatchesCustody`).
- Two pending items can stand on one custody row. A row comes to be shared exactly by creating a request
  that names its equipment while an item of a PARTIAL request is still pending on it: such a request no
  longer stops its pending items from being asked for again (`ReturnSharing.BecomesShared`,
  `SharedExactly`). Without any take-back this is the only way to an approval on a closed row
  (`ReturnOwnership.LostToAnotherItem`, with a run in `OwnershipCases.RowReturnedTwice`).
- The matrix update takes "existing roles" from rows fetched at the start. It does what it says exactly
  if items naming one permission agree, and its `created` counter is right exactly if no new grant is
  asked for twice (`PermissionMatrix.ExactIffAgreeing`, `CountersExact`). The serializer refuses
  repeats within one domain only, so two domains can do both (`SecondDomainIgnored`,
  `OneGrantCountedTwice`, on the catalog of `AssetsViewIsAnInput`).
- Not every id is in the ledger: objects without permanent ids draw theirs beside it. All ids handed out
  differ exactly if no such draw hit an earlier id and the ledger took none of those drawn
  (`PublicIds.AllDifferentExactly`, with a run in `DrawnIdIsReissued`).
- An option version can go back and be used again. It never goes back exactly as long as no version above
  1 is evicted and no fallback `set` works from an old version overtaken by more than one; until then a
  completed invalidation leaves a new version exactly if it is no fallback from an overtaken one
  (`OptionVersions.NeverDecreasesExactly`, `NewVersionExactly`, with a run in `EvictionReusesVersions`).
- `expire_agreement` alone would end a termination; the guard is the filter of the scheduled sync
  (`AgreementLifecycle.BareExpireReopens`).
- A broader coverage may be added after a narrower one: only a coverage that alone includes it stands in
  its way. Checking a room without a location fails (`AgreementCoverage.BroaderAcceptedExactly`,
  `BroaderAfterNarrowerAccepted`, `RoomAcceptedExactly`).
- The recovery query and the check under the lock differ on two kinds of rows, and no operation on jobs
  ever produces either (`JobRecovery.QueryMatchesCheckExactly`, with one of each in
  `QueryAndCheckDiffer`, and `QueryMatchesCheckAlways`).

## Assumptions

- Tokens drawn as uuids by different calls are distinct. Clock readings, random draws, outcomes of the
  message broker and the moments at which the cache raises or evicts are parameters.
- The site tree is fixed during a run of delegations, and every stored role assignment carries exactly
  the scope its role's level names, as the table's constraint demands of the eight known roles.
- A user's several open assignments of one accessory come back from the database in table order; the
  query itself asks for no order, and the last of them is the one a payload entry is served from.
- Quantities stay within the database's integer columns, and ids drawn for return items do not collide.
- "Today" is one value for all agreement operations of a day, although the sync takes the UTC date and
  renewal the local one.

## Model

| member | source | states |
|---|---|---|
| GenerationCall.GenerationKey.GetGeneration | core/services/user_scope_cache.py:72-191 | for any interference between its backend calls and a failure at any of them, before or after the operation took effect, the call behaves as the step machine, and a token it returns was the key's value at some moment of the call |
| GenerationCall.GenerationKey.InvalidateUser | core/services/user_scope_cache.py:193-262 | a failed first read is tolerated; a failed set is reported and leaves the key as it was or, if it took effect, with the new token; otherwise the key holds the new token |
| GenerationCall.UndisturbedCall | core/services/user_scope_cache.py:90-140 | left alone the call always yields a token, and the key then holds that token |
| GenerationCall.TokenOrigin | core/services/user_scope_cache.py:113-191 | a returned token is the caller's own candidate, the key's first value, or one another worker put there |
| GenerationCall.WinnerExactly | core/services/user_scope_cache.py:113-191 | a call that finds no key takes what others have left by the time it looks again, and writes its candidate exactly if they left nothing or lost it again |
| GenerationCall.LoserTakesTheWinner | core/services/user_scope_cache.py:142-164 | without evictions the loser of the race replaces nothing and returns what the others left |
| GenerationCall.FoundIsReturned | core/services/user_scope_cache.py:90-111 | a key that is there is returned and left alone |
| GenerationCall.ReturnsWhatIsHeld | core/services/user_scope_cache.py:72-191 | whatever interferes, a call that returns leaves the key holding what it returned |
| ScopeReuse.OneGeneration | core/services/user_scope_cache.py:142-164 | as long as the key is neither evicted nor rotated all requests of all workers work under one generation |
| ScopeReuse.WrittenByOne | core/services/user_scope_cache.py:113-191 | however many workers find the key missing, at most one step then writes it |
| ScopeReuse.ReadOnceAndCached | core/mixins/caching/user_scope_list_cache.py:61-330 | a request reads the database at most once, and what it serves with status 200 is in the cache under its own query if none of its cache operations raised |
| ScopeReuse.FailedRequestsStoreNothing | core/mixins/caching/user_scope_list_cache.py:72-127 | after a failed cache operation a request stores nothing |
| ScopeReuse.StoredIsFoundAgain | core/mixins/caching/user_scope_list_cache.py:129-176 | a stored response is served to every later request for the same query and generation until it is evicted or replaced |
| ScopeReuse.NobodyIsStuck | core/mixins/caching/user_scope_list_cache.py:61-330 | every busy worker can go on, also where the cache raises |
| ScopeReuse.AnsweredInEight | core/mixins/caching/user_scope_list_cache.py:61-330 | every request is answered after at most eight operations of its worker, whatever others do and whatever raises |
| ScopeProtocol.Freshness | core/services/user_scope_cache.py:1-6 | a request begun after a rotation's set took effect, even one that raised, serves only data read from the database for its own query after that set, over all interleavings, failures and evictions |
| ScopeProtocol.InvStep | core/mixins/caching/user_scope_list_cache.py:61-330 | one worker step keeps: cached responses were loaded after their generation was written, and pending candidates are distinct and unwritten |
| ScopeProtocol.InvAlways | core/mixins/caching/user_scope_list_cache.py:61-330 | that invariant holds at every moment of every run |
| ScopeProtocol.WritesACandidate | core/services/user_scope_cache.py:113-191 | only a pending candidate is ever written to the key, and never one written before |
| ScopeProtocol.WrittenOnce | core/services/user_scope_cache.py:113-227 | no two steps of a run write the same token |
| ScopeProtocol.RotatedOutForGood | core/services/user_scope_cache.py:222-229 | a generation the key has lost never returns |
| ScopeProtocol.GenerationWasCurrent | core/services/user_scope_cache.py:72-191 | the generation a request works under was the key's value at a moment after the request began |
| OptionVersions.CompletionRaisesByOne | core/cache/invalidation.py:58-91 | even after evictions a completed invalidation raises the version by one, except exactly when the fallback set works from an outdated version |
| OptionVersions.VersionCountsCompletions | core/cache/invalidation.py:58-91 | without eviction k completed interleaved invalidations take the version from v to v + k |
| OptionVersions.NeverDecreasesExactly | core/cache/invalidation.py:58-91 | over every run with evictions the version never goes back up to a step exactly if no step before evicts a version above 1 or sets one below the current |
| OptionVersions.NewVersionExactly | core/cache/invalidation.py:73-82 | until the version is lowered, a completed invalidation leaves a version never seen before exactly if it is no fallback set from an overtaken old version |
| OptionVersions.EvictionReusesVersions | core/cache/invalidation.py:63-82 | a run in which an eviction makes two completed invalidations leave the same version |
| OptionVersions.OptionVersionCache.InvalidateNamespace | core/cache/invalidation.py:61-82 | the loop body, with anything happening to the key between its four operations, does what the step machine does |
| OptionVersions.UndisturbedRaisesByOne | core/cache/invalidation.py:61-82 | left alone it raises the version by one |
| OptionVersions.OptionVersionCache.InvalidateOptionNamespaces | core/cache/invalidation.py:35-93 | unknown names are refused with no effect; otherwise exactly the named keys go through the step machine |
| ReturnApproval.ApproveRequestExact | assignments/services/asset_returns.py:9-40 | approving a PENDING request succeeds exactly when its pending items together ask no more of any holding than is held; then it approves all of them, moves exactly those quantities, closes custody and logs each |
| ReturnApproval.ApproveUpToExact | assignments/services/asset_returns.py:29-31 | the same for every prefix of the loop |
| ReturnApproval.ApprovedStatus | assignments/services/asset_returns.py:77-93 | the status a successful approval leaves, in terms of which item statuses the request had before it |
| ReturnApproval.DenyRequestExact | assignments/services/asset_returns.py:42-75 | denying a PENDING request always succeeds, denies its pending items, records who did it and moves nothing |
| ReturnCreation.CountCheck | assignments/services/asset_return_builders.py:20-23 | comparing the counts means: the ids are distinct and each is in the user's open custody |
| ReturnCreation.EquipmentExact | assignments/services/asset_return_builders.py:8-65 | exactly which id lists the equipment builder accepts |
| ReturnCreation.HoldingEntriesExact | assignments/services/asset_return_builders.py:67-144 | exactly which entries the accessory and consumable builders accept |
| ReturnCreation.RoomsExact | assignments/models/asset_assignment.py:229-239 | the drafted items can be stored exactly if every asset named has a room |
| ReturnCreation.CreateExact | assignments/services/asset_returns.py:200-284 | exactly which payloads become a request |
| ReturnCreation.RoomMissingExactly | assignments/models/asset_assignment.py:229-239 | a request fails for want of a room exactly when everything else is in order and some asset named has none |
| ReturnCreation.RefusedForTheRoom | assignments/services/asset_return_builders.py:67-144 | one accessory in the user's hands, asked to be returned: accepted with a room, refused without |
| ReturnCreation.EntryRefusals | assignments/services/asset_return_builders.py:96-116 | which of its four reasons an accessory or consumable entry is refused for, each exactly when it is true of the entry |
| ReturnCreation.EquipmentRefusals | assignments/services/asset_return_builders.py:20-39 | equipment is refused as not assigned exactly if an id repeats or is not in the user's open custody, else as pending exactly if one is |
| ReturnCreation.ShapeRefusals | assignments/services/asset_returns.py:200-242 | a payload is refused for its size exactly beyond twenty entries, else for an unknown type exactly if it has one |
| ReturnCreation.CreateContents | assignments/services/asset_returns.py:200-284 | an accepted payload becomes a PENDING request; each entry, also a repeated one, becomes an item of its own on the user's own open row with the quantity asked for and the asset's room; each item is logged as requested, and no stock moves |
| ReturnAliasing.FreshRequestApprovable | assignments/services/asset_return_builders.py:98-116 | a request just created can be approved exactly if for each holding the entries served from it together ask for no more than it holds |
| ReturnAliasing.RepeatedAccessoryIsStuck | assignments/services/asset_return_builders.py:98-116 | two of three accessories asked for twice: created, and refused on approval |
| ReturnRuns.DecideSound | assignments/services/asset_returns.py:95-197 | one item decision keeps statuses, exclusivity, settled rows and the stock balance |
| ReturnRuns.CreateSound | assignments/services/asset_returns.py:200-284 | creating a request keeps them too and adds one item per entry |
| ReturnRuns.RunSound | assignments/services/asset_returns.py:9-284 | between any two moments of any run of create, approve and deny, on items or whole requests, and of handing out and taking back equipment, all of that holds |
| ReturnRuns.SettledForGood | assignments/services/asset_returns.py:77-93 | a request that has left PENDING never changes again, neither its status nor who processed it, and its status is always the function of its items |
| ReturnSettled.DecideRequestExactly | assignments/services/asset_returns.py:9-75 | a request is approved or denied as a whole exactly while it is PENDING and, to be approved, covered; otherwise which error it gives |
| ReturnSettled.ProcessedExactly | assignments/services/asset_returns.py:33-39 | who processed a request is set exactly by deciding it as a whole, to whoever did so |
| ReturnSettled.SettledItemsStay | assignments/services/asset_returns.py:52-53 | over every run the items of a settled request, also those left pending, change only by deciding them one by one |
| ReturnSettled.DecidedOnce | assignments/services/asset_returns.py:18-19 | a request with an item is decided as a whole at most once and keeps the name of who did it |
| ReturnRuns.PendingRowsUnshared | assignments/services/asset_return_builders.py:25-39 | two PENDING requests never refer to one row, and no PENDING request asks for a custody row twice |
| ReturnSharing.BecomesShared | assignments/services/asset_return_builders.py:25-39 | a step leaves two pending items on a row that had at most one exactly if it creates a request naming the row's equipment while an item of a PARTIAL request is still pending on the row |
| ReturnSharing.SharedExactly | assignments/services/asset_returns.py:77-93 | over every run a row has been shared by a step exactly if it was at the start or such a creation came before |
| ReturnRuns.SharedRowMeansPartial | assignments/services/asset_returns.py:77-93 | two items still pending on one custody row: only if the request of one of them is PARTIAL |
| ReturnRuns.StockConserved | assignments/services/asset_returns.py:118-165 | stock plus everything held is constant per asset, and stock moves exactly by the ledger's new rows |
| ReturnRuns.StockMoved | assignments/services/asset_returns.py:118-165 | one approved quantity leaves the holding, reaches the stock and is logged, for every asset at once |
| ReturnDesk.ReturnDesk.UpdateReturnRequestStatus | assignments/services/asset_returns.py:77-93 | the set of item statuses gives the status function, and only the request's status changes |
| ReturnDesk.ReturnDesk.ApproveReturnItem | assignments/services/asset_returns.py:95-177 | the assignments carry out the approval function or change nothing |
| ReturnDesk.ReturnDesk.DenyReturnItem | assignments/services/asset_returns.py:179-197 | likewise for denial |
| ReturnDesk.ReturnDesk.DecideReturnRequest | assignments/services/asset_returns.py:9-75 | the loop over items carries out the whole-request function, and a failing item rolls every table back |
| ReturnDesk.ReturnDesk.BuildEquipmentReturnItems | assignments/services/asset_return_builders.py:8-65 | the loop drafts exactly the items and events of the builder function, or its error |
| ReturnDesk.ReturnDesk.BuildHoldingReturnItems | assignments/services/asset_return_builders.py:67-222 | likewise for accessories and consumables |
| ReturnDesk.ReturnDesk.SplitPayload | assignments/services/asset_returns.py:215-242 | one pass splits the payload by type or reports an unknown type |
| ReturnDesk.ReturnDesk.CreateMixedReturnRequest | assignments/services/asset_returns.py:200-284 | creation commits the created tables or rolls back the request row it had opened, also when an item cannot be stored for want of a room |
| EquipmentCustody.StepEffect | assignments/services/asset_returns.py:103-116 | what each operation, also the approval of a whole request, does to the holder and the log of every equipment |
| EquipmentCustody.LogMatchesCustody | assignments/services/equipment_assignment.py:24-273 | the ASSIGNED and RETURNED log of an equipment alternates and reads as its current holder exactly as long as no return was approved on a closed row |
| EquipmentCustody.LogMatchesWithoutApprovals | assignments/services/equipment_assignment.py:155-273 | runs of assignments and unassignments alone always keep the log in step |
| ReturnOwnership.ApprovalReturnsExactly | assignments/services/asset_returns.py:103-116 | an approval takes the equipment from exactly the user the row is open for: the requester's own exactly if the row is open and the requester's |
| ReturnOwnership.HolderHistory | assignments/services/equipment_assignment.py:24-273 | over every run a holder still holds an equipment exactly if nothing closed it or it was given back after the last close |
| ReturnOwnership.ApprovalInRunExact | assignments/services/asset_returns.py:103-116 | over every run, from creating an item to approving it: the requester's own custody ends exactly if nothing closed the equipment since, or it was handed to the requester again |
| ReturnOwnership.LostToAnotherItem | assignments/services/asset_return_builders.py:25-39 | without a take-back an item loses its row only to the approval of another item, one of the two requests being PARTIAL |
| OwnershipCases.ApprovalReturnsNextHolder | assignments/services/asset_returns.py:103-116 | a run in which approving the first holder's item returns the second holder's equipment, with the log still in order |
| OwnershipCases.RowReturnedTwice | assignments/services/asset_returns.py:77-93 | a run in which a PARTIAL request lets one row be asked for again and returned twice |
| ReturnDesk.ReturnDesk.AssignEquipment | assignments/services/equipment_assignment.py:155-273 | assigns and logs, using the equipment's one row again, or skips an equipment that is out |
| ReturnDesk.ReturnDesk.UnassignEquipment | assignments/services/equipment_assignment.py:24-153 | closes and logs, or skips an equipment that is in |
| Governance.OpensExactly | access/services/scope.py:13-82 | an assignment opens exactly the rooms in its scope, by the scope's fields and the site tree alone |
| Governance.ManagesExactly | access/hierachy.py:50-214 | below site level a role hands out exactly the roles of lower rank on its own or a deeper level |
| Governance.AssignScopeExactly | access/services/roles.py:87-185 | a scope is handed out exactly on the level of the role given and inside the giver's own |
| Governance.SeesExactly | access/services/scope.py:249-298 | an actor sees exactly the assignments inside its own scope |
| Governance.AcceptedExactly | users/api/viewsets/role_viewsets.py:148-262 | a create, update or delete is carried out exactly for an actor who may give the assignment as it is and as it will be, on its own level |
| Governance.UpdateWritesWhatIsSent | users/api/viewsets/role_viewsets.py:182-244 | an update saves the fields sent and keeps the others |
| Governance.LastWriteStands | users/api/viewsets/role_viewsets.py:148-262 | over every run a row is what the last accepted step on it wrote |
| Governance.AssignedIsWellPlaced | access/services/roles.py:87-209 | what the governance check lets through satisfies the table's scope constraint |
| Governance.ScopeChecksAgree | access/services/scope.py:249-298 | the governance scope check and the visibility check are the same relation |
| Governance.ScopeContains | access/services/scope.py:13-82 | every room an assignment in an actor's scope opens, the actor can open |
| Governance.DelegationContained | access/services/roles.py:187-209 | a role handed out opens no room its giver cannot open |
| Governance.DelegationDescends | access/hierachy.py:50-214 | every delegation by a non-site role strictly lowers the rank |
| Governance.UpdateSavesWhatWasChecked | users/api/viewsets/role_viewsets.py:182-244 | although a cleared field is checked as if kept, what an update saves is what was checked, and it stays on its level |
| Governance.ChainContained | access/services/roles.py:187-266 | the last link of any chain of delegations reaches no room beyond the first |
| Governance.ChainBounded | access/hierachy.py:50-214 | chains that start below site level have at most three delegations |
| Governance.DepartmentIsInside | access/services/scope.py:249-298 | every assignment a department admin can see opens rooms of the department only |
| Governance.DepartmentContainsItsDelegations | users/api/viewsets/role_viewsets.py:148-262 | from any assignments inside a department, over every run of creates, updates and deletes by anyone: they and every assignment last written by one of them, or by one they wrote, open no room outside it |
| Governance.OutsidersUntouched | users/api/viewsets/role_viewsets.py:148-262 | as long as only these act, every other assignment is exactly as it was |
| Boundary.DepartmentAdminExact | access/role_permission_boundaries.py:316-435 | exactly which codes a department admin may have |
| Boundary.LocationAdminExact | access/role_permission_boundaries.py:316-435 | a location admin's codes as a part of the department admin's |
| Boundary.RoomAdminExact | access/role_permission_boundaries.py:316-435 | a room admin's codes as a part of the location admin's |
| Boundary.ViewerExact | access/role_permission_boundaries.py:295-435 | a viewer's codes are the viewer-safe part of its level's admin's |
| Boundary.ClerkExact | access/role_permission_boundaries.py:161-200 | exactly which of the room admin's codes a clerk may have |
| Boundary.OutermostExact | access/role_permission_boundaries.py:316-435 | exactly which codes the site admin and an unknown role may have |
| Boundary.ViewerSafeExactly | access/role_permission_boundaries.py:295-313 | viewer-safe are exactly the codes named, the reports, and those that end in view or self_view |
| Boundary.GroupsExactly | access/role_permission_boundaries.py:161-292 | exactly which codes are kept from clerks and which need an admin |
| Boundary.ScopeReasonsExactly | access/role_permission_boundaries.py:350-391 | room and location roles are kept out of the levels above exactly as far as the codes' groups say |
| Boundary.StructuralExactly | access/role_permission_boundaries.py:340-391 | each structural reason is given exactly where its rule applies |
| Boundary.CapabilityExactly | access/role_permission_boundaries.py:392-431 | and so is each of the others |
| Boundary.HigherLevelsAllowMore | access/role_permission_boundaries.py:316-435 | for every code string, room implies location implies department, and viewer implies admin |
| Boundary.GetPermissionBoundaryResult | access/role_permission_boundaries.py:316-435 | the appended and deduplicated reasons are exactly those of the policy, once each; allowed means none |
| PermissionMatrix.FinalRows | access/services/permissions.py:173-309 | for any accepted payload, exactly which grants are left |
| PermissionMatrix.AcceptedExactly | access/services/permissions.py:200-256 | an update is accepted exactly when no named configurable permission asks for a blocked grant |
| PermissionMatrix.BoundaryDecides | access/services/permissions.py:200-256 | an update is accepted exactly if the boundary allows every enabled toggle of a configurable role on a configurable permission |
| PermissionMatrix.RejectionNames | access/services/permissions.py:229-256 | a rejection names the first item with a forbidden grant and exactly the roles that may not have it |
| PermissionMatrix.ExactIffAgreeing | access/services/permissions.py:258-309 | every named permission ends with exactly the requested roles if and only if items naming it agree |
| PermissionMatrix.OthersUntouched | access/services/permissions.py:159-193 | rows of SITE_ADMIN and of unnamed or non-configurable permissions stay as they were |
| PermissionMatrix.CountersExact | access/services/permissions.py:283-309 | `deleted` is the number of grants lost; `created` that of grants won exactly if no new grant is asked for twice |
| PermissionMatrix.SecondDomainIgnored | access/services/permissions.py:173-309 | two domains ask differently for one permission: accepted, and the second one's wish is not what is left |
| PermissionMatrix.OneGrantCountedTwice | access/services/permissions.py:283-309 | two domains ask for one new grant: one row is won and more than one counted |
| PermissionMatrix.AssetsViewIsAnInput | access/role_permission_boundaries.py:316-435 | a catalog and a permission for which both happen |
| PermissionMatrix.MetaTellsTheChange | access/services/permissions.py:313-322 | `changed` holds exactly if the grants changed, for any payload |
| PermissionMatrix.NamedOnceIsExact | access/services/permissions.py:143-324 | for a payload naming each code once all of the response's numbers and the result are exact |
| PermissionMatrix.RunWithinBoundary | access/services/permissions.py:200-256 | no run of updates takes the matrix outside the boundary |
| PermissionMatrix.ReadBackIsNoOp | access/services/permissions.py:42-141 | sending back rows of the current matrix changes and counts nothing |
| PermissionMatrix.MatrixService.UpdateMatrix | access/services/permissions.py:143-324 | the nested loops leave the reconciled rows and counters, or reject and leave every row |
| PermissionMatrix.MatrixService.UpdatePermission | access/services/permissions.py:189-309 | the same for one item |
| AgreementLifecycle.StepLegal | agreements/models/agreements.py:91-111 | every operation keeps the two date constraints, is a legal move logged once, and never changes a terminated agreement |
| AgreementLifecycle.AttemptExactly | agreements/service.py:78-319 | an operation succeeds exactly if no reason stands against it by terms, arguments and constraints, fails for one that does, and on success leaves and logs exactly the terms asked for |
| AgreementLifecycle.StepExactly | agreements/service.py:78-319 | in a run an operation is carried out exactly if nothing stands against it |
| AgreementLifecycle.ExpiresOnce | agreements/service.py:11-47 | expiring changes and logs exactly agreements not yet expired, once |
| AgreementLifecycle.HistoryReplays | agreements/service.py:11-319 | over every run the history is an unbroken chain of legal rows, each exactly what one of the operations asked for of the terms it found, whose replay gives the current terms, and the date constraints hold |
| AgreementLifecycle.RunIsMonotone | agreements/service.py:78-319 | termination is final, a set expiry date never moves back, no history row is lost |
| AgreementLifecycle.BareExpireReopens | agreements/service.py:11-47 | expiring outside the sync lets a renewal succeed that the agreement's termination forbids |
| AgreementLifecycle.SyncLeavesNoneOverdue | agreements/service.py:49-76 | after a sync the agreement is not ACTIVE and overdue, and a second sync changes nothing |
| AgreementLifecycle.SyncCountsNewRows | agreements/service.py:49-76 | over all agreements the count is the number of new EXPIRED rows, and a second sync that day counts nothing |
| AgreementLifecycle.RenewedIsSafeToday | agreements/service.py:203-279 | an agreement just renewed is not overdue, so that day's sync leaves it alone |
| AgreementLifecycle.Agreement.ExpireAgreement | agreements/service.py:11-47 | expires and logs, or reports no change |
| AgreementLifecycle.Agreement.TerminateAgreement | agreements/service.py:78-129 | terminates and logs, or refuses with no effect |
| AgreementLifecycle.Agreement.ExtendAgreement | agreements/service.py:132-200 | extends and logs, or refuses with no effect |
| AgreementLifecycle.Agreement.RenewAgreement | agreements/service.py:203-319 | renews and logs, or refuses with no effect, also when the table's constraint does |
| AgreementLifecycle.SyncExpiredAgreements | agreements/service.py:49-76 | the loop syncs every agreement and counts those it changed |
| AgreementCoverage.ConsultationsAgree | agreements/models/agreements.py:531-582 | the two searches agree on every well-formed list, and exactly when they differ on others |
| AgreementCoverage.CoversExactly | agreements/services/coverage.py:27-99 | a room is covered exactly if a coverage names the room, its location, its department or everything |
| AgreementCoverage.OrderIrrelevant | agreements/services/coverage.py:44-99 | neither search depends on the order or repetition of coverages |
| AgreementCoverage.RoomAcceptedExactly | agreements/models/agreements.py:272-324 | a room coverage is accepted exactly when the room has a location and is not yet covered |
| AgreementCoverage.BroaderAcceptedExactly | agreements/models/agreements.py:260-313 | a location or department coverage is accepted exactly when no other coverage alone includes every room that can lie in it |
| AgreementCoverage.GlobalAcceptedExactly | agreements/models/agreements.py:238-254 | a global coverage is accepted exactly where there is no other |
| AgreementCoverage.RefusalNamesTheConflict | agreements/models/agreements.py:238-324 | a refusal names a kind of conflict that some other coverage gives cause for |
| AgreementCoverage.RunConsistent | agreements/models/agreements.py:326-328 | over every run of saves and deletes a GLOBAL coverage is the only one and no scope occurs twice |
| AgreementCoverage.BroaderAfterNarrowerAccepted | agreements/models/agreements.py:256-290 | a department may be added over its own room, though not the other way round |
| AgreementCoverage.CoverageBook.SaveCoverage | agreements/models/agreements.py:326-328 | saving stores a clean coverage and refuses any other, keeping the set consistent |
| AgreementCoverage.AgreementCoversRoom | agreements/services/coverage.py:27-99 | the early-return loop decides whether some coverage matches the room's hierarchy |
| AgreementCoverage.IsAssetEligible | agreements/models/agreements.py:531-582 | the early-return loop decides whether some coverage admits the asset's room |
| Base62.IntToBase62 | core/utils/ids.py:13-23 | the divmod loop yields the numeral |
| Base62.RoundTrip | core/utils/ids.py:13-23 | base-62 decoding inverts it |
| Base62.NoLeadingZero | core/utils/ids.py:13-23 | no leading zero except for 0 itself |
| Base62.LengthExact | core/utils/ids.py:13-23 | at most k digits exactly for numbers below 62^k |
| Base62.BodiesCollideExactly | core/utils/ids.py:39-45 | exactly which two draws give the same truncated body |
| Base62.AtMost63Draws | core/utils/ids.py:39-45 | no body comes from more than 63 of the 2^64 draws |
| Base62.SixtyThreeDrawsReached | core/utils/ids.py:39-45 | and 63 is reached |
| PublicIds.NeverReissued | core/models/base.py:92-105 | over every run of reservations, bulk inserts, deletions and draws beside the ledger, the ledger hands out no id again that it has, and none twice |
| PublicIds.ReserveExactly | core/utils/ids.py:76-102 | a reservation hands out the first free candidate of its first twenty draws, or nothing |
| PublicIds.DeletedForGood | core/models/base.py:92-105 | the id of a deleted object never belongs to an object again |
| PublicIds.EnsuredExactly | core/models/base.py:67-85 | exactly when saving an object fails to give it an id, and which id it gets |
| PublicIds.GenerateIsFresh | core/utils/ids.py:47-73 | set ids stay, and permanent ids given are new to the ledger, distinct and registered under the object's own label, up to the first failure |
| PublicIds.DrawnExactly | core/models/base.py:8-38 | as many ids are drawn as objects lack one, and each of these gets its own |
| PublicIds.AllDifferentExactly | core/utils/ids.py:47-73 | over every run all ids handed out, with and without the ledger, differ exactly if no draw beside the ledger hit an earlier id and the ledger took no drawn one |
| PublicIds.DrawnIdIsReissued | core/models/base.py:67-85 | a run in which a drawn id is reserved and then drawn again |
| PublicIds.Registry.ReservePublicId | core/utils/ids.py:76-102 | the retry loop registers the first free candidate of twenty, or fails with no effect |
| PublicIds.Registry.GeneratePublicIds | core/utils/ids.py:47-73 | the loop gives the specified ids and ledger rows, and stops at the first failure |
| PublicIds.Registry.EnsurePublicId | core/models/base.py:67-85 | an id once set is never replaced, and a missing one becomes the specified one or the specified failure |
| PublicIds.Registry.BulkCreate | core/models/base.py:8-38 | objects keep ids they have and get drawn ones otherwise; the drawn ids enter the ledger all or none, and the objects their table all or none |
| JobLease.ClaimExactly | reporting/services/job_state.py:43-162 | exactly when a delivery gets the lease, fails the job or changes nothing, from the row's status, owner, heartbeat and attempts |
| JobLease.ReservedForItsTask | reporting/services/job_state.py:115-123 | a job reserved for a task stays reserved whatever deliveries of others do within the grace; its own delivery gets the lease at any time, another exactly when the grace is over |
| JobLease.ReserveExactly | reporting/services/job_dispatch.py:32-54 | a task id is reserved exactly on a job that has none, does not run and is not over |
| JobLease.PayloadExactly | reporting/services/job_state.py:198-247 | over every run a job has a payload exactly if it had one or a holder of its lease left one |
| JobLease.TidyAlways | reporting/services/job_state.py:43-247 | over every run owner and sign of life come and go together, only running jobs have started, only jobs that are over have finished, and none over for good has an owner |
| JobLease.CancelExactly | data_import/views.py:160-215 | an import is cancelled exactly until it is done or has failed, and nothing else ever is |
| JobLease.SilenceCountsAnew | reporting/services/job_state.py:165-195 | every sign of life starts the stale threshold anew |
| JobLease.HandoffStartsOver | reporting/services/job_state.py:223-247 | an import handed over keeps its result, and its rendering starts with the whole budget |
| JobLease.SaneAlways | reporting/services/job_state.py:43-247 | over every run of lease operations a RUNNING job has an owner, a start and a heartbeat, a stored report means DONE, and attempts stay within the limit |
| JobLease.FinalForever | reporting/services/job_state.py:61-79 | a failed, cancelled or rendered job is never written again |
| JobLease.RenderedAtMostOnce | reporting/tasks/reports.py:168-202 | whatever the interleaving at most one delivery's report is stored |
| JobLease.RenderedByHolder | reporting/tasks/reports.py:176-193 | and its task held the lease when it stored it |
| JobLease.AttemptsAccounted | reporting/services/job_state.py:81-195 | between handoffs the attempt counter is the number of deliveries, redeliveries and retries let through, hence bounded |
| JobLease.LeaseLostExactly | reporting/services/job_state.py:81-122 | a lease ends exactly when its holder ends it, the import is cancelled, or another finds it silent for the stale threshold |
| JobLease.LeaseKept | reporting/services/job_state.py:165-195 | over every run whose clocks stay below that threshold the lease stays where it is |
| JobLease.WorkInsideLimitKeepsLease | core/checks.py:213-226 | with settings that pass the checks, work inside its hard time limit is never taken over |
| JobLease.CountdownBounds | core/task_reliability.py:53-57 | retry delays start at the base, never shrink, double up to the maximum and stay below the stale threshold |
| JobLease.RetryFindsItsLease | reporting/services/job_state.py:174-195 | until a scheduled retry's countdown has run out nobody else changes the row, and the retry resumes its lease |
| JobLease.GrantedExactly | reporting/services/job_state.py:81-195 | through any run of anybody's steps that spare a lease, its holder is granted every retry and redelivery it asks for exactly if they fit in the attempt budget |
| JobLease.ChecksDemandExactly | core/checks.py:213-252 | settings pass the checks exactly if retry delays are positive and bounded, a new job's lease outlasts both hard limits and the longest delay, and the budget grants every configured retry |
| JobLease.BudgetCoversRetries | core/checks.py:241-252 | with settings that pass the checks, the first delivery of a new job and all its retries get through, whatever else is done to the row that spares the lease |
| JobRecovery.QueryMatchesCheckExactly | core/tasks/job_recovery.py:24-46 | exactly when the candidate query and the check under the lock agree on a row |
| JobRecovery.QueryMatchesCheckAlways | core/tasks/job_recovery.py:94-127 | they agree on every job that lease operations can produce |
| JobRecovery.EnqueueExactly | reporting/services/job_dispatch.py:26-70 | a message is sent exactly for a reservation on a free job, which stands; one that cannot be sent is withdrawn; any other job is left alone |
| JobRecovery.PassEvolves | core/tasks/job_recovery.py:132-187 | a pass with anything running beside it is a run of lease operations on each job |
| JobRecovery.PassRespectsFinal | core/tasks/job_recovery.py:132-187 | so it leaves failed, cancelled and rendered jobs alone and every job sane |
| JobRecovery.OverLimitStaysFailed | core/tasks/job_recovery.py:145-163 | a job failed for its attempts is still failed when the pass ends |
| JobRecovery.RefreshedIsLeftAlone | core/tasks/job_recovery.py:135-143 | a heartbeat between selection and lock saves the job |
| JobRecovery.PassKeepsAlive | core/tasks/job_recovery.py:132-178 | a pass never takes a job from a worker heard from within the stale threshold |
| JobRecovery.QuietPassExact | core/tasks/job_recovery.py:132-187 | without interference each candidate gets exactly its settled row and verdict, only over-limit ones fail, and no other row changes |
| JobRecovery.BacklogCleared | core/tasks/job_recovery.py:94-187 | after a quiet pass over a batch that was not full only jobs whose message could not be sent are still recoverable |
| JobRecovery.JobTable.SelectCandidates | core/tasks/job_recovery.py:94-130 | the query's answer: selected jobs only, oldest first, all of them unless the batch is full |
| JobRecovery.JobTable.RecoverStaleReportJobs | core/tasks/job_recovery.py:76-198 | the task selects and carries out the pass over what it selected, and its three counters and the skipped ones partition the candidates |
| JobRecovery.JobTable.ClaimJob | reporting/services/job_state.py:43-162 | the branches of the claim carry out the claim function, one row written at most |
| JobRecovery.JobTable.EnqueueReportJob | reporting/services/job_dispatch.py:26-70 | a task id is reserved only on a free unfinished job and withdrawn if the message was not sent |

## Left out

- HTTP views, serializers, admin, migrations, settings, URL files: wiring.
- Notifications, websocket messages, audit rows, logging, email, file storage, CSV and Excel: input and output; only the domain events used as ledgers are kept.
- Row locks and lost updates of the transactional services: each of them is one step here, and one request's transaction never reads another's unfinished rows.
- The scope cache of one user is modelled at a time, since keys of different users never meet; the cached payload's own expiry counts as an eviction, and the site generation and active role in the cache key count as part of the query.
- `invalidate_user_on_commit`: it only delays the rotation and swallows its failure, which the protocol model covers as a failed rotation.
- Timestamps and notes of return requests and the public ids of their items: no decision reads them.
- The order in which a request's items come back from the database: the model takes them in table order, which only orders the events.
- Negative quantities in stored return items: the event row that goes with every item takes none, so such a payload ends in an error here.
- Views that write custody and stock themselves: reassigning is a take-back followed by a hand-out, while issuing and using up accessories and consumables change what runs start from.
- Deleting rooms, assets and requests, which also deletes the return items on them: a run has the rooms and rows it starts with and those it adds.
- `core/cache/module_caches/sites.py` holds a second invalidation callback on the same keys, whose fallback sets version 2; only the one of `core/cache/invalidation.py` is modelled.
- Domain grouping, labels and blocked-role lists of the matrix response: presentation of the rows that are modelled.
- `PermissionMatrixSessionService.revoke_after_matrix_update`: one filtered bulk update of sessions.
- Role assignments' uniqueness per user and scope: it can only refuse a write that governance allowed.
- `generate_unique_prefixed_id` and `generate_base62_identifier`: they check or draw without the ledger.
- `change_equipment_status` and `condemn_equipment`: single assignments behind a role check.
- Deleting jobs outside a recovery pass, the content of import payloads and cleaning up uploaded files.
- Jobs whose broker message is delivered twice under one task id: both deliveries own the lease, as in the code, so exclusivity is per task id.
- Analytics, dashboards, health checks, simple filters, password-reset tokens, and the older scope helpers that duplicate `ScopeService`.
- JobRecovery.BacklogCleared: speaks of a pass nothing else interferes with; with interference jobs may become recoverable while it runs.
