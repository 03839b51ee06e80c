# Vaultur, verified

Vaultur is a Bitwarden-compatible password server that runs as a Cloudflare Worker. Most of its
handlers move JSON between a client and a table. This project models the parts that hold real state,
loops, parsing or arithmetic, and proves what they are meant to guarantee, over all inputs, all
databases and all runs.

| module | what it models |
|---|---|
| `Base`, `Text`, `Bits` | options and outcomes, SQL row filters, batches; the string methods; the bitwise operators as arithmetic |
| `Memberships` | ranks of membership types |
| `VaultAccess`, `VaultAgreement` | the access snapshot filled by `loadCipherSyncData`, the forward check and the list query, and a flat reading of the raw grant rows |
| `CipherAudience` | the reverse index `usersWithCipherAccess`, with its batches of ninety, and the agreement of all three |
| `CipherWrites`, `MemberGrants`, `FolderLinks` | the loops that reconcile cipher-collection links, a member's collection grants and cipher-folder links |
| `OrgLifecycle`, `OrgHandlers` | every handler that changes a membership row, first as functions on one state, then as methods with the handlers' checks and loops |
| `OrgInvariants`, `OrgAuthority`, `Revocation` | what every run of those handlers keeps; who may do what, row by row; the arithmetic coding of revocation |
| `Numerals`, `Ipv4`, `Ipv6`, `HostFilter`, `HostVerdicts` | the host filter of the icon proxy: numerals in three notations, inet_aton, IPv6 expansion, the block tests, the canonical host, and exactly which hosts pass |
| `RateLimit`, `TwoFactor` | the per-address window, the per-account failure counter, replay protection of authenticator codes, emailed codes |
| `ConfigCache`, `ConfigSchema` | the per-isolate cache of the settings as an interleaving; saving only the settings that differ |
| `EmergencyAccess` | the emergency-access protocol between two accounts |
| `Frames`, `DateTime`, `AccessIds` | length-prefixed frames, sortable timestamps, public ids of Sends |

A table is a sequence of rows or a map from row ids to rows, a request is one atomic step, and an error
that a handler raises is a `Failed` outcome with the state it leaves. Where the source changes state step
by step, a class method does the same and is proved against a function of the old state; the properties
are then proved about that function. Clocks, tokens, fresh ids and the results of cryptography are
parameters.

## Where the code and its documentation differ

The model follows the code.

* Logging in without two-step login writes the plain status -1 (`src/services/twofactor.ts:239-244`),
  while every other revocation subtracts 128. Restoring such a row adds 128 and gives 127, which is no
  status of the protocol: the member counts as neither revoked nor confirmed, and only another revoke
  changes that. `Revocation.LoginRevocationIsPermanent` states it.
* `expandIpv6` accepts a `::` that stands for no group, which section 2.2 of RFC 4291 does not allow, and
  white space around a dotted tail. `Ipv6.ExpandedIffPrinting` describes exactly what is accepted.
* An IPv6 literal with a dotted tail passes `getSafeHost` with brackets and is refused without them, so
  filtering its own result fails. `HostFilter.FilteringTwice` gives the exact exception.
* With `ORG_CREATION_USERS` set to the empty text, posting a blank for it stores nothing and the empty
  text stays in force, although applying the blank would give "all". That is the only form value that is
  lost (`ConfigSchema.SavedSettingsTakeEffect`).
* `upsertGroup` does not check that a collection belongs to the group's organisation
  (`src/api/org-members.ts:978-986`). The reverse index then misses exactly the members without full
  access whom only rows of groups joined through another organisation connect to the cipher
  (`CipherAudience.AgreementIffNotOnlyStray`; `CipherAudience.CrossOrgGroupBreaksAgreement` gives such a
  database). Where groups stay inside their organisation there is no such member and all three queries agree.
* The waiting time of emergency access is stored and shown but no handler checks it; what earns access is
  confirm, initiate and approve.
* Saving the settings writes the row first and the isolate's cache afterwards. The least bound on staleness
  is the cache lifetime plus the longest pause between these two steps
  (`ConfigCache.StalenessBoundIsExact`), so ten seconds are right iff no save pauses.
* Stored timestamps are ordered by time in four-digit years. `DateTime.OrderHoldsIff` gives the exact pairs
  of times for which the order holds beyond them.

## Model

| member | source | states |
|---|---|---|
| VaultAccess.LoadCipherSyncData | src/services/vault.ts:54-177 | the four maps, filled row by row under the loader's conditions, are the snapshot that all access properties speak about, for user loads and organisation loads |
| VaultAccess.FillCollections | src/services/vault.ts:123-136 | each cipher's list holds the collections of its link rows, in order |
| VaultAccess.FillGroups | src/services/vault.ts:151-173 | group rows on one collection are merged: restricted only while every row restricts, manage as soon as one manages |
| VaultAccess.GetAccessRestrictions | src/services/vault.ts:189-214 | the loop over collections and the two grant maps returns exactly the folded restrictions of the snapshot |
| VaultAgreement.FoldIsFlat | src/services/vault.ts:201-213 | folding direct and group sources over collections summarises the set of all rows it has seen |
| VaultAgreement.GroupEntry | src/services/vault.ts:151-173 | an entry of the group map summarises every group row on that collection |
| VaultAgreement.DirectEntry | src/services/vault.ts:138-149 | an entry of the direct map is the one grant row its key allows |
| VaultAgreement.TwoLevelMergeIsFlat | src/services/vault.ts:123-214 | the two-level merge equals one flat reading of the raw rows: none without a row, read-only or hiding passwords iff every row is, manage iff some row is |
| VaultAgreement.MemberAccess | src/services/memberships.ts:28-30 | a confirmed member gets full rights iff he is an Owner, an Admin or has access to all; anyone else, Managers included, gets what the grant rows say |
| VaultAgreement.GrantedAccessByRows | src/services/vault.ts:189-214 | without full access: access iff some row connects member and cipher, read-only or hiding passwords iff all those rows are, managing iff one is |
| VaultAgreement.StrangerHasNone | src/services/vault.ts:189-199 | nobody but the owner and the confirmed members has any access |
| VaultAgreement.OwnCipherIsOpen | src/services/vault.ts:189-195 | one's own cipher is never restricted |
| VaultAgreement.OrgModeIsUserMode | src/services/vault.ts:54-177 | an organisation load and a user load decide that organisation's ciphers alike |
| VaultAgreement.AddingGrantsNeverRestricts | src/services/vault.ts:123-214 | adding direct grants, group grants or group members never takes access away |
| VaultAgreement.RowOrderIsIrrelevant | src/services/vault.ts:54-214 | the decision does not depend on the order in which any table returns its rows |
| CipherAudience.UsersWithCipherAccess | src/services/ciphers.ts:312-356 | the set grown batch by batch holds exactly the owner, or the confirmed members with full access or touched by a direct or group row |
| CipherAudience.AddBatches | src/services/ciphers.ts:331-351 | any number of ninety-row batches adds exactly the users that one unbatched query would |
| CipherAudience.TouchedIsGranted | src/services/ciphers.ts:331-351 | on a well-formed database a user is touched through the linked collections iff some raw grant row reaches the cipher |
| CipherAudience.ReachedIsAccess | src/services/ciphers.ts:312-356 | being reached by the reverse query is the same as having flat restrictions |
| CipherAudience.ListedIsAccess | src/services/vault.ts:697-718 | on every database the list query returns a cipher iff the forward check passes |
| CipherAudience.AccessAgreement | src/services/ciphers.ts:312-356 | on every well-formed database the reverse index, the forward check and the list query agree on every user and cipher |
| CipherAudience.AgreementIffNotOnlyStray | src/services/ciphers.ts:312-356 | without the condition on groups they agree on a user and a cipher iff he is not a member without full access whom only rows of groups joined through another organisation connect to it |
| CipherAudience.ReachedIsAccessIffNotStray | src/services/ciphers.ts:331-351 | the same for the reverse query and the flat reading of the rows |
| CipherAudience.ReachedByRows | src/services/ciphers.ts:312-356 | the reverse index holds the owner of a personal cipher and, of an organisation's, its Owners, Admins, members with access to all, and the members, Managers included, whom a row connects to it |
| CipherAudience.CrossOrgGroupBreaksAgreement | src/api/org-members.ts:978-986 | such a member exists on some database that satisfies every other condition |
| CipherWrites.ChangeableIsGranted | src/api/ciphers.ts:582-593 | for a member, a collection may be changed iff he has full access or some raw grant row on it |
| CipherWrites.VaultStore.UpdateUsersRevisionForCipher | src/services/ciphers.ts:358-365 | exactly the users whose vault includes the cipher get a new revision |
| CipherWrites.VaultStore.UpdateCipherCollections | src/api/ciphers.ts:564-610 | the links become (current minus changeable) plus (requested and changeable), other ciphers keep theirs, and it succeeds exactly for a writer of an organisation's cipher |
| CipherWrites.WritableIff | src/services/vault.ts:216-219 | a cipher is writable iff it is one's own, or one is a confirmed member with full access or with some row that is not read-only |
| CipherWrites.RelinkedByRows | src/api/ciphers.ts:564-610 | in raw rows: a collection of the organisation on which the writer has full access or any row is linked iff requested, every other link stays |
| CipherWrites.ReadersChangeNothing | src/api/ciphers.ts:433-610 | a member whose rows on a cipher are all read-only changes none of its links, one by one or in bulk |
| CipherWrites.VaultStore.ReconcileLinks | src/api/ciphers.ts:570-609 | the loop over requested and current collections reconciles exactly the changeable links |
| CipherWrites.CheckCollections | src/api/ciphers.ts:443-457 | the bulk request passes iff the actor is a member and may write every requested collection of the organisation |
| CipherWrites.VaultStore.BulkCollections | src/api/ciphers.ts:433-483 | exactly the requested links of the writable ciphers of that organisation are added or removed; a refused request changes nothing |
| CipherWrites.BulkRelinkedByRows | src/api/ciphers.ts:433-483 | in raw rows: exactly the requested links of the organisation's ciphers that the actor may write change |
| CipherWrites.BulkWritableIff | src/api/ciphers.ts:443-457 | a requested collection passes iff it is the organisation's and the member has full access or a row on it that is not read-only |
| CipherWrites.MayAddToOrg | src/services/ciphers.ts:182-191 | a cipher may be moved into an organisation iff the actor has a confirmed membership there and that has full access or he is otherwise entitled |
| CipherWrites.MayAddIffEntitledMember | src/services/ciphers.ts:182-191 | with one membership per user and organisation: exactly any member with full access, and any member who shares the cipher, owns it or may write it |
| CipherWrites.VaultStore.AssignOwner | src/services/ciphers.ts:150-195 | a save is accepted iff the personal-ownership policy, the present organisation and the right to add allow it; an accepted cipher has exactly the owner asked for, a refused one keeps its own |
| CipherWrites.CheckOwnerChange | src/services/ciphers.ts:158-172 | the policy, and that a cipher never changes organisation |
| CipherWrites.ReconcilingKeepsLinksInside | src/api/ciphers.ts:564-610 | reconciling one cipher keeps every link inside its cipher's organisation |
| CipherWrites.BulkKeepsLinksInside | src/api/ciphers.ts:433-483 | so does the bulk request |
| MemberGrants.GrantTable.ReplaceMemberCollections | src/api/org-members.ts:203-243 | the member's grants in the organisation become exactly the assigned ones, all other grants stay, and it fails exactly when a collection of the organisation is assigned twice |
| MemberGrants.GrantTable.RemoveExisting | src/api/org-members.ts:216-232 | the row-by-row deletion removes the member's grants on the organisation's collections and nothing else |
| MemberGrants.GrantTable.InsertAssigned | src/api/org-members.ts:233-242 | insertion keeps the primary key and stops at the first repeated collection |
| MemberGrants.ReplacementSparesOthers | src/api/org-members.ts:203-243 | no other user's access changes, nor the member's own in other organisations |
| MemberGrants.ReplacementGrantsExactly | src/api/org-members.ts:203-243 | the member's access to the organisation's ciphers is then the summary of what was assigned and of his groups |
| FolderLinks.FolderTable.MoveToFolder | src/services/ciphers.ts:267-293 | the loop with its early return deletes and inserts exactly the rows of the specification |
| FolderLinks.MoveTouchesOnlyMine | src/services/ciphers.ts:267-293 | links of other ciphers and of other users' folders are never touched |
| FolderLinks.MoveLeavesExactlyTarget | src/services/ciphers.ts:267-293 | a move leaves exactly the requested folder |
| FolderLinks.MoveWithStaleRows | src/services/ciphers.ts:276-287 | on a table that already holds several folders, the move is complete iff the target is absent or last, because of the early return |
| FolderLinks.RunsKeepOneFolder | src/services/ciphers.ts:267-293 | over every run of moves and deletions no user has a cipher in two folders |
| FolderLinks.OthersFoldersStay | src/services/ciphers.ts:267-293 | nothing one user does touches another's folders or what lies in them |
| OrgHandlers.OrgServer.CountConfirmedOwners | src/api/org-members.ts:70-80 | the number of confirmed Owner rows |
| OrgHandlers.OrgServer.CreateOrganization | src/api/organizations.ts:166-221 | who may create one, what is required, and that the creator becomes a confirmed Owner with full access; `OrgInvariants.EveryReachableOrgIsOwned` starts from it |
| OrgHandlers.ListedMayCreateOrgs | src/api/organizations.ts:172-182 | a comma list of addresses admits exactly those on it |
| OrgHandlers.WordsOfCreation | src/api/organizations.ts:172-182 | "all" and the blank admit everybody, "none" nobody |
| OrgHandlers.OrgServer.InviteMembers | src/api/org-members.ts:324-435 | the loop over addresses adds rows until the first refused one and leaves the earlier ones in place; refused grants end it after the first row |
| OrgHandlers.OrgServer.InviteOneAddress | src/api/org-members.ts:345-387 | one address: a new account only where invitations are allowed, and never a second row |
| OrgHandlers.OrgServer.AcceptInvite | src/api/org-members.ts:509-589 | acceptance succeeds exactly on an open invitation of the user that both policies allow; its effect on statuses is in `Revocation.StepMoves` |
| OrgHandlers.OrgServer.ConfirmMember | src/api/org-members.ts:591-630 | an accepted row becomes confirmed with its key; only an Owner confirms an Owner |
| OrgHandlers.OrgServer.ConfirmMembers | src/api/org-members.ts:642-658 | the bulk loop skips failures and keeps the successes |
| OrgHandlers.OrgServer.EditMember | src/api/org-members.ts:701-757 | the type and the access flag change, unless the guard on Owners or the last-Owner guard refuses; `OrgInvariants.EditKeeps` says what that keeps |
| OrgHandlers.OrgServer.RemoveMember | src/api/org-members.ts:762-790 | the row goes, unless a guard refuses; `OrgInvariants.RemoveKeeps` says what that keeps |
| OrgHandlers.OrgServer.RemoveMembers | src/api/org-members.ts:804-820 | bulk removal, failures skipped |
| OrgHandlers.OrgServer.LeaveOrganization | src/api/organizations.ts:279-305 | the row found for the member goes, unless he is the last confirmed Owner; `OrgInvariants.LeaveKeeps` says what that keeps |
| OrgHandlers.OrgServer.SetRevokedOne | src/api/org-members.ts:822-868 | revoking subtracts 128 and restoring adds it, each only from the other side; `Revocation.RestoreReturnsHeldStatus` says what that gives |
| OrgHandlers.OrgServer.SetRevokedBulk | src/api/org-members.ts:662-680 | bulk revoke and restore, failures skipped |
| OrgHandlers.OrgServer.RevokePolicyHits | src/api/org-members.ts:1256-1292 | enabling a policy revokes exactly the members it hits |
| OrgHandlers.OrgServer.PutPolicyHandler | src/api/org-members.ts:1237-1325 | the members are revoked before the policy is stored |
| OrgHandlers.OrgServer.ImportMember | src/api/public.ts:82-152 | one directory entry revokes, restores, relabels or adds, on the row its query takes |
| OrgHandlers.OrgServer.ImportDirectory | src/api/public.ts:69-152 | the import refuses an unknown organisation and otherwise goes through the entries, whichever rows its queries take |
| OrgHandlers.OrgServer.ImportMembers | src/api/public.ts:82-152 | the member loop, entry by entry |
| OrgHandlers.ImportedIsImportEach | src/api/public.ts:82-152 | with one row per user and organisation the outcome does not depend on which row a query takes |
| OrgHandlers.OrgServer.RetypeMember | src/api/admin.ts:366-408 | the administrator's retyping of the row found, with its last-Owner guard; `OrgInvariants.RetypeKeeps` says what that keeps |
| OrgHandlers.OrgServer.EnforceTwoFactorPolicy | src/services/twofactor.ts:214-247 | a login without two-step login writes -1 to exactly the rows that a two-factor policy covers; `Revocation.LoginRevocationIsPermanent` says what follows |
| OrgInvariants.StepKeepsInv | src/api/org-members.ts:719-868 | every handler keeps references, one row per user and organisation, and a confirmed Owner per organisation |
| OrgInvariants.EditKeeps | src/api/org-members.ts:719-734 | editing keeps them |
| OrgInvariants.RemoveKeeps | src/api/org-members.ts:771-779 | removing keeps them |
| OrgInvariants.LeaveKeeps | src/api/organizations.ts:288-296 | leaving keeps them |
| OrgInvariants.SetRevokedKeeps | src/api/org-members.ts:834-842 | revoking and restoring keep them |
| OrgInvariants.RetypeKeeps | src/api/admin.ts:387-406 | retyping keeps them |
| OrgInvariants.ImportEachKeeps | src/api/public.ts:95-109 | the import keeps them |
| OrgInvariants.PutPolicyKeeps | src/api/org-members.ts:1256-1292 | enabling a policy keeps them |
| OrgInvariants.LoginKeeps | src/services/twofactor.ts:238-246 | the login-time revocation keeps them |
| OrgInvariants.RunKeepsInv | src/api/org-members.ts:324-868 | so does every run |
| OrgInvariants.EveryReachableOrgIsOwned | src/api/org-members.ts:719-734 | in every state reachable from the empty server each organisation has a confirmed Owner |
| OrgInvariants.AccountDeletionKeepsOwnersIff | src/api/accounts.ts:711-716 | deleting an account keeps an Owner everywhere iff no organisation has that user as its only confirmed Owner |
| OrgInvariants.CreatorDeletionOrphansOrg | src/api/accounts.ts:711-716 | and on any fresh server, creating an organisation and deleting the account leaves it without an Owner |
| OrgAuthority.PrivilegeOrder | src/services/memberships.ts:11-26 | the ranks order the wire values 0, 1, 3, 2: Owner, Admin, Manager, User |
| OrgAuthority.EditDecided | src/api/org-members.ts:701-757 | exactly when an edit succeeds and what the row then is: an Admin edits, only an Owner gives or takes Owner, the last confirmed Owner stays one |
| OrgAuthority.RemoveDecided | src/api/org-members.ts:762-790 | exactly when a removal succeeds: an Owner's row only by an Owner, the last confirmed one not at all |
| OrgAuthority.RemovedAreGone | src/api/org-members.ts:804-820 | bulk removal: every listed row of the organisation is gone, except Owners' rows without an Owner acting or another Owner left, and nothing else is |
| OrgAuthority.LeaveDecided | src/api/organizations.ts:279-305 | exactly when a member may leave |
| OrgAuthority.SetRevokedDecided | src/api/org-members.ts:822-868 | exactly when a revoke or restore succeeds and what status it leaves |
| OrgAuthority.RevokedByWhom | src/api/org-members.ts:662-680 | bulk revoking touches only listed, unrevoked rows of the organisation, an Owner's only when an Owner acts |
| OrgAuthority.ListedAreRevoked | src/api/org-members.ts:662-680 | and every listed row below Owner ends up revoked |
| OrgAuthority.ListedAreRestored | src/api/org-members.ts:662-680 | bulk restoring restores every listed revoked row |
| OrgAuthority.ConfirmDecided | src/api/org-members.ts:591-630 | exactly when a confirmation succeeds, and the key the row then holds |
| OrgAuthority.ConfirmedByWhom | src/api/org-members.ts:642-658 | bulk confirming touches only listed, accepted rows of the organisation, an Owner's only when an Owner acts |
| OrgAuthority.ListedAreConfirmed | src/api/org-members.ts:642-658 | and every listed accepted row below Owner ends up confirmed with its key |
| OrgAuthority.AcceptDecided | src/api/org-members.ts:509-589 | exactly when an invitation is accepted, with what the two policies ask of members below Admin |
| OrgAuthority.InviteDecided | src/api/org-members.ts:324-343 | only Admins invite, and only Owners invite Owners |
| OrgAuthority.InvitedRow | src/api/org-members.ts:345-387 | exactly which address gets a row, and which row |
| OrgAuthority.RetypeDecided | src/api/admin.ts:366-408 | exactly when the administrator may retype a row |
| OrgAuthority.CreateDecided | src/api/organizations.ts:166-221 | a new organisation has its creator as confirmed Owner with full access, and nobody else |
| OrgAuthority.DeleteOrgDecided | src/api/organizations.ts:254-275 | only an Owner deletes an organisation, and with it exactly its rows |
| OrgAuthority.ImportDecided | src/api/public.ts:82-152 | a deleted directory entry ends up revoked, except a confirmed Owner without another; a known one restored; an unknown one a User |
| OrgAuthority.PolicyDecided | src/api/org-members.ts:1237-1325 | enabling a policy revokes exactly the accepted members below Admin who do not meet it |
| OrgAuthority.LoginDecided | src/services/twofactor.ts:214-247 | exactly which rows a login without two-step login spoils |
| OrgAuthority.AcceptInvitationsDecided | src/api/accounts.ts:393-402 | setting the first password accepts exactly one's open invitations |
| OrgAuthority.OnlyAdminsAct | src/api/org-members.ts:324-868 | the requests of an organisation's administration change nothing unless a confirmed Owner or Admin of it makes them |
| OrgAuthority.ColumnsHaveTheirRequests | src/api/org-members.ts:324-868 | which request may change which column of a surviving row |
| OrgAuthority.OnlyOwnersGiveOwner | src/api/org-members.ts:718-724 | apart from the administrator, only a confirmed Owner of the organisation gives or takes the Owner type |
| OrgAuthority.OnlyOwnersInviteOwners | src/api/org-members.ts:340-343 | a new Owner's row is its organisation's first, or an Owner invited it |
| OrgAuthority.OnlyOwnersRemoveOwners | src/api/org-members.ts:771-779 | an Owner's row disappears only when an Owner removes it, its user leaves, or an Owner deletes the organisation |
| OrgAuthority.OnlyOwnersRevokeOwners | src/api/org-members.ts:834-842 | an Owner's row is revoked only by an Owner or by the import |
| OrgAuthority.OnlyOwnersConfirmOwners | src/api/org-members.ts:591-630 | an accepted row is confirmed only by an Admin, an Owner's only by an Owner |
| OrgAuthority.OwnersStemFromOwners | src/api/org-members.ts:324-757 | over every run, whoever became Owner founded the organisation, was retyped by the administrator, or was made Owner by one who was Owner then |
| Revocation.StepMoves | src/api/org-members.ts:591-868 | the only ways in which one request changes the status of a surviving row |
| Revocation.RunKeepsStatuses | src/api/org-members.ts:822-868 | over every run a status is one of 0, 1, 2, -128, -127, -126, and -1 or 127 only once a login revocation happened |
| Revocation.RestoreReturnsHeldStatus | src/api/org-members.ts:822-868 | restoring gives back exactly the status held at the revoke, whatever happened in between, iff the revoke was an arithmetic one |
| Revocation.FrozenWhileRevoked | src/api/org-members.ts:822-868 | while a row is revoked its status does not move |
| Revocation.LoginRevocationIsPermanent | src/services/twofactor.ts:239-244 | after a login revocation a row is only ever -1 or 127, so it is never confirmed again |
| Revocation.EightStatusesOccur | src/services/twofactor.ts:239-244 | all eight statuses occur in runs from an empty server |
| Numerals.ReadIffNumeral | src/services/ssrf.ts:59-68 | a part is read as n iff it is n in decimal, zero-padded octal or zero-padded hexadecimal of any letter case |
| Ipv4.ParseToIpv4 | src/services/ssrf.ts:22-57 | the branch per number of parts, its range checks, shifts and masks compute the uniform inet_aton reading |
| Ipv4.ReadParts | src/services/ssrf.ts:36-41 | the loop over the parts succeeds iff every part is a numeral |
| Ipv4.FromNumbers | src/services/ssrf.ts:42-56 | the dotted forms: every part but the last is an octet and the last one fills the rest |
| Ipv4.ParsedIffSpelling | src/services/ssrf.ts:22-57 | the parser accepts exactly the inet_aton spellings, each with the octets of its value |
| Ipv4.EverySpellingIsRead | src/services/ssrf.ts:22-57 | every value below 2^32, in one to four parts of any notation each, is read as its big-endian octets |
| Ipv4.GlobalIffOutsideBlocks4 | src/services/ssrf.ts:71-85 | the octet tests hold iff the 32-bit value lies outside the listed address blocks |
| Ipv6.ExpandIpv6 | src/services/ssrf.ts:88-132 | the expansion with its dotted-tail rewrite and its `::` fill computes its specification |
| Ipv6.ParseGroups | src/services/ssrf.ts:108-116 | the groups on one side of `::` |
| Ipv6.ExpandedIffPrinting | src/services/ssrf.ts:88-132 | a text expands to eight groups iff, trimmed, lowered and unbracketed, it is one of their printed forms: full, with `::` over any zero run, or with a dotted tail (section 2.2 of RFC 4291) |
| Ipv6.PrintingIsReadBack | src/services/ssrf.ts:88-132 | every printed form is read back, bare and in brackets |
| Ipv6.ExpandedIsEightGroups | src/services/ssrf.ts:88-132 | whatever is accepted has eight groups below 65536 |
| Ipv6.GlobalIffOutsideBlocks6 | src/services/ssrf.ts:134-151 | the mask tests hold iff the 128-bit value lies outside ::/128, ::1/128, fc00::/7 and fe80::/10 and an IPv4-mapped address (section 2.5.5.2 of RFC 4291) has a global IPv4 address |
| Ipv6.UniqueLocalMask | src/services/ssrf.ts:139 | the mask 0xfe00 decides an interval of first groups |
| Ipv6.LinkLocalMask | src/services/ssrf.ts:140 | so does the mask 0xffc0 |
| HostFilter.GetSafeHost | src/services/ssrf.ts:160-193 | the branches and the label loop compute the verdict |
| HostFilter.CheckLabels | src/services/ssrf.ts:182-191 | the label loop accepts exactly the domain names |
| HostFilter.SpellingsShareVerdict | src/services/ssrf.ts:160-176 | every spelling of one IPv4 address gets one verdict, that of its blocks, and one canonical text |
| HostFilter.FilteringTwice | src/services/ssrf.ts:160-193 | an accepted host is accepted again unchanged, except exactly the IPv6 literals whose text has a dot |
| HostFilter.MappedLiteralIsRefusedAgain | src/services/ssrf.ts:165-169 | the exception occurs for every global IPv4-mapped address |
| HostFilter.FilteredIsNeverBlocked | src/services/ssrf.ts:160-193 | no reading of a returned host, as IPv4 in any spelling or as IPv6, denotes a blocked address, and a returned name is none of the two internal names and ends in none of the four internal suffixes |
| HostVerdicts.NameIsAcceptedIff | src/services/ssrf.ts:180-193 | exactly which names are accepted: two or more labels of letters, digits and inner hyphens, the last of letters, within the length limits, no internal name and no spelling of an IPv4 address |
| HostVerdicts.Ipv4IsAcceptedIff | src/services/ssrf.ts:172-178 | exactly which hosts are accepted as IPv4, and their answer |
| HostVerdicts.DottedSpellsOctets | src/services/ssrf.ts:172-178 | the canonical text is the four octets in decimal, and denotes the address |
| HostVerdicts.Ipv6IsAcceptedIff | src/services/ssrf.ts:164-170 | exactly which hosts are accepted as IPv6, and their answer |
| EmergencyAccess.EmergencyServer.InviteContact | src/api/emergency-access.ts:126-188 | the invitation row, addressed to an account or to an e-mail address |
| EmergencyAccess.EmergencyServer.AcceptInvite | src/api/emergency-access.ts:265-314 | acceptance claims an open invitation |
| EmergencyAccess.EmergencyServer.ConfirmContact | src/api/emergency-access.ts:316-341 | only the grantor confirms, only from Accepted, and with a key |
| EmergencyAccess.EmergencyServer.InitiateRecovery | src/api/emergency-access.ts:347-383 | only the grantee initiates, only from Confirmed |
| EmergencyAccess.EmergencyServer.ApproveRecovery | src/api/emergency-access.ts:385-408 | only the grantor approves, only an initiated recovery |
| EmergencyAccess.EmergencyServer.RejectRecovery | src/api/emergency-access.ts:410-437 | rejecting returns the row to Confirmed and clears the start of the recovery |
| EmergencyAccess.EmergencyServer.ViewVault | src/api/emergency-access.ts:455-478 | a view succeeds iff the request is valid for its grantee |
| EmergencyAccess.EmergencyServer.RotateGrantorKeys | src/api/accounts.ts:676-690 | key rotation rewrites only the keys of the grantor's own rows |
| EmergencyAccess.ListedKeyIsStored | src/api/accounts.ts:676-690 | the last key listed for one of the grantor's own rows is the one stored |
| EmergencyAccess.UnlistedKeyStays | src/api/accounts.ts:676-690 | a row without a listed key, or of another grantor, keeps its own |
| EmergencyAccess.RunKeepsTable | src/api/emergency-access.ts:126-453 | over every run exactly one of grantee and e-mail is set, an e-mail implies Invited, Confirmed and later imply a key, the recovery start is set iff recovery was initiated, and the waiting time is at least a day |
| EmergencyAccess.StepMovesRow | src/api/emergency-access.ts:265-438 | a request moves a row only along the protocol and never changes its parties once accepted |
| EmergencyAccess.RowsChangeByRule | src/api/emergency-access.ts:196-438 | every way in which a request changes a row: who may make it, from which status, and the row it leaves |
| EmergencyAccess.RowsBeginAndEnd | src/api/emergency-access.ts:126-231 | a row begins with an invitation to somebody else and ends with either party's deletion or account |
| EmergencyAccess.InvitationIsAccepted | src/api/emergency-access.ts:265-314 | an invitation can be picked up by its account, or without mail by its address |
| EmergencyAccess.InvitationsTakeEffect | src/api/identity.ts:1016-1022 | registering without mail claims the invitations to one's address |
| EmergencyAccess.RequestsTakeEffect | src/api/emergency-access.ts:196-231 | the grantor's update and either party's deletion take effect |
| EmergencyAccess.ProtocolGoesThrough | src/api/emergency-access.ts:316-522 | from Accepted the protocol goes through to exactly the access that was granted, and a rejection closes it again |
| EmergencyAccess.OnlyApprovedRowsOpen | src/api/emergency-access.ts:443-522 | only an approved row opens, only to its grantee and only for its type |
| EmergencyAccess.RunIsJustified | src/api/emergency-access.ts:316-438 | the status of every row is justified by the run so far |
| EmergencyAccess.EmergencyAccessIsEarned | src/api/emergency-access.ts:443-522 | each successful view, takeover or password step follows confirm, initiate and approve in that order, by the right parties, with no reject since the initiation, on a row whose type was last set to view, or to takeover |
| EmergencyAccess.TypeIsLastSet | src/api/emergency-access.ts:126-212 | the type of a row is the one its invitation, or the latest update by its grantor, gave it |
| RateLimit.KvStore.CheckLoginRateLimit | src/services/ratelimit.ts:9-22 | the read-modify-write of the window counter |
| RateLimit.KvStore.CheckUserLoginFailureLimit | src/services/ratelimit.ts:48-57 | the check refuses iff the counter has reached the limit |
| RateLimit.KvStore.RecordUserLoginFailure | src/services/ratelimit.ts:60-64 | a recorded failure adds one and renews the expiry |
| RateLimit.KvStore.CheckCredentials | src/api/identity.ts:214-279 | the check comes first, and a blocked attempt records nothing |
| RateLimit.CounterIsCount | src/services/ratelimit.ts:9-22 | a live window's counter is the number admitted in it, so the 120 s expiry never loses it |
| RateLimit.WindowAdmitsBurst | src/services/ratelimit.ts:9-22 | no 60 s window ever admits more than the burst |
| RateLimit.RefusedIffFull | src/services/ratelimit.ts:9-22 | an attempt is refused iff its minute has already admitted the burst |
| RateLimit.IntervalBound | src/services/ratelimit.ts:9-22 | any interval admits at most one burst per window it can meet |
| RateLimit.AtMostTwoBurstsAMinute | src/services/ratelimit.ts:9-22 | at most two bursts in any half-open minute |
| RateLimit.TwoBurstsAMinuteHappen | src/services/ratelimit.ts:9-22 | and that bound is attained |
| RateLimit.FailureCounterIsChain | src/services/ratelimit.ts:48-68 | the failure counter is the length of the latest chain of recorded failures with gaps under 60 s, and never above the limit |
| RateLimit.QuickFailuresBlock | src/services/ratelimit.ts:48-68 | of failures less than a minute apart it is exactly the limit-th that blocks, for a minute |
| RateLimit.BlockedUntil | src/services/ratelimit.ts:48-68 | a blocked account stays blocked exactly until 60 s after its last recorded failure |
| RateLimit.LockoutEnds | src/api/identity.ts:211-279 | attempts during a lockout change nothing, so it ends 60 s after the last recorded failure however many follow |
| TwoFactor.Authenticator.ValidateTotpCode | src/services/twofactor.ts:60-100 | the search over the steps 0, -1 and +1 accepts the first match: with an authenticator row only if its step is unused, which is then remembered, and without one always |
| TwoFactor.StepsAreUsedOnce | src/services/twofactor.ts:84-98 | over the life of a row the accepted steps strictly increase, so no code is used twice (section 5.2 of RFC 6238) |
| TwoFactor.CodeIsAcceptedIff | src/services/twofactor.ts:67-98 | a code is accepted iff it is the six digits of the current 30-second step or a neighbour and that step was not used |
| TwoFactor.AcceptanceBound | src/services/twofactor.ts:84-98 | while the clock covers k consecutive steps at most k + 2 codes are accepted |
| TwoFactor.AcceptanceBoundAttained | src/services/twofactor.ts:84-98 | and that bound is attained |
| TwoFactor.EmailRecord.SendEmailLoginToken | src/services/twofactor.ts:106-128 | sending needs a row, replaces the code and resets its attempts, so that `TwoFactor.GuessesPerToken` holds anew |
| TwoFactor.EmailRecord.ValidateEmailCode | src/services/twofactor.ts:130-165 | an emailed code is accepted only while it is unspent and fresh, and a wrong guess counts |
| TwoFactor.GuessesPerToken | src/services/twofactor.ts:130-165 | after one sending at most one try is accepted and at most three wrong guesses are weighed |
| TwoFactor.EmailCodeIsAcceptedIff | src/services/twofactor.ts:106-165 | a try is accepted iff it is the code sent, within ten minutes, after fewer than three wrong guesses and no earlier acceptance |
| TwoFactor.SpentTokenIsDead | src/services/twofactor.ts:130-165 | a spent code accepts nothing any more |
| ConfigCache.ConfigStore.GetConfigOverrides | src/services/server-config.ts:17-34 | a hit returns the cache, a miss reads the row and stamps the entry with the clock read first |
| ConfigCache.ConfigStore.SaveConfigOverrides | src/services/server-config.ts:36-44 | a save writes the row and the isolate's own cache |
| ConfigCache.ConfigStore.ClearConfigOverrides | src/services/server-config.ts:47-50 | a clear is a save of no overrides, so the bounds below hold for it too |
| ConfigCache.RunKeepsInv | src/services/server-config.ts:14-50 | over every interleaving each cached value was in the row when it was read or written |
| ConfigCache.ServedValueWasStored | src/services/server-config.ts:17-34 | a value served from a cache was in the row at some moment of the last ten seconds, plus the pause of a save between its two steps, unless the entry holds a failed read |
| ConfigCache.StalenessBoundIsExact | src/services/server-config.ts:14-50 | over all runs of successful reads, ten seconds plus the longest pause of a save is the least bound that holds |
| ConfigCache.TenSecondsIffNoPause | src/services/server-config.ts:14-50 | so ten seconds bound staleness iff saves do not pause |
| ConfigCache.ChangeReachesEveryIsolate | src/services/server-config.ts:17-34 | once the row has rested that long every hit serves the current value |
| ConfigCache.SlowSaveServesReplacedValue | src/services/server-config.ts:36-44 | for every pause there is a run in which a replaced value is still served that long, and almost ten seconds, after it left the row |
| ConfigSchema.ApplyOverrides | src/config-schema.ts:568-575 | whatever order the stored overrides come in, the result is the configuration with each known field applied once |
| ConfigSchema.DiffOverrides | src/config-schema.ts:582-596 | exactly the posted known fields whose parsed value differs from the environment's normalised value are stored, so no stored override repeats it |
| ConfigSchema.ItemsReadBack | src/config-schema.ts:77-96 | parsing undoes joining exactly for lists of trimmed, lower-case, non-blank items |
| ConfigSchema.NormalIffFixed | src/config-schema.ts:39-500 | a setting is in normal form iff applying its own shown value keeps it, for every kind of field |
| ConfigSchema.LoadedIsNormal | src/config.ts:78-149 | every setting is loaded in normal form, except a lower-case text whose variable is set and empty |
| ConfigSchema.FlagIsRead | src/config.ts:6-7 | a flag is on iff its variable is "true" or "1", or unset or blank with the flag on by default |
| ConfigSchema.MailFlagIsRead | src/config.ts:78-149 | the two mail flags follow whether mail is configured |
| ConfigSchema.NumberIsRead | src/config.ts:78-149 | a number falls back to its default when its variable is unset, blank or no number |
| ConfigSchema.SavedMeansPosted | src/config-schema.ts:557-602 | storing the differences means the same as applying every posted field iff no posted value that equals the environment's falls on a setting outside normal form |
| ConfigSchema.SavedFormTakesEffect | src/api/admin.ts:167-175 | for every environment and form, saving takes effect as posted iff no such text is posted blank over a variable set to the empty text |
| ConfigSchema.PostedTextTakesEffect | src/config-schema.ts:548-602 | field by field, what was typed into the form is what the settings then show |
| ConfigSchema.UnpostedFieldsStay | src/config-schema.ts:582-596 | fields that are not posted keep their environment's setting |
| ConfigSchema.SavedSettingsTakeEffect | src/config-schema.ts:121-130 | for the server's own settings, the one exception is org_creation_users |
| ConfigSchema.SavingUneditedKeepsConfig | src/config-schema.ts:568-596 | saving the settings page unedited keeps the configuration in force, whatever is stored |
| DateTime.FieldsAreExact | src/db/datetime.ts:13-16 | the calendar fields of a time denote that time |
| DateTime.StoredOrderIsTimeOrder | src/db/datetime.ts:13-16 | in years 0000 to 9999 the text order of stored timestamps is the order of the times (section 5.1 of RFC 3339) |
| DateTime.OrderHoldsIffFourDigits | src/db/datetime.ts:13-16 | a time in the years 0000 to 9999 is ordered rightly against a later one iff the year of that has four digits |
| DateTime.OrderHoldsIff | src/db/datetime.ts:13-16 | for all times a Date can hold: an earlier time sorts first iff the later one has a four-digit year, or their seconds differ and both are after 9999 or in one year |
| DateTime.StoredTimeReadsBack | src/db/datetime.ts:13-23 | a stored timestamp is read back to the millisecond |
| DateTime.IsoReadsBack | src/db/datetime.ts:19-23 | so is an ISO text |
| DateTime.CutOffIsByTime | src/jobs/scheduled.ts:30-49 | a purge below a cut-off text takes exactly the rows older than the cut-off |
| Frames.WithVarintLength | src/services/notify.ts:21-34 | the do/while loop and the buffer writes give the base-128 length followed by the body |
| Frames.LengthBytes | src/services/notify.ts:22-29 | the loop ends and yields the base-128 code, low group first |
| Frames.VarintIsMinimal | src/services/notify.ts:22-29 | no shorter code of the length exists |
| Frames.FrameIsReadBack | src/services/notify.ts:21-34 | a decoder recovers body and remainder from a frame followed by anything |
| Frames.FramesAreUniquelyDecodable | src/services/notify.ts:21-34 | two lists of bodies with the same concatenated frames are the same list |
| Frames.StreamIsReadBack | src/services/notify.ts:21-34 | any concatenation of frames decodes to its list of bodies |
| Frames.ReadBackIffEncodable | src/services/notify.ts:21-34 | a frame is read back iff the body is shorter than 2^32 |
| Frames.PingFrame | src/durable/notifications-hub.ts:69-86 | a stream begins with the bytes of the ping frame iff its first frame is a ping |
| AccessIds.SendAccessId | src/services/vault.ts:455-461 | the byte loop and the encoding give the base64url text of the UUID's bytes |
| AccessIds.AccessIdReadsBack | src/services/vault.ts:469-474 | every Send is found under its own access id |
| AccessIds.AccessIdsAreDistinct | src/services/vault.ts:455-461 | no two Sends share an access id |
| AccessIds.AccessIdIsUrlSafe | src/services/vault.ts:455-461 | an access id is twenty-two characters of the URL-safe alphabet |
| AccessIds.LookupIffAccessId | src/services/vault.ts:469-474 | an access id finds a Send iff its canonical spelling, without spare bits, is that Send's access id |

## Left out

* HTTP routing, headers, JSON shapes, mail, push, event logs, the icon download and the admin views.
* Password hashing, JWT, WebAuthn, Duo, YubiCloud and OIDC: codes, tokens and the verdicts on them are parameters.
* Concurrency inside a handler: each handler is one atomic step and KV is sequential, as the source treats it; the configuration cache is the exception.
* Account deletion in the last-Owner invariant: it cascades into memberships without an Owner check, so it is excluded from the runs and `OrgInvariants.AccountDeletionKeepsOwnersIff` says when it is harmless.
* The parts of the vault snapshot that access does not read: favourites, folders, attachments.
* The rest of `updateCipherFromData`: the last-known revision date, note sizes, attachments and cipher data.
* The group part of the directory import, `replaceMemberGroups` and `upsertGroup`; the rows they write are inputs of the access properties.
* Ids made by the server are assumed fresh: an event that repeats one is refused.
* The feature switch of emergency access, the scheduled jobs other than their cut-offs (weekly and every fifteen minutes) and the reminder mails.
* `checkAdminLoginRateLimit`, the same code under another key.
* `passwordLogin` runs the address limiter before the account limiter; the two are modelled separately, since neither reads the other's keys. A disabled account neither passes nor records a failure.
* `displaySize`, negative zero and numbers too large for a double: a numeral whose value rounds or overflows stays above every limit it is compared with, so no verdict changes.
* Lower case outside ASCII: letters other than the Kelvin sign map to themselves. In the host filter this changes no verdict, since such a host is refused either way; in the comma lists and in org_creation_users the original also lowers other alphabets.
- EmergencyAccess.EmergencyServer.ViewVault: stands for takeover and password as well, whose checks are the same valid-request test and are events of the protocol, without the password change itself.
- EmergencyAccess.RowsChangeByRule: the type and waiting time of a request are whole numbers; the source also takes what `Number()` makes of other values.
- AccessIds.LookupIffAccessId: the treatment of characters outside the base64 alphabet belongs to the runtime's decoder and is a parameter.
- ConfigSchema.ApplyOverrides: stored overrides have the type of their field, which is what `ConfigSchema.DiffOverrides`, their only writer, stores; a row edited by hand could hold others.
- TwoFactor.StepsAreUsedOnce: speaks of one authenticator row; without a row (activation) the source makes no replay check, and activating again replaces the row.
- ConfigSchema.DiffOverrides: `Number()` of a text and `String()` of arrays and objects are parameters.
