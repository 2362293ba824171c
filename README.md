# pentahotools user, role and Carte helpers in Dafny

This project models the parts of pentahotools that work out which users and
roles a Pentaho server should have, and then send the calls that make it so.
It also models two small helpers from the Carte client.

- **Batch importer** (`src/pentahotools/batch/importer.go`). This is the user-role importer.
  - It resolves each user and role name case-insensitively against cached listings of the server. It creates unknown users and, when allowed, unknown roles.
  - It assigns missing roles and removes the roles a row does not name. It never removes `Authenticated`, and refuses to take `Administrator` from `admin`.
  - Finally, it can sweep away every user the file did not mention, optionally with their home folders.
- **Validation client** (`src/pentahotools/batch/client.go`). This is the read-only client used for a dry run. It forwards reads and answers every write with success, without sending it.
- **Directory client** (`client/userroledao.go`). It sends every call to the server, except a deletion of no users, which it turns down without sending anything.
- **Batch commands** (`batch/batch.go`).
  - The user-file reader, which trims cells, splits roles on `:` and skips rows without a name.
  - User export.
  - Deletion of a list of users.
  - The two-pass import: a validation pass through the read-only client, then the real pass. A failed row blocks the sweep.
- **Older commands** (`cmd/batchuserrole.go`). CreateUsersInFile takes the user and role listings once, before the loop. After that it only logs failures. DeleteUsersInFile deletes the users a file names.
- **Permission editor** (`cmd/roles.go`).
  - The table of seven permissions, with lookups by short name and by logical name.
  - Finding a role in the server's logical role map.
  - Setting a role's permissions, and adding or removing some of them.
- **IndentWriter** (`src/pentahotools/client/indent_writer.go`), with the text it has written so far as part of its state.
- **ParseIDAndName** (`src/pentahotools/client/carte_util.go`). It tells a Carte job or transformation ID from its name by looking for a lower-case UUID anywhere in the text.

## How it is modelled

The Pentaho server is a value.

- `Directory.World` holds the users, their roles, the passwords, the calls received so far, and the set of calls the server refuses.
- `Directory.Serve` answers one call.
- The class `Directory.Directory` is the mutable server that the imperative code talks to.
- A refused call changes nothing, but it is still recorded.

Each stateful Go routine is a Dafny method on a class or on the server. Each method is proved equal to a state-passing function of the old state, for example `ImporterSpec.Import` or `Batch.Pass`. The properties are lemmas about those functions: what they send, what they change and what they keep. `ImporterLaws` holds the importer's laws.

Go map and set iteration order is unspecified. Where the result depends on it, the order is an extra output of the method, constrained only to list the right set once each. This applies to:
- the users swept by DeleteRemainingUsers;
- the roles removed by CreateUsersInFile;
- `ToSlice` of the permission set.

The model keeps these behaviours of the code exactly as written:
- `Import` sends UpdatePassword with the row's own spelling of the user name, and a failure there aborts the row.
- The sweep reuses the importer's cached user listing. It protects `admin` by its lower-case key.
- The `Administrator` guard compares the resolved user name exactly with `admin`. The assign call has already been sent when the guard fires.
- The older CreateUsersInFile tests its role-creation set with the row's spelling, although that set holds lower-cased names. It decides whether to send UpdatePassword from the login password, not from the row's password.

## Model

| member | source | states |
|---|---|---|
| Strings.Lower | src/pentahotools/batch/importer.go:80 | strings.ToLower keeps the length, lower-cases each ASCII letter and keeps every other character; other letters are not folded (see Left out) |
| Strings.LowerIdempotent | src/pentahotools/batch/importer.go:178-179 | lower-casing twice is lower-casing once |
| Strings.LowerEmpty | src/pentahotools/batch/importer.go:178-181 | only the empty name lower-cases to the empty key |
| Strings.LowerIndex | src/pentahotools/batch/importer.go:165-168 | the listing index has exactly the lower-cased names as keys and maps each key to a listed name with that key |
| Strings.LowerIndexLastWins | src/pentahotools/batch/importer.go:166-168 | when spellings clash, the index keeps the last listed spelling |
| Strings.TrimSpace | batch/batch.go:243 | the trimmed cell is no longer than the cell and neither starts nor ends with white space |
| Strings.TrimSpaceIsSlice | batch/batch.go:243 | the trimmed cell is a slice of the cell with only white space around it |
| Strings.TrimSpaceKeepsTrimmed | batch/batch.go:243-246 | a cell without surrounding white space is unchanged |
| Strings.TrimSpaceIdempotent | batch/batch.go:243-246 | trimming twice is trimming once |
| Strings.Split | batch/batch.go:244 | splitting on ':' gives one more piece than there are separators, and no piece holds one |
| Strings.JoinSplit | batch/batch.go:244 | joining the pieces of a roles cell with ':' gives the cell back |
| Strings.SplitJoin | batch/batch.go:51 | a roles list joined with ':' on export splits back into the same list |
| Directory.Directory.Receive | src/pentahotools/batch/client.go:5-16 | the server's answer and new state are those of Serve on its old state |
| BatchClient.ForValidationOf | src/pentahotools/batch/client.go:52-54 | wrapping keeps the target and forwards exactly the reads the wrapped client forwards |
| BatchClient.ReadsAlwaysForwarded | src/pentahotools/batch/client.go:22-30 | every client forwards the three listings |
| BatchClient.ValidationReadsPassThrough | src/pentahotools/batch/client.go:22-30 | through the validation client, a read is served as the server would serve it |
| BatchClient.ValidationWritesSucceed | src/pentahotools/batch/client.go:31-51 | through the validation client, a write succeeds and the server is untouched |
| BatchClient.ValidationIsReadOnly | src/pentahotools/batch/client.go:18-54 | the validation client never changes the server's state, and fails only on a refused read |
| BatchClient.ValidationRefusesOnlyReads | src/pentahotools/batch/client.go:31-51 | through the validation client only a listing can be refused, since every write is answered with success |
| BatchClient.RewrapIsIdentity | src/pentahotools/batch/client.go:52-54 | wrapping a validation client again changes nothing |
| BatchClient.TransmitFollows | src/pentahotools/batch/client.go:5-16 | a call reaches the server exactly when the client forwards it |
| BatchClient.DirectoryClientRejectsEmptyDeletion | client/userroledao.go:89-95 | the directory client turns down a deletion of no users without sending it, and sends every other call as is |
| BatchClient.Send | src/pentahotools/batch/client.go:18-54 | sending through a client is Transmit on the server's old state |
| Importer.BatchUserRoleImporter.constructor | src/pentahotools/batch/importer.go:13-22 | a new importer has empty caches, strict case, no role creation and no password update |
| Importer.BatchUserRoleImporter.IndexNames | src/pentahotools/batch/importer.go:165-168 | the loop builds exactly the lower-case index of the listing |
| Importer.BatchUserRoleImporter.GetAllUserNames | src/pentahotools/batch/importer.go:159-171 | the user listing is fetched once and then served from the cache |
| Importer.BatchUserRoleImporter.GetAllRoleNames | src/pentahotools/batch/importer.go:195-207 | the role listing is fetched once and then served from the cache |
| Importer.BatchUserRoleImporter.GetFixedUserNameOrCreate | src/pentahotools/batch/importer.go:173-193 | the user name is resolved as ResolveUser says |
| Importer.BatchUserRoleImporter.GetFixedRoleNameOrCreate | src/pentahotools/batch/importer.go:209-232 | the role name is resolved as ResolveRole says |
| Importer.BatchUserRoleImporter.CollectAssigning | src/pentahotools/batch/importer.go:99-116 | the assign loop agrees with AssignLoop |
| Importer.BatchUserRoleImporter.AssignOne | src/pentahotools/batch/importer.go:105-115 | one turn of the assign loop on a non-empty role advances AssignLoop by exactly that role, its resolution error included |
| Importer.BatchUserRoleImporter.Holds | src/pentahotools/batch/importer.go:109-114 | the scan of the current roles answers true exactly when the stored spelling is among them |
| Importer.BatchUserRoleImporter.AnyResolvesTo | src/pentahotools/batch/importer.go:134-142 | the inner loop over the row's roles agrees with MatchesAny |
| Importer.BatchUserRoleImporter.CollectRemoving | src/pentahotools/batch/importer.go:126-149 | the remove loop agrees with RemoveLoop |
| Importer.BatchUserRoleImporter.ReconcileRoles | src/pentahotools/batch/importer.go:98-156 | assigning, then removing, agrees with Reconcile |
| Importer.BatchUserRoleImporter.Import | src/pentahotools/batch/importer.go:79-157 | one row's import agrees with ImporterSpec.Import |
| Importer.BatchUserRoleImporter.ImportResolvedUser | src/pentahotools/batch/importer.go:86-156 | the password update, the listing of current roles and the reconciliation agree with ImportResolved |
| Importer.BatchUserRoleImporter.UsersToDelete | src/pentahotools/batch/importer.go:41-49 | the walk over the index lists each remaining user once, and no other |
| Importer.BatchUserRoleImporter.DeleteRemainingUsers | src/pentahotools/batch/importer.go:35-72 | the sweep agrees with Sweep, for some order of the remaining users |
| Importer.DeleteHomeDirectories | src/pentahotools/batch/importer.go:57-66 | the home-folder loop agrees with DeleteHomes: one deletion per user in order, the refused ones counted |
| ImporterLaws.TransmitSound | src/pentahotools/batch/client.go:5-16 | a single call keeps the caches well formed and appends at most that call to the trace |
| ImporterLaws.AllUserNamesSound | src/pentahotools/batch/importer.go:159-171 | at most the one user listing is sent, the server's state is unchanged, and a successful listing is cached |
| ImporterLaws.AllRoleNamesSound | src/pentahotools/batch/importer.go:195-207 | only role calls are sent, no user's roles or password change, and a successful listing is cached |
| ImporterLaws.ResolveUserSound | src/pentahotools/batch/importer.go:173-193 | resolving a user sends only the user listing and that user's CreateUser, and the caches only grow |
| ImporterLaws.ResolveUserValue | src/pentahotools/batch/importer.go:173-193 | a resolved user name is the cached spelling, matches the row case-insensitively, and is the row's spelling under strict case |
| ImporterLaws.UserSettledIsQuiet | src/pentahotools/batch/importer.go:173-193 | once a user is settled, resolving it again sends nothing |
| ImporterLaws.UserSettledGrows | src/pentahotools/batch/importer.go:173-193 | a settled user stays settled, with the same spelling, as the caches grow |
| ImporterLaws.ResolveRoleSound | src/pentahotools/batch/importer.go:209-232 | resolving a role sends only role calls (CreateRole only with role creation on), changes no user, and the caches only grow |
| ImporterLaws.ResolveRoleValue | src/pentahotools/batch/importer.go:209-232 | a resolved role name is the cached spelling, and the role is settled |
| ImporterLaws.SettledIsQuiet | src/pentahotools/batch/importer.go:209-232 | once a role is settled, resolving it again sends nothing |
| ImporterLaws.SettledGrows | src/pentahotools/batch/importer.go:209-232 | a settled role stays settled, with the same spelling, as the caches grow |
| ImporterLaws.UnknownRoleIsRefused | src/pentahotools/batch/importer.go:217-220 | without role creation, an unknown role fails with "No such role" and nothing is sent |
| ImporterLaws.UnknownUserIsCreated | src/pentahotools/batch/importer.go:180-187 | an unknown user is created with the row's spelling and password, and that spelling is cached |
| ImporterLaws.CaseMismatchedUser | src/pentahotools/batch/importer.go:188-190 | a known user spelt differently fails under strict case, and resolves to the server's spelling otherwise |
| ImporterLaws.AssignLoopSound | src/pentahotools/batch/importer.go:99-116 | the assign loop sends only role calls and keeps the caches sound |
| ImporterLaws.AssignLoopValue | src/pentahotools/batch/importer.go:99-116 | the roles to assign are exactly the resolved non-empty row roles the user lacks |
| ImporterLaws.AssignLoopList | src/pentahotools/batch/importer.go:99-116 | the list to assign is, in row order, the stored spelling of each non-empty row role that the user does not already hold, a role named twice listed twice, as WantedList spells it out |
| ImporterLaws.MatchesAnySound | src/pentahotools/batch/importer.go:134-142 | the inner loop sends only role calls and keeps the caches sound |
| ImporterLaws.MatchesAnyValue | src/pentahotools/batch/importer.go:134-142 | the inner loop answers true exactly when some row role resolves to the current role |
| ImporterLaws.RemoveLoopSound | src/pentahotools/batch/importer.go:126-149 | the remove loop sends only role calls and keeps the caches sound |
| ImporterLaws.RemoveLoopValue | src/pentahotools/batch/importer.go:126-149 | the roles to remove are exactly the current roles, other than Authenticated, that no row role resolves to |
| ImporterLaws.RemoveLoopProtectsAdministrator | src/pentahotools/batch/importer.go:143-147 | for admin, Administrator is never in a successful removal list |
| ImporterLaws.AdministratorStaysWithAdmin | src/pentahotools/batch/importer.go:143-147 | if admin holds Administrator and the removal succeeds, some row role resolves to Administrator |
| ImporterLaws.SendIfAnySound | src/pentahotools/batch/importer.go:118-123 | the assign or remove call is sent only when its list is non-empty |
| ImporterLaws.AssignEffect | src/pentahotools/batch/importer.go:118-123 | a served assign gives the user the union of old and new roles |
| ImporterLaws.RemoveEffect | src/pentahotools/batch/importer.go:150-155 | a served removal takes exactly the listed roles from the user |
| ImporterLaws.RemovePhaseSound | src/pentahotools/batch/importer.go:125-156 | the removal phase sends only role calls for this user and keeps the caches sound |
| ImporterLaws.ReconcileSound | src/pentahotools/batch/importer.go:98-156 | reconciling the roles sends only role calls for this user and keeps the caches sound |
| ImporterLaws.ImportResolvedSound | src/pentahotools/batch/importer.go:86-156 | after the user is resolved, the rest of the import sends only this user's calls |
| ImporterLaws.ImportSound | src/pentahotools/batch/importer.go:79-157 | an import records the user as appeared, keeps the caches sound, and sends only calls about this row: never a deletion, an empty role list or Administrator's removal from admin |
| ImporterLaws.ValidationImportNeverFailsAWrite | src/pentahotools/batch/importer.go:79-157 | through the validation client an import error is never a refused write call, bare or wrapped: only a refused listing or one of the importer's own checks |
| ImporterLaws.QuietAssign | src/pentahotools/batch/importer.go:99-116 | when every row role is settled and held, the assign loop sends nothing |
| ImporterLaws.QuietMatches | src/pentahotools/batch/importer.go:134-142 | with settled roles, the inner loop sends nothing and answers by the cached spellings |
| ImporterLaws.QuietRemove | src/pentahotools/batch/importer.go:126-149 | when every held role is wanted, the remove loop sends nothing |
| ImporterLaws.ConvergedIsQuiet | src/pentahotools/batch/importer.go:98-156 | a user whose roles already match the row gets no role call |
| ImporterLaws.ConvergedAfter | src/pentahotools/batch/importer.go:98-156 | adding the assigned roles and dropping the removed ones leaves the user converged |
| ImporterLaws.ReconcileConverges | src/pentahotools/batch/importer.go:98-156 | a successful reconcile leaves the user's roles converged with the row, and passwords untouched |
| ImporterLaws.ImportResolvedSettles | src/pentahotools/batch/importer.go:86-156 | a successful import of a resolved user leaves it settled and converged |
| ImporterLaws.FirstImportSettles | src/pentahotools/batch/importer.go:79-157 | after a successful import, everything a second import needs to be quiet holds |
| ImporterLaws.SecondImportIsQuiet | src/pentahotools/batch/importer.go:79-157 | importing a settled, converged row changes neither the caches nor the server and sends only reads and the password update |
| ImporterLaws.ReimportChangesNothing | src/pentahotools/batch/importer.go:79-157 | importing the same row twice in a row leaves the second run with no effect beyond the listing and the password update |
| ImporterLaws.RemainingByName | src/pentahotools/batch/importer.go:41-49 | a user is swept exactly when it is listed, did not appear in the file, and is not admin |
| ImporterLaws.ImportedUserIsKept | src/pentahotools/batch/importer.go:41-80 | a user recorded by Import is never among the remaining users |
| ImporterLaws.HomeCalls | src/pentahotools/batch/importer.go:59-61 | one DeleteFiles of /home/<user> per swept user, in order |
| ImporterLaws.DeleteHomesCounts | src/pentahotools/batch/importer.go:57-69 | deleting home folders sends one call per user, counts exactly the refused ones, and leaves the state unchanged |
| ImporterLaws.SweepSound | src/pentahotools/batch/importer.go:35-72 | the sweep keeps the caches sound |
| ImporterLaws.SweepOutcome | src/pentahotools/batch/importer.go:35-72 | the sweep's error cases, the calls it sends, and that it deletes exactly the remaining users |
| Rows.LowerSetIsIndexKeys | batch/batch.go:183-194 | the lower-cased set and the lower-case index have the same keys |
| Rows.LowerSetIgnoresCase | batch/batch.go:183-194 | lists that differ only in case give the same lower-cased set |
| Rows.StringArrayToSetIgnoreCase | batch/batch.go:183-194 | the set holds exactly the lower-cased elements, and the map, when given, gains the lower-case index |
| Rows.Normalize | batch/batch.go:243-250 | a row is skipped exactly when its trimmed name is empty; otherwise it holds the trimmed name, the split trimmed roles cell and the trimmed password |
| Rows.NormalizeRoles | batch/batch.go:244 | a read row has at least one role piece, none holding ':' |
| Rows.EmptyRolesCell | batch/batch.go:244 | an empty roles cell reads as the single empty role |
| Rows.NormalizeIdempotent | batch/batch.go:243-250 | writing a read row back and reading it again gives the same row |
| Rows.ReadAll | batch/batch.go:237-252 | reading all rows yields no more rows than the file has, each with a non-empty name |
| Rows.ReadAllNormalized | batch/batch.go:237-252 | a row is read exactly when some file row normalises to it |
| Rows.ReadAllRoundTrip | batch/batch.go:243-250 | every read row survives being written back and read again |
| Rows.ReadSkips | batch/batch.go:247-249 | a row without a name is skipped |
| Rows.ReadTakes | batch/batch.go:250 | a row with a name is the next row read |
| Rows.UserTable.Open | batch/batch.go:196-223 | a new table will read exactly ReadAll of its rows |
| Rows.UserTable.NewUserTable | batch/batch.go:197-223 | the count is the number of rows a first reader reads, and the table returned reads all of them again |
| Rows.UserTable.Read | batch/batch.go:237-252 | Read returns the next unread row, or nil when none is left |
| Batch.FilterAuthenticated | batch/batch.go:44-50 | the exported roles are the user's roles other than Authenticated |
| Batch.ExportRowsAreListed | batch/batch.go:36-53 | the export writes one row per user whose roles could be listed, and sends only reads |
| Batch.ExportIsReadOnly | batch/batch.go:17-55 | export fails exactly when the user listing is refused, never changes the server, and writes the header and the listed rows |
| Batch.ExportReadBack | batch/batch.go:44-51 | an exported row reads back as that user with its filtered roles |
| Batch.ExportUsers | batch/batch.go:17-55 | the export method agrees with Export |
| Batch.ExportUser | batch/batch.go:36-51 | one user adds the row of that user and its roles without Authenticated, or nothing when its roles cannot be listed |
| Batch.DeletionOutcome | batch/batch.go:57-82 | deletion fails exactly when the list is empty (nothing is sent) or DeleteUsers is refused, and a failure changes nothing; otherwise exactly the listed users are gone and one home-folder call follows per user |
| Batch.DeleteUsers | batch/batch.go:57-82 | the deletion method agrees with Deletion |
| Batch.ImportRows | batch/batch.go:113-132 | there is one outcome per row read |
| Batch.ImportRowsSound | batch/batch.go:113-132 | the row loop sends only calls about the rows, and through the validation client changes nothing |
| Batch.ImportRowsRecorded | batch/batch.go:113-132 | every imported row's user is recorded as appeared |
| Batch.RowCallsDeleteNothing | batch/batch.go:113-132 | the row loop never deletes users or files |
| Batch.FailedRowsBlockTheSweep | batch/batch.go:133-135 | a failed row makes the pass fail without deleting anything |
| Batch.PasswordsNeverEmpty | batch/batch.go:122-126 | with a non-empty default password, no user is created or updated with an empty password |
| Batch.ValidationHomesReadOnly | src/pentahotools/batch/client.go:46-51 | through the validation client, deleting home folders changes nothing |
| Batch.ValidationSweepReadOnly | src/pentahotools/batch/client.go:18-54 | through the validation client, the sweep never changes the server's state |
| Batch.ValidationPassReadOnly | batch/batch.go:86-91 | the validation pass never changes the server's state |
| Batch.ValidationRowsNeverFailAWrite | batch/batch.go:113-132 | through the validation client no row outcome is a refused write |
| Batch.ValidationPassNeverFailsAWrite | batch/batch.go:86-91 | the validation pass never fails because a write was refused, so a validation failure is never a write the server would have refused |
| Batch.ValidationGuardsImport | batch/batch.go:84-95 | a failed validation stops the import with "Validation failure" and an untouched server; otherwise the real pass decides the result |
| Batch.SweepDeletesOnlyRemaining | src/pentahotools/batch/importer.go:41-53 | the sweep deletes only users that did not appear in the file and are not admin |
| Batch.SweepSparesRows | batch/batch.go:136-139 | the sweep never deletes a user named by a row |
| Batch.RowsAreNeverDeleted | batch/batch.go:98-140 | a whole pass never deletes a user named in the file |
| Batch.ImportEachRow | batch/batch.go:113-132 | the row loop agrees with ImportRows, and reports an error exactly when some row failed |
| Batch.ImportFromTable | batch/batch.go:115-130 | one read-and-import step consumes exactly one row, or reports the end of the file, and keeps the run in step with ImportRows |
| Batch.ImportPass | batch/batch.go:97-140 | one pass agrees with Pass |
| Batch.ImportUsers | batch/batch.go:84-95 | the two passes agree with ImportAll |
| BatchUserRoleCommands.RoleCreations | cmd/batchuserrole.go:120-126 | CreateRole is sent exactly for the row roles whose spelling is not in the role set |
| BatchUserRoleCommands.Assigning | cmd/batchuserrole.go:127-129 | the roles to assign are exactly the row roles whose lower-cased name the user lacks |
| BatchUserRoleCommands.CreateRolesFollows | cmd/batchuserrole.go:120-126 | the role loop sends exactly RoleCreations |
| BatchUserRoleCommands.CreateRowTrace | cmd/batchuserrole.go:86-153 | one row sends exactly RowTrace |
| BatchUserRoleCommands.RefusedListingSkipsRow | cmd/batchuserrole.go:93-97 | a refused role listing skips the row after that one call |
| BatchUserRoleCommands.ExistingUserPassword | cmd/batchuserrole.go:100-106 | an existing user gets UpdatePassword exactly when the login password is non-empty, and is not created |
| BatchUserRoleCommands.NewUserIsCreated | cmd/batchuserrole.go:107-116 | a new user is created with the row's password, or the login password when that is empty |
| BatchUserRoleCommands.RoleCreationIsCaseSensitive | cmd/batchuserrole.go:121 | a role is created exactly when its row spelling is missing from the role set |
| BatchUserRoleCommands.AssignAndRemoveLists | cmd/batchuserrole.go:118-150 | the assign and remove calls carry exactly the missing and the unlisted roles, each sent only when non-empty |
| BatchUserRoleCommands.CreateUsersFailsOnlyOnListings | cmd/batchuserrole.go:67-77 | the command fails exactly when one of the two initial listings is refused |
| BatchUserRoleCommands.ListingIsTakenOnce | cmd/batchuserrole.go:69-116 | two rows naming the same new user both send CreateUser, because the listing is not refreshed |
| BatchUserRoleCommands.SendPassword | cmd/batchuserrole.go:100-116 | the password step sends exactly PasswordCalls |
| BatchUserRoleCommands.CreateRoleUnlessStandard | cmd/batchuserrole.go:121-126 | one role's creation agrees with CreateRoles |
| BatchUserRoleCommands.CreateRowRoles | cmd/batchuserrole.go:119-130 | the role loop creates as CreateRoles says and collects Assigning |
| BatchUserRoleCommands.CollectRemovable | cmd/batchuserrole.go:138-144 | the removal list enumerates the held roles the row does not list, other than authenticated |
| BatchUserRoleCommands.CreateUserOfRow | cmd/batchuserrole.go:86-153 | one row agrees with CreateRow, for some order of the removal list |
| BatchUserRoleCommands.CreateNextRow | cmd/batchuserrole.go:86-153 | one more row extends the run by CreateRow |
| BatchUserRoleCommands.CreateFromTable | cmd/batchuserrole.go:86-153 | one turn of the row loop reads exactly one row and extends the run by CreateRow, or reports the end of the file and sends nothing |
| BatchUserRoleCommands.CreateRows | cmd/batchuserrole.go:86-153 | the row loop agrees with CreateAll over the unread rows |
| BatchUserRoleCommands.CreateUsersInFile | cmd/batchuserrole.go:67-155 | the command agrees with CreateUsers over the rows of the file |
| BatchUserRoleCommands.Names | cmd/batchuserrole.go:25-32 | the names collected are the rows' names, in order |
| BatchUserRoleCommands.FileNames | cmd/batchuserrole.go:25-32 | a name is collected exactly when it is non-empty and some row's trimmed name cell equals it |
| BatchUserRoleCommands.ReadNames | cmd/batchuserrole.go:26-32 | the read loop collects the names of the unread rows |
| BatchUserRoleCommands.DeleteUsersInFile | cmd/batchuserrole.go:18-37 | deleting the users of a file agrees with Deletion of their names |
| BatchUserRoleCommands.DeleteUsers | cmd/batchuserrole.go:40-64 | deleting a list of users agrees with Deletion |
| Roles.NameFromFinds | cmd/roles.go:103-110 | the lookup by name finds a permission exactly when one has that name |
| Roles.LogicalNameFromFinds | cmd/roles.go:94-101 | the lookup by logical name finds a permission exactly when one has that logical name |
| Roles.PermissionTableComplete | cmd/roles.go:68-76 | the table lists every permission once |
| Roles.NamesIdentify | cmd/roles.go:48-66 | no two permissions share a name or a logical name |
| Roles.LookupsSound | cmd/roles.go:94-110 | a found permission has the name that was looked up |
| Roles.PermissionLookupsRoundTrip | cmd/roles.go:94-110 | each permission is found again by its name and by its logical name |
| Roles.NameToLogicalNameRoundTrip | cmd/roles.go:103-110 | a name is unknown exactly when no permission has it, and a known name's logical name leads back to it |
| Roles.AvailablePermissionNames | cmd/roles.go:86-92 | the available names are the table's names, in table order |
| Roles.AvailableNamesAreKnown | cmd/roles.go:86-110 | a name is available exactly when the lookup by name finds it |
| Roles.NewRole | cmd/roles.go:112-126 | a role has the assignment's name, is immutable exactly for "true", and has one permission per logical name |
| Roles.NewRoleHolds | cmd/roles.go:112-126 | a role's permissions have exactly the assignment's logical names |
| Roles.NewRoles | cmd/roles.go:134-137 | one role per assignment, in order |
| Roles.AllRoles | cmd/roles.go:129-139 | FindAllRoles fails exactly when the listing fails, and otherwise gives one role per assignment |
| Roles.FirstMatch | cmd/roles.go:147-151 | the search stops at the first assignment whose name matches case-insensitively |
| Roles.FindRoleFirstMatch | cmd/roles.go:142-153 | FindRole fails exactly when the listing fails, finds nothing exactly when no name matches, and otherwise gives the first match |
| Roles.RoleService.ListPermissionsForRoles | cmd/roles.go:130-133 | the listing is the server's role map, or a failure when refused |
| Roles.RoleService.AssignPermissionsToRole | cmd/roles.go:165 | the grant is recorded, and a refusal is reported |
| Roles.LogicalNames | cmd/roles.go:157-164 | the names translate exactly when all are known, into their logical names in order |
| Roles.LogicalNamesFirstUnknown | cmd/roles.go:158-162 | the error names the first unknown name |
| Roles.LogicalNamesAllKnown | cmd/roles.go:157-164 | known names translate to their logical names, in order |
| Roles.SetPermissionsSendsOnce | cmd/roles.go:156-166 | nothing is sent exactly when a name is unknown; otherwise one grant with the translated names |
| Roles.SetPermissionsOfRole | cmd/roles.go:156-166 | the method agrees with SetPermissions |
| Roles.Edit | cmd/roles.go:193-209 | each error is an unknown name, a permission already held when adding, or one lacking when removing |
| Roles.EditOutcome | cmd/roles.go:189-209 | the edit succeeds exactly when every name is known and each add or removal is allowed in turn; the result is the held set plus or minus the named permissions |
| Roles.AddOrRemoveOutcome | cmd/roles.go:178-215 | the server is untouched exactly when the listing, the role, its immutability or the edit fails; otherwise one grant carries the edited set, each name once |
| Roles.HeldSet | cmd/roles.go:189-192 | the set built holds the role's logical names |
| Roles.ApplyEdits | cmd/roles.go:193-209 | the edit loop agrees with Edit |
| Roles.ToSlice | cmd/roles.go:210-213 | the slice lists each element of the set once |
| Roles.AddOrRemovePermissions | cmd/roles.go:178-215 | the method agrees with AddOrRemove, for some order of the edited set |
| Roles.AddPermissionsToRole | cmd/roles.go:169-171 | adding is AddOrRemove with add set |
| Roles.RemovePermissionsFromRole | cmd/roles.go:174-176 | removing is AddOrRemove with add clear |
| IndentWriters.IncrementLevelOf | src/pentahotools/client/indent_writer.go:19-21 | prepending two spaces to the level-k indent gives the level-k+1 indent |
| IndentWriters.DecrementLevelOf | src/pentahotools/client/indent_writer.go:23-29 | dropping two characters gives the previous level, and level 0 stays empty |
| IndentWriters.DecrementUndoesIncrement | src/pentahotools/client/indent_writer.go:19-29 | DecrementLevel after IncrementLevel restores the indent |
| IndentWriters.LinesNewlines | src/pentahotools/client/indent_writer.go:35-44 | printing newline-free lines writes one newline per line |
| IndentWriters.MultilineLineCount | src/pentahotools/client/indent_writer.go:40-44 | PrintMultiline writes one line more than the text has newlines |
| IndentWriters.MultilineAtTopLevel | src/pentahotools/client/indent_writer.go:40-44 | at level 0, PrintMultiline writes the text itself followed by a newline |
| IndentWriters.IndentWriter.constructor | src/pentahotools/client/indent_writer.go:15-17 | a new writer is at level 0 with an empty indent and nothing written |
| IndentWriters.IndentWriter.IncrementLevel | src/pentahotools/client/indent_writer.go:19-21 | the indent gains two leading spaces and the level goes up by one |
| IndentWriters.IndentWriter.DecrementLevel | src/pentahotools/client/indent_writer.go:23-29 | the indent loses two characters and the level goes down by one, never below 0 |
| IndentWriters.IndentWriter.Println | src/pentahotools/client/indent_writer.go:35-38 | the indent, the value and a newline are written |
| IndentWriters.IndentWriter.PrintMultiline | src/pentahotools/client/indent_writer.go:40-44 | each piece between newlines is written as its own indented line |
| IndentWriters.IndentWriter.Printf | src/pentahotools/client/indent_writer.go:46-49 | the indent is written once, before the formatted text |
| CarteUtil.MatchesFromFinds | src/pentahotools/client/carte_util.go:13 | the scan finds a match exactly when the UUID pattern occurs from that position on |
| CarteUtil.ParseIDAndName | src/pentahotools/client/carte_util.go:12-18 | text containing a lower-case UUID is the ID; any other text is the name |
| CarteUtil.ParsePartition | src/pentahotools/client/carte_util.go:12-18 | ID and name put together give the text back, at most one is non-empty, and the ID is non-empty exactly when a UUID occurs |
| CarteUtil.EmbeddedUuidIsId | src/pentahotools/client/carte_util.go:13-15 | a UUID with any text around it makes the whole text the ID |
| CarteUtil.ShortTextIsName | src/pentahotools/client/carte_util.go:13-17 | text shorter than a UUID, the empty text included, is a name |
| CarteUtil.UpperCaseUuidIsName | src/pentahotools/client/carte_util.go:13-17 | any text of a UUID's length with an upper-case hexadecimal digit at a digit position is a name, because the pattern is lower-case only |
| CarteUtil.DigitOnlyUuidIsId | src/pentahotools/client/carte_util.go:13-17 | a UUID shape whose digit positions hold only decimal digits is an ID: no letter is needed |

## Left out

- HTTP transport, JSON and XML decoding, and the server's own behaviour beyond the role and user effects in `Directory.Effect`. The server is a value, and a refused call is a member of `World.failing`. That set is fixed for a world: a call refused once is refused every time, and a call accepted once is accepted every time, so a server whose answers change between two identical calls is not modelled.
- Strings.Lower: folds only the ASCII letters A to Z; Go's strings.ToLower also lower-cases every other Unicode letter (such as "Ä"), so names that differ only in the case of a non-ASCII letter get different keys here and the same key in Go.
- Reading CSV and Excel files. The table reader is replaced by the sequence of raw rows after the header rows. The header-row option and "reading file failed" are not modelled.
- The progress bar, all logging, and the texts of logged warnings.
- Export writes its rows to a returned list, not to a file.
- Go map and set iteration order. It is a free output of the methods concerned, constrained to list the right set once each.
- Error message texts. Errors are the constructors of `Errors.Error`, and the list of available names in unknownPermissionError is not part of the error value.
- Role.Print and Permission.String, which only format output.
- Roles.RoleService.AssignPermissionsToRole: what the server does with a grant is not modelled. The grant is only recorded, so a later FindRole in the model still sees the old map.
- Roles.NewRole: requires every logical name of the assignment to be in the table. The code would dereference a nil permission and crash on an unknown one. FindRole, AllRoles and AddOrRemovePermissions carry the same precondition.
- IndentWriters.IndentWriter.Println: takes a string. Println of other values and the formatting of Printf's arguments are not modelled; Printf takes its already formatted text. A failing writer is not modelled.
- The global Client of cmd and its login password. The older commands take the directory and the login password as parameters. The package-level password and Client.Password are one value, because both come from the same flag.
- The older user table of `cmd/batchuserrole.go` reads its cells the same way as the one in `batch/batch.go`, so both are `Rows.UserTable`. The older one lower-cases the roles set without keeping an index, which `Rows.StringArrayToSetIgnoreCase` covers with no map.
- listRolesForUser, listExistingUsers and listExistingRoles of `batch/batch.go` are not called by the modelled code and are not modelled.
- decodeLoggingString (base64 and gzip), time parsing and DownloadHelper are not part of this model.
- Concurrency: nothing runs between the validation pass and the real pass. A change to the server between them is not modelled.
