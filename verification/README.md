# Verified models of Warehouse's stateful core

Dafny models of the parts of Warehouse (the software behind PyPI) whose guarantees span several
functions or many requests, and proofs of those guarantees. `dafny verify dfyconfig.toml` checks all of it.

Where the code updates records, rows or dictionaries in place, the model does too: classes whose methods
are proved against a function of the old state (`Snapshot()`), with theorems about that function over
whole runs beside them.

| component | files |
|---|---|
| Login confirmation, two-factor tokens, unrecognized-login mail | `LoginProtocol`, `LoginTheorems`, `LoginOutcomes`, `LoginLinks`, `LoginService`, `LoginWitness` |
| Recovery codes | `RecoveryCodes` |
| Session store, and login, logout and revocation as its clients | `Sessions`, `SessionClients`, `SessionRotation`, `SessionLife`, `SessionObjects` |
| Domain checks and terms-of-service notices, in batches | `DomainChecks`, `TermsOfService` |
| Uploads: release and file tables, version ranks, member paths | `UploadRegistry`, `UploadOutcomes`, `UploadService`, `Releases`, `MemberPaths` |
| Search filter tree | `FilterTree` |
| Provenance counts and comparison | `Provenance` |
| Content security policy | `Csp` |
| JSON text validation | `JsonUnicode` |
| Account export | `UserExport`, `ExportSections`, `IsoTime` |
| Shared | `Common`, `Text` |

## Assumptions

- Time is an argument, one reading per request, and does not run backwards between requests. Instants are
  microseconds; signed tokens carry whole seconds and their age is compared in whole seconds.
- Tables are maps and sequences; each request is one transaction. Queries without a total order may return
  any answer their clauses allow, and the results hold for all of them.
- Random identifiers and codes were never drawn before. A signed token or cookie that verifies is one that was
  issued. A password hash verifies exactly the text that was hashed.
- What comes from code outside the model is an input: the verdict of the one-time-password and WebAuthn
  libraries, of archive and metadata checks, a domain's status, parsed versions, canonical names, digests.

## What the proofs show about the code

- The comment at `warehouse/accounts/services.py:873-874` says that mail is sent again on every unconfirmed attempt
  so that nobody is stranded. The throttle is keyed on address and subject only, so another device's attempt can suppress a
  mail; the promise still holds as long as the device's window was mailed, when it opened, to the address the account
  has now. It can fail when the window was opened while the account had another primary address, or none: a later
  attempt inside that window can be throttled, and no link that works ever went to the present address
  (`AnotherDeviceTripsTheThrottle`, for both). Changing the primary address is an ordinary step
  (`warehouse/manage/views/__init__.py:204-232`). `AttemptLeavesLinkIff` gives the exact condition for every
  reachable state, in terms of the tables, the mails queued and the clock; `NobodyIsStranded` gives the promise for every
  user whose address is set and was not changed while the window was open.
- `confirm_login` never checks that the token's user owns the login it names. It need not: that is an
  invariant of every run (`ConfirmIsALogin`).
- A two-factor token logs in at most once only if the clock passes its own stamp: a login in the very microsecond
  of the stamp leaves it alive (`TokenLogsInOnce`, `TokenSurvivesItsLoginIff`, `TokenLogsInTwiceAtItsStamp`).
- The session stores the user's identifier as text while the login form hands over a UUID, so the two are never
  equal and such a login always starts the session afresh (`TextNeverMatchesUuid`).
- An empty upload has no chunk, so neither size limit is looked at (`BufferContent`).
- `CSPPolicy.merge` removes one 'none' only; the exact inputs on which that is enough are in `MergeDisciplinedIff`.

## Model

| member | source | states |
|---|---|---|
| RecoveryCodes.RecoveryCodeTable.GenerateRecoveryCodes | warehouse/accounts/services.py:690-702 | Adds the hashed codes; the old rows go exactly when one of them is unburned, otherwise they stay as burned rows |
| RecoveryCodes.RecoveryCodeTable.GetRecoveryCode | warehouse/accounts/services.py:481-502 | Finds the first row the code verifies against, and nothing when the hasher refuses the input |
| RecoveryCodes.RecoveryCodeTable.CheckRecoveryCode | warehouse/accounts/services.py:704-726 | Answers no codes, invalid, burned or accepted in that order of precedence; only acceptance writes, and it burns exactly the row found |
| RecoveryCodeRuns.StepKeepsInv | warehouse/accounts/services.py:690-726 | Generate and check both keep: hashes distinct, a row burned exactly when its plaintext was accepted, unburned rows belong to the latest batch, unburned count = 8 minus acceptances since |
| RecoveryCodeRuns.CodesAreSingleUse | warehouse/accounts/services.py:704-726 | Over every run no plaintext is accepted twice, and unburned codes are eight minus the acceptances since the latest generate |
| RecoveryCodeRuns.GenerateLeavesEight | warehouse/accounts/services.py:690-702 | In every reachable state, generate leaves exactly eight unburned codes, whether it deleted the old rows or kept them |
| RecoveryCodeRuns.AcceptedIffCurrentAndUnused | warehouse/accounts/services.py:481-502 | In every reachable state a check succeeds if and only if the hasher takes the input, the code is of the latest batch, and it was not accepted before |
| RecoveryCodeRuns.EarlierBatchesAreDead | warehouse/accounts/services.py:693-694 | After a generate, no code issued before it is accepted at any later point of any run |
| RecoveryCodeRuns.RefusalsSayWhy | warehouse/accounts/services.py:466-502 | In every reachable state: "no codes" exactly before the first batch, "burned" for a code of the latest batch accepted before, "invalid" for what the hasher refuses and for what was never issued; of an earlier batch only an accepted code may still be called burned |
| RecoveryCodeRuns.GenerateForgets | warehouse/accounts/services.py:693-694 | After a generate every earlier code is invalid, unless all eight of the last batch were used: then the table is kept and each is answered as before |
| Common.OpenWindowKeepsToken | warehouse/accounts/services.py:978-991 | A token stamped in whole seconds when a window opened is still young enough while that microsecond window is open |
| LoginProtocol.FindLogin | warehouse/accounts/services.py:797-804 | The row of a (user, address) pair if there is one; none means there is no such row |
| LoginTheorems.HandleKeepsInv | warehouse/accounts/views.py:1576-1660 | Every request (registration, password, TOTP, WebAuthn, recovery code, confirmation link, account change) keeps: one row per pair, an issued token names a login of its own user, queued mail carries issued tokens stamped when it was queued, every confirmed row and phishable login vouched for |
| LoginTheorems.RunKeepsInv | warehouse/accounts/views.py:1576-1660 | The same invariant over every run of requests |
| LoginTheorems.HandleEffect | warehouse/accounts/views.py:1617-1660 | A request answered "logged in" logs exactly one record that names it and moves the last login to now; any other logs nothing; last logins never decrease and confirmations are never taken back |
| LoginTheorems.ConfirmIsALogin | warehouse/accounts/views.py:1080-1109 | Although the handler never compares them, an accepted link always names a pending login of the token's own user at this address, and confirming it is exactly the login of that user |
| LoginTheorems.PhishableLoginsAreVouchedFor | warehouse/accounts/views.py:1644-1660 | Over every run, each TOTP or recovery-code login is preceded by a login of the same user and address by another method |
| LoginTheorems.KnownDevicesAreLogged | warehouse/accounts/services.py:805-807 | Over every run a device is confirmed if and only if a login of its user from its address by a method other than TOTP and recovery code is on record |
| LoginOutcomes.PasswordAnswer | warehouse/accounts/views.py:311-350 | Over every run a password logs in if and only if the requests made so far enrolled no second factor or the device is remembered; otherwise it is answered with a token of its user stamped with the present second |
| LoginOutcomes.TotpAnswer | warehouse/accounts/views.py:372-428 | Over every run, from the requests, their answers and the records alone: a one-time password gets through if and only if its token is good, TOTP is enrolled, the library accepts the value, and it is not that of the latest TOTP login; it logs in from a known device and asks for a confirmation otherwise |
| LoginOutcomes.WebAuthnAnswer | warehouse/accounts/views.py:476-519 | Over every run a WebAuthn request logs in if and only if its token is good and the assertion verifies |
| LoginOutcomes.RecoveryAnswer | warehouse/accounts/views.py:596-641 | Over every run a recovery code gets through if and only if its token is good, the hasher takes it, it is of the latest batch, and no request got through with it before, logged in or not |
| LoginOutcomes.PasswordRecordsNeedNoFactor | warehouse/accounts/views.py:313-342 | Every record of a login by password alone, in any run, was made by a request at a time when neither TOTP nor WebAuthn was enrolled |
| LoginOutcomes.GoodIffAccepted | warehouse/accounts/views.py:1204-1216 | Over every run a two-factor token is accepted if and only if an earlier password was answered with it, at most 300 seconds ago, and no login of its user is on record after its stamp |
| LoginOutcomes.AccountsFollow | warehouse/accounts/views.py:402-415 | What one request does to an account: enrollment, address, last TOTP value and codes change only as the request and its answer say |
| LoginTheorems.OneLoginPerDevice | warehouse/accounts/views.py:1632-1652 | Over every run there is at most one row per user and address, and at most one e-mail confirmation |
| LoginTheorems.ConfirmedStaysConfirmed | warehouse/accounts/services.py:805-807 | CONFIRMED is absorbing, and the row keeps its user and address |
| LoginTheorems.LinkWorksOnce | warehouse/accounts/views.py:1096-1107 | Once a link confirmed a login, no link for that login, whenever issued and wherever followed, is accepted again |
| LoginLinks.CurrentWindowLinkWorks | warehouse/accounts/services.py:827-836 | While a pending login's window is open, a link mailed in it to the present primary address logs its user in from that device |
| LoginLinks.UsableLinkIff | warehouse/accounts/views.py:1070-1105 | A pending device has a link that works, mailed to the present address, if and only if the queue's history holds a mail to that address, for that login, young enough |
| LoginLinks.FollowLinkAnswer | warehouse/accounts/views.py:1070-1109 | A link is accepted if and only if it was issued, is at most six hours old, and its login is pending and of the address it is followed from |
| LoginLinks.AttemptLeavesLinkIff | warehouse/accounts/services.py:809-886 | An unconfirmed attempt leaves a link that works, mailed to the present primary address, if and only if before it its own mail was not due to be skipped or a still acceptable mail for the same login had gone to that address |
| LoginLinks.AttemptMailsIffDue | warehouse/accounts/services.py:809-886 | An unconfirmed attempt mails exactly one link, to the primary address, for this login, stamped with the present second, if and only if there is an address and the row is new or lapsed, or no delivery to it is on record, or the last is more than 15 minutes old; a new or lapsed row is pending for six hours, any other is left alone |
| LoginLinks.HandleKeepsReached | warehouse/accounts/services.py:805-886 | Every request, of anybody, keeps "the device's open window was mailed to the present address", except a change of that user's address while the window is open |
| LoginLinks.NobodyIsStranded | warehouse/accounts/services.py:805-886 | Over every run: a user who has a primary address, not changed while this device's window was open, and is answered "confirm this device" has a link that works from that device, mailed to that address, whatever other users and devices did |
| LoginWitness.AnotherDeviceTripsTheThrottle | warehouse/email/__init__.py:110-115 | Concrete runs, one for any address or none the account had when the window was opened, other than its present one: the promise at warehouse/accounts/services.py:873-874 fails because another device's mail trips the throttle |
| LoginTheorems.LoginKillsEarlierTokens | warehouse/accounts/views.py:1204-1216 | With the clock advancing, any login kills every two-factor token issued to that user before it, on all paths and for the rest of every run |
| LoginTheorems.TokenLogsInOnce | warehouse/accounts/views.py:1204-1216 | With the clock advancing, after a request with a two-factor token logged in, every later request with it, on any path and after any run, is rejected |
| LoginTheorems.TokenSurvivesItsLoginIff | warehouse/accounts/views.py:1215-1216 | At the instant of the login it made, a token is still accepted if and only if its stamp is that instant |
| LoginWitness.TokenLogsInTwiceAtItsStamp | warehouse/accounts/views.py:1215-1216 | A reachable state in which that happens: the same token logs in twice at the instant of its stamp |
| LoginTheorems.LastLoginNeverDecreases | warehouse/accounts/views.py:1620-1621 | Last logins never move back over any run |
| LoginServices.LoginService.QueryLogin | warehouse/accounts/services.py:797-804 | The query returns the pair's row |
| LoginServices.LoginService.SendEmailToUser | warehouse/email/__init__.py:82-141 | Skips for want of an address, then for an unverified one, then inside the repeat window, in that order; otherwise queues exactly one mail and changes nothing else |
| LoginServices.LoginService.OpenLogin | warehouse/accounts/services.py:810-836 | The pending row an unconfirmed attempt leaves (added, extended or kept) and whether it opened a window |
| LoginServices.LoginService.DeviceIsKnown | warehouse/accounts/services.py:788-886 | Takes the tables to the protocol's next state with the protocol's answer, and keeps the invariant |
| LoginServices.LoginService.LoginUser | warehouse/accounts/views.py:1617-1660 | Last login, log record and the confirmation of the pair's row, none of the latter for phishable methods |
| LoginServices.LoginService.GetTwoFactorData | warehouse/accounts/views.py:1204-1216 | Accepts exactly the issued tokens that are young enough and not older than the user's last login |
| LoginServices.LoginService.Register | warehouse/accounts/views.py:810-832 | Creates the account and logs it in, which confirms the registering device |
| LoginServices.LoginService.Login | warehouse/accounts/views.py:306-350 | Issues a two-factor token or logs in, as the protocol says, keeping the invariant |
| LoginServices.LoginService.TwoFactorAndTotpValidate | warehouse/accounts/views.py:366-431 | Logs in only a known device and stores the value used; an unknown one gets a mail; anything refused changes nothing |
| LoginServices.LoginService.WebauthnAuthenticationValidate | warehouse/accounts/views.py:470-522 | Logs in and confirms the device without asking for mail |
| LoginServices.LoginService.RecoveryCodeValidate | warehouse/accounts/views.py:592-644 | Burns an accepted code even when the device is unknown, and logs in only a known one |
| LoginServices.LoginService.ConfirmLogin | warehouse/accounts/views.py:1049-1120 | Refuses, in order, bad or old tokens, unknown users, missing or confirmed logins, and other addresses; otherwise confirms and logs in |
| Sessions.NextRequestLoadsWhatTheViewLeft | warehouse/sessions.py:286-329 | For any operations of a view, the next request with the resulting cookie loads exactly the map they leave; the stored identifier is never an invalidated one; invalidated records are gone |
| Sessions.ViewKeepsDuring | warehouse/sessions.py:85-133 | The current identifier is never among the invalidated ones, and unchanged sessions hold what was loaded, throughout any view |
| Sessions.ServeKeepsWorldInv | warehouse/sessions.py:247-329 | No two clients ever hold the same identifier, and all identifiers in use were drawn here |
| Sessions.ServeRefines | warehouse/sessions.py:247-329 | One request changes only its own client's map, to what the operations make of it |
| Sessions.SessionsBehaveLikeMaps | warehouse/sessions.py:247-329 | After any interleaving of requests of any clients, each client's next request sees exactly its own plain map |
| SessionClients.TotpSecretIsReusedIff | warehouse/sessions.py:198-215 | A secret is shown again if and only if less than 15 minutes passed since the whole second it was last shown |
| SessionRotation.LoginRotates | warehouse/accounts/views.py:1585-1615 | A login anywhere in a request, with any session operations before and after it: the old record is gone, the cookie is replaced or deleted, a new one names an identifier never in use that stores what the login and the rest of the view leave, and it is deleted only if the view invalidates the session again |
| SessionRotation.LoginOverAnotherUserForgets | warehouse/accounts/views.py:1585-1593 | Two requests with different records and pasts, each with another user attached, that make the same login and go on alike store equal data, of which every key was written by the login or after it |
| SessionRotation.LoginCarriesSessionOver | warehouse/accounts/views.py:1594-1602 | Otherwise every key written neither by the login nor after it is stored, present or absent, as the view had it before the login, and as the old record had it if nothing wrote it |
| SessionClients.LoginWrites | warehouse/accounts/views.py:1610-1680 | Which keys a login writes and with what, and that a terms notice joins the messages carried over |
| SessionClients.TextNeverMatchesUuid | warehouse/accounts/views.py:1585-1588 | A session's user id is text and the database's a UUID: logging in with the latter over an attached session always starts afresh |
| SessionRotation.RevocationRotates | warehouse/accounts/security_policy.py:76-101 | A disabled user or an outdated password, found anywhere in a request: the same rotation, where what is stored starts from the notice alone; the notice is there unless the rest of the view touches its queue; otherwise the session is untouched |
| SessionRotation.LogoutErases | warehouse/accounts/views.py:672-687 | Logout rotates to an empty session; with nothing after it record and cookie are deleted and the next request starts with a new session |
| SessionRotation.RenewingRotates | warehouse/sessions.py:120-130 | Any invalidation in the middle of a request has this effect, whatever is written around it |
| SessionRotation.SameContentsStoreTheSame | warehouse/sessions.py:302-313 | Two requests left with the same contents that go on alike, but for the identifiers they draw, store the same |
| SessionRotation.LoginIsOperations | warehouse/accounts/views.py:1585-1680 | A login is itself a list of session operations, so it may be what follows a revocation in one request |
| SessionLife.LoginLivesUntilPasswordChanges | warehouse/accounts/security_policy.py:76-101 | A login made at one password timestamp and found at any later request of the client, after visits of any clients of which its own leave the timestamp alone, authenticates if and only if the user is not disabled and the timestamp is the same |
| SessionLife.AuthenticatesIff | warehouse/sessions.py:143-151 | A session authenticates if and only if the user is not disabled and it stores no timestamp, null, or the current one |
| SessionLife.ValueStays | warehouse/sessions.py:247-329 | A stored value stays in a client's session until a visit of that client touches its key |
| SessionLife.SessionIsKeptIff | warehouse/accounts/views.py:1585-1602 | What a session holds survives a login if and only if nobody or the very same reference was attached |
| SessionLife.FlashReachesItsQueue | warehouse/sessions.py:160-176 | A message is appended to its own queue, unless a refused duplicate, and to no other |
| SessionLife.NoticeSaysWhy | warehouse/accounts/security_policy.py:78-98 | The one message a revoked identity leaves: suspended, invalidated, or invalidated by a password change |
| SessionObjects.SessionObject.SetItem | warehouse/sessions.py:86 | Assignment marks the session changed |
| SessionObjects.SessionObject.Pop | warehouse/sessions.py:88 | Marks the session changed even when the key is missing, and returns what was there |
| SessionObjects.SessionObject.Update | warehouse/sessions.py:91 | Adds and overrides items, marking the session changed |
| SessionObjects.SessionObject.Clear | warehouse/sessions.py:87 | Empties the session, marking it changed |
| SessionObjects.SessionObject.Invalidate | warehouse/sessions.py:120-130 | Empties the session, forgets it was changed, and moves its identifier, if any, to the invalidated ones |
| SessionObjects.SessionObject.ReadSid | warehouse/sessions.py:111-115 | Draws an identifier on first use only |
| SessionObjects.SessionObject.FlashMessage | warehouse/sessions.py:163-173 | Appends unless a duplicate is refused |
| SessionObjects.SessionObject.PopFlash | warehouse/sessions.py:178-185 | Returns the queue in order and leaves it empty |
| SessionObjects.SessionObject.ReadTotpSecret | warehouse/sessions.py:198-207 | Returns the stored secret while it is valid and a new one otherwise; either way it is valid from now |
| SessionObjects.SessionObject.LoginUser | warehouse/accounts/views.py:1585-1680 | Carries out the login's session steps |
| SessionObjects.SessionObject.LogoutUser | warehouse/accounts/views.py:677-687 | Carries out the logout's session steps |
| SessionObjects.SessionObject.IdentifyUser | warehouse/accounts/security_policy.py:76-101 | Carries out the revocation steps and says whether the session still authenticates |
| SessionObjects.SessionFactory.ProcessRequest | warehouse/sessions.py:247-284 | A missing, forged or unknown cookie gives a new session, any other the stored record |
| SessionObjects.SessionFactory.ProcessResponse | warehouse/sessions.py:286-329 | Deletes all invalidated records, stores a changed session under its identifier, and tells the cookie to stay, go or change |
| DomainChecks.EmailTable.UpdateEmailDomainStatus | warehouse/accounts/utils.py:89-103 | A failed lookup is dated back 23 days and keeps the old status; a successful one is dated now |
| DomainChecks.EmailTable.BatchUpdateEmailDomainStatus | warehouse/accounts/tasks.py:142-164 | Exactly the addresses of the batch are checked, whichever batch the query returns among ties |
| DomainChecks.DueAgainIff | warehouse/accounts/utils.py:95-102 | A checked address is due again if and only if strictly more than 30 days (success) or 7 days (failure) passed |
| DomainChecks.UnservedMovesUp | warehouse/accounts/tasks.py:151-164 | A step that leaves a due address unserved lets nothing but a new address overtake it, and a run of the job moves it up by 1000 |
| DomainChecks.ServedWithinBound | warehouse/accounts/tasks.py:151-164 | A due address with r others at or before its turn, and a more added meanwhile, is served within floor((r+a)/1000)+1 runs of the job |
| DomainChecks.LaterDueNeverAhead | warehouse/accounts/tasks.py:153-159 | An address not due yet is never ahead of one that is |
| DomainChecks.BatchTakesTheOldest | warehouse/accounts/tasks.py:151-161 | On the rows: a batch holds addresses never checked or checked more than 30 days ago; one left out finds a thousand others in it, never checked ones first, then none checked later than it |
| DomainChecks.RecordIsLatestAnswer | warehouse/accounts/utils.py:95-102 | Over every run an address that stays has on record the status of its latest successful lookup, dated by its latest lookup |
| DomainChecks.BatchExists | warehouse/accounts/tasks.py:151-161 | The query the job makes always has an answer of the form assumed |
| TermsOfService.TermsService.NotifyUsersOfTosUpdate | warehouse/accounts/tasks.py:31-59 | Mails the batch and records one notification for each of its users |
| TermsOfService.TermsService.RecordTosEngagement | warehouse/accounts/services.py:767-786 | Adds one engagement dated now |
| TermsOfService.TermsService.NeedsTosFlash | warehouse/accounts/services.py:732-765 | The two queries say: no engagement older than 30 days and none that viewed or agreed |
| TermsOfService.TermsService.FlashOnLogin | warehouse/accounts/views.py:1667-1685 | Flashes exactly when needed, and records it exactly then |
| TermsOfService.NotifiedAtMostOnce | warehouse/accounts/tasks.py:33-59 | Over every run nobody is mailed twice about one revision |
| TermsOfService.PendingIff | warehouse/accounts/tasks.py:33-50 | The query selects whoever is eligible and has no row of the revision that is a notification or an agreement |
| TermsOfService.AgreedIsNeverMailed | warehouse/accounts/tasks.py:39-43 | Over every run, whoever agreed to a revision is never mailed about it afterwards |
| TermsOfService.EveryoneIsNotifiedOnce | warehouse/accounts/tasks.py:46-59 | From any reachable state with n users to notify, k runs of the job in batches of b with k*b >= n + j, where j become eligible meanwhile, leave each user who stays eligible and does not agree mailed exactly once, with any logins, engagements, joins, departures and other revisions in between |
| TermsOfService.RunsDrainPending | warehouse/accounts/tasks.py:46-59 | If nobody joins, k*b >= n leaves nobody to notify, with the other steps in between |
| TermsOfService.FlashesOnlyInGracePeriod | warehouse/accounts/services.py:741-765 | Over every run a banner is flashed at most 30 days after any earlier engagement and never after viewing or agreeing |
| TermsOfService.NoFlashIsFinal | warehouse/accounts/services.py:732-765 | Once no flash is needed none is needed later, whatever engagements are added |
| TermsOfService.FlashIsDueIff | warehouse/accounts/views.py:1667-1685 | A login flashes the banner and records it if and only if every row of the user and revision is at most 30 days old and only a flash or a notification |
| Releases.SortReleases | warehouse/forklift/legacy.py:450-489 | Every release stores its rank in version order, and exactly the releases with a missing or different rank are written |
| Releases.SortByVersion | warehouse/forklift/legacy.py:467-469 | The stable sort orders by version, by primary key on ties, and keeps every release |
| Releases.InsertByVersion | warehouse/forklift/legacy.py:467-469 | One insertion keeps that order and adds exactly one release |
| Releases.WriteRanks | warehouse/forklift/legacy.py:467-489 | The index of each release is stored; untouched are exactly those that had it |
| Releases.IndexIsRank | warehouse/forklift/legacy.py:467-469 | In the sorted listing a release's index is the number of releases before it |
| Releases.RankOrders | warehouse/forklift/legacy.py:467-489 | Ranks are below the number of releases, distinct, and in the order of version then primary key |
| Releases.RankIsOnto | warehouse/forklift/legacy.py:467-489 | Every position below the number of releases is some release's rank |
| Releases.SortTwice | warehouse/forklift/legacy.py:488-489 | Of two calls in a row the second writes no row |
| Releases.SortWithOneMore | warehouse/forklift/legacy.py:467-489 | After one release is added to a sorted project, a sort writes it and exactly the releases that stored its rank or more, each moved by one |
| Releases.AddingShiftsTheTail | warehouse/forklift/legacy.py:467-489 | Adding a release at rank k moves the ranks >= k by exactly one and no other |
| MemberPaths.NonCanonicalMemberPath | warehouse/forklift/legacy.py:501-513 | None if and only if every name, trailing slashes aside, is "." or plain; otherwise the first that is not |
| MemberPaths.CanonicalIffPlain | warehouse/forklift/legacy.py:511-512 | normpath leaves a relative name alone if and only if its segments are non-empty, not ".", and ".." only as a leading run |
| MemberPaths.AcceptedNamesDoNotCollide | warehouse/forklift/legacy.py:506-508 | Two accepted names that differ, trailing slashes aside, never resolve to the same path |
| MemberPaths.DirectoryEntriesPass | warehouse/forklift/legacy.py:511 | A name with a slash appended passes if and only if it passes without |
| MemberPaths.StripTakesTrailingSlashes | warehouse/forklift/legacy.py:511 | Stripping takes all slashes off the end, and nothing else |
| MemberPaths.PlainSpellsPlace | warehouse/forklift/legacy.py:506-508 | The segments of a plain path are the place it leads to, spelled out |
| MemberPaths.NormPathIsIdempotent | warehouse/forklift/legacy.py:511 | Normalizing a normalized path changes nothing, for absolute paths too |
| UploadRegistry.PathDecodes | warehouse/forklift/legacy.py:1708-1715 | The storage path gives back the digest and the filename |
| UploadRegistry.FilesAreUnique | warehouse/forklift/legacy.py:1197-1276 | After any run of uploads: filenames, contents and paths unique, one sdist per release, every path decodes |
| UploadRegistry.ReleasesAreUniqueAndRanked | warehouse/forklift/legacy.py:979-1101 | After any run: one release per project and canonical version, storing distinct ranks in version order |
| UploadRegistry.AnyMatchGivesTheVerdict | warehouse/forklift/legacy.py:431-447 | Whichever matching row `first()` returns, the duplicate verdict is the same |
| UploadRegistry.ResendingChangesNothing | warehouse/forklift/legacy.py:1197-1201 | Sending an accepted file again at any later point of any run changes nothing; past the earlier checks it is answered "already uploaded" |
| UploadRegistry.ReceiveKeepsInv | warehouse/forklift/legacy.py:979-1276 | One upload, accepted or not, keeps all of that |
| UploadOutcomes.UploadAnswerAfterRun | warehouse/forklift/legacy.py:979-1277 | After any run, the answer to an upload on the tables alone, checks in their order: a good name, content accepted, not there already, name and content new, name never used, release new or at most 14 days old, no second sdist, archive accepted; stored if and only if none fails |
| UploadOutcomes.StoredAs | warehouse/forklift/legacy.py:1692-1715 | What a stored upload adds: one file as uploaded, in the release of its project and version, with its digest cut at two and four in the path; a missing release, and no other change to releases but ranks |
| UploadOutcomes.FirstUploadIsStored | warehouse/forklift/legacy.py:1197-1277 | The first good upload to an empty registry is stored |
| UploadOutcomes.ValidIffGood | warehouse/forklift/legacy.py:124-164 | A name passes if and only if it is something followed by .zip or .tar.gz (sdist) or .whl (wheel), without separators and control characters |
| UploadRegistry.FoundRelease | warehouse/forklift/legacy.py:979-1001 | In reachable states the lookup is never ambiguous and gives the release of the upload's project and canonical version |
| UploadServices.BufferContent | warehouse/forklift/legacy.py:1127-1171 | The content is complete if and only if it is empty or fits both limits, and is then the chunks in order; an empty upload is never measured |
| UploadServices.UploadService.IsDuplicateFile | warehouse/forklift/legacy.py:419-447 | True, false or none as the table says |
| UploadServices.UploadService.SortProject | warehouse/forklift/legacy.py:450-489 | Sorts the rows of the project by way of the release objects; rows of other projects and unchanged ranks are not written |
| UploadServices.UploadService.GetRelease | warehouse/forklift/legacy.py:979-1101 | Finds the release or adds one and re-sorts the project |
| UploadServices.UploadService.StoreFile | warehouse/forklift/legacy.py:1197-1277 | The checks in their order, and the new row only if all pass |
| UploadServices.UploadService.FileUpload | warehouse/forklift/legacy.py:979-1277 | The handler in its transaction: anything but success leaves the tables as they were |
| FilterTree.FormFiltersTree | warehouse/views.py:484-498 | In the dictionaries it returns, a path can be looked up name by name if and only if it is a prefix of some list, and the children at its end stand in order of first occurrence |
| FilterTree.GrowTree | warehouse/views.py:492-498 | The dictionaries grown form a tree that no two places share |
| FilterTree.WalkFollowsNodes | warehouse/views.py:484-498 | Looking up names one by one leads exactly to the dictionaries of the tree |
| FilterTree.InsertList | warehouse/views.py:492-497 | Walking one more list gives the tree of the lists with it added |
| FilterTree.Enter | warehouse/views.py:494-497 | One part: the walk moves to the child, which is created if missing |
| FilterTree.AddChild | warehouse/views.py:495-496 | One more empty dictionary at one place; every other place keeps its own |
| FilterTree.EnteringKeepsInserting | warehouse/views.py:494-497 | A child is missing exactly when no earlier list reaches it, so adding it appends a first occurrence |
| FilterTree.NamesBelowAreTheExtensions | warehouse/views.py:484-498 | A name stands below a path if and only if the path extended by it is a prefix of some list, and stands there once |
| FilterTree.NamesBelowGrow | warehouse/views.py:484-498 | More lists never reorder or remove children |
| FilterTree.ReinsertingChangesNothing | warehouse/views.py:495-496 | Inserting a list, or a prefix of one, again changes nothing |
| Provenance.GetProvenanceSources | warehouse/attestations/models.py:311-352 | The sources and workflows of all bundles, or none for an unparsable payload |
| Provenance.CountsFromProvenance | warehouse/attestations/models.py:355-390 | Each count is the number of files that name the thing counted; nothing unnamed is listed |
| Provenance.CountsAreAdditive | warehouse/attestations/models.py:355-390 | Counting two batches and adding is counting their concatenation |
| Provenance.CountsIgnoreOrder | warehouse/attestations/models.py:355-390 | Any order of the files gives equal counts |
| Provenance.CountsAreNested | warehouse/attestations/models.py:371-390 | A workflow's count <= its repository's <= files with sources <= readable files |
| Provenance.WithoutProvenance | warehouse/attestations/models.py:162-190 | Exactly one of none, full and partial holds, and when; a release lost provenance if and only if it has none and the other had some, and then it did not change; without provenance it is neither inconsistent nor changed |
| Provenance.ChangedIff | warehouse/attestations/models.py:176-231 | On the files of two releases: provenance changed if and only if the first attests something or the second nothing, every file can be read, and some source or workflow is named by one only |
| Provenance.InconsistentIff | warehouse/attestations/models.py:173-174 | Provenance is inconsistent if and only if the files name two different sources or two different workflows |
| Provenance.NamedIff | warehouse/attestations/models.py:252-308 | Which publishers make a file name a source or a workflow |
| Provenance.ChangeIsSymmetric | warehouse/attestations/models.py:182-231 | What one release added over another the other removed, and two releases with provenance agree on whether it changed |
| Csp.CSPPolicy.MergePolicy | warehouse/csp.py:71-79 | The in-place merge, in whatever order the directives are visited |
| Csp.MergedSources | warehouse/csp.py:71-79 | For disciplined lists: the other sources of both in order, or 'none' if that is all there was |
| Csp.MergeDisciplinedIff | warehouse/csp.py:75-79 | For any lists, 'none' stands alone or not at all afterwards if and only if there was at most one, or just two of them |
| Csp.MergeKeepsDiscipline | warehouse/csp.py:71-79 | Merging keeps "no 'none', or exactly 'none'" (section 2.3.1 of CSP Level 3) |
| Csp.MergeIsAssociative | warehouse/csp.py:71-79 | Merging one after the other is merging the combination |
| Csp.MergeAllAtOnce | warehouse/csp.py:71-79 | The same for any number of policies |
| Csp.SerializedPolicyParsesBack | warehouse/csp.py:14-20 | Parsing the header (section 2.2.1 of CSP Level 3) gives the policy back minus the holes: every directive, no other, sources in order, whichever order the directives are written in |
| Csp.ListingExists | warehouse/csp.py:18 | Every policy has such a listing of its directives |
| JsonUnicode.ValidateJsonUnicode | warehouse/api/config.py:32-45 | Terminates, and accepts if and only if no string at any depth, key or value, holds a surrogate |
| IsoTime.TextOrderIsChronological | warehouse/admin/user_export.py:1019-1021 | Comparing ISO 8601 UTC texts compares times, with and without a fraction |
| UserExport.CappedTotal | warehouse/admin/user_export.py:314-324 | The true total, and truncated if and only if it exceeds the limit |
| UserExport.TimelineSection | warehouse/admin/user_export.py:807-1033 | Every row of every page exactly once, in chronological order; their number is the sum of min(limit, count); true totals and flags per source |
| UserExport.CapKeepsTheMostRecent | warehouse/admin/user_export.py:811-814 | No dropped row is later than a kept one |
| UserExport.CollectTombstones | warehouse/admin/user_export.py:526-530 | Reading the names back to front gives, for each canonical name, the tombstone the rows say |
| UserExport.TombstonesGroupSpellings | warehouse/admin/user_export.py:520-530 | A tombstone holds exactly the fetched spellings of its name, and the name and date of a row no older than any of them |
| UserExport.DeletedProjects | warehouse/admin/user_export.py:532-556 | Reported are exactly the fetched canonical names without a live project, each with its tombstone |
| UserExport.ReportedWithLatestRow | warehouse/admin/user_export.py:520-556 | So a fetched name is reported if and only if it is not live, with every fetched spelling and with the name and date of a fetched row no older than any of them |
| UserExport.TombstoneIff | warehouse/admin/user_export.py:526-530 | A canonical name has a tombstone if and only if a row with that name was fetched |
| ExportSections.ProjectSections | warehouse/admin/user_export.py:464-502 | Every touched project is in exactly one section: with a role or invitation, or with uploads only; its summary is that of its own uploads in order |
| ExportSections.SummaryNamesBothEnds | warehouse/admin/user_export.py:347-361 | A summary counts at least one upload exactly if there is one, and names the oldest and the newest |
| ExportSections.EveryUploadIsCountedOnce | warehouse/admin/user_export.py:464-502 | The rows' counts add up to the number of fetched uploads, and no past project is without one |
| ExportSections.IpLookup.IpRef | warehouse/admin/user_export.py:173-186 | Returns the key; adds the address only when the key is new |
| ExportSections.IpLookup.IpRefs | warehouse/admin/user_export.py:173-186 | Every emitted key leads to its own row's address, earlier entries stay, and nothing unreferenced is added |

## Left out

- `unverify_emails_with_expired_domains`, `prohibit_email_domain`: short loops over one query whose results are read off the body.
- `filter_key` and `process_available_filters` in the search view, `_commonpath`: each settled by one reading.
- Rate limiters, metrics, event rows other than successful logins, and the `last_used` and device-information columns of a login.
- Deletion of users, releases and files; database triggers (the filename log is an input that uploads do not extend).
- Several clock readings inside one request: they are taken to be equal.
- The resend of queued mail and bounces; mail counts as sent when queued, and as delivered at any later point or never.
- Other mails than the unrecognized-login mail, and mails to several recipients.
- Session expiry in Redis and cookie age; overlapping requests of one client; records that no longer unpack; edits inside a session value, which the code does not track; WebAuthn challenges.
- The remember-device cookie: whether a device is remembered is an input.
- The sort of directives in `_serialize`, as the round trip holds for every order; formatting of `{request}` placeholders in the header.
- Provenance URLs, which take no part in comparison, and publisher claims.
- Archive, RECORD, attestation and metadata checks of uploads: their verdicts are inputs; the file's other columns; creation of projects.
- Organizations, teams, observations, prohibited names and the text of each section of the export.
- Rows from before canonical versions were checked, where the lookup falls back to the exact version, are modelled in `FindRelease` but are not reachable from empty tables.
- Addresses other than the primary one, and their verification, in the login protocol.
- HTTP, forms, redirects, translations and permission checks.
