# Sessions, access and the browser tab of a super-admin panel, in Dafny

The panel keeps its team signed in with short access tokens and rotating refresh tokens. This project models the
code that does so, and a few algorithms beside it, and proves what that code promises. `dafny verify dfyconfig.toml`
checks everything.

## What is modelled

* **The refresh-token protocol** (`Domain`, `Store`, `Atomic`, `Machine`, `Solo`, `Service`). Every SQL or Redis
  statement is a function on the tables (`Store`). The use cases exist three times, and the three are proved to
  agree: as whole calls (`Atomic`), as objects that update their tables in place, statement by statement
  (`Service`), and as a machine with one program counter per call that executes one statement per step, any number
  of calls interleaved, any call dying before any statement (`Machine`). `Solo.UninterruptedIsAtomic` says that a
  call nobody interrupts is the whole call.
* **What each request does**: `Effects` (for whole calls: exactly who is answered what, and the whole new state),
  `Origin` (for interleaved calls: every pair ever issued was earned by reads its run really made) and `Course` (for
  interleaved calls: what a request must have executed by the time it answers).
* **What whole calls keep**: `Chain` (each session is one linear chain), `Reuse` (a spent token closes its session
  for good), `Lockout` (counter and lock are a function of the login history).
* **What every interleaving keeps**: `Invariant`, `Rotation` (write-once columns, successor links, how many
  successors), `SessionClose` (what revoking a session means while refreshes of it are half-way), `Suspension` (what
  is left possible after a colleague's access is revoked), `LockoutRace` (how far the failure counter overshoots),
  `Ownership` (who can manage the team), `Exclusive` (exactly which overlaps cost a session its one open token) and
  `Fork` (how many they can make of it).
* **The request path**: `Gate` (signature and expiry, revocation list, permission), `RevocationList`, `Authz`.
* **The browser tab**: `Tab` (the session store, the shared refresh, every request cut at its awaits),
  `TabHistory` (the session as a function of what happened, what a retry carries), `Page` (the same as objects that
  change in place), `World` (the tab composed with the interleaved server).
* **Smaller algorithms**: `Overview`, `Journal`, `Template`, with `Sorting`.

## Modelling assumptions

* Identifiers and random tokens are fresh, the token hash is injective, tokens cannot be guessed. The model gives
  each call one number and names by it everything the call creates: row id, raw refresh token, access-token id and,
  for a login, session id. A raw token string stands for the pair it was issued with; a string that was never issued
  stands for none. The objects of `Service` state the freshness as `Valid()` and keep it. `State.issued` is history kept for the statements, not a table of the system.
* Each statement is atomic, the clock is shared and never goes back, and a call reads it where the source does: at
  its start, except in `Team.Revoke`, which reads it after the member (internal/usecase/team.go:166).
* Time is a whole number of nanoseconds. An access token's expiry keeps whole seconds only (section 2 of RFC 7519
  allows fractions, the library drops them) and a token is accepted strictly before it (section 4.1.4 of RFC 7519).
* What the password check finds is an input (`PasswordCheck`). Logout takes its claims as an input too: as wired, its
  route stands outside the Auth middleware (internal/delivery/http/router.go:62), so its handler passes none.
* Users are there from the start: no call of the model creates or deletes one.
* Between insert and mark the clean-up may delete the new row; then the mark fails its foreign key, and the model
  says so. Deleting a successor sets the link to null (migrations/0001_init.sql:66).

## Where the documentation promises more than the code does

* README.md:89-90 says that logout and "log out everywhere" invalidate access tokens at once. That is false:
  `RevocationList.LogoutsLeaveToken` is a login after which neither stops the token, logging out everywhere because it
  lists nothing (internal/usecase/auth.go:257-262; its own comment says so), logging out because the handler, as wired,
  passes nil claims. `RevocationList.InvalidatesIff` says exactly what a call takes away: a set of tokens is refused
  from now on if and only if each was expired or listed before the call, or is the one whose claims the call logs out;
  `LogoutAllAtOnceIff` and `WiredLogoutAtOnceIff` are its two cases. With claims the promise is kept, in every
  interleaving (`RevocationList.NoGap`).
* internal/repository/postgres/queries/super_admin.sql:17-18 says that counting and locking in one UPDATE leaves no
  window for parallel attempts. The lock is decided from an earlier read (internal/usecase/auth.go:353-360), so there
  is one; `LockoutRace.OvershootBounded` and `LockoutRace.OvershootReached` give its exact size.
* "One usable token per session" holds for whole calls (`Chain.SessionsAreChains`). It survives any overlap in which no
  refresh reads a token that another refresh holds and no mark is lost (`Exclusive.OneOpenAlong`), and breaking either
  condition breaks it (`Exclusive.OverlappingReadForks`, `Exclusive.LostMarkForks`, `Fork.OverlappingRefreshesFork`).
* Revoking a session ends it for good exactly when no refresh that can still insert is half-way
  (`SessionClose.DeadForeverIff`).
* An offset of the audit log is converted to 32 bits unchecked; `Journal.OffsetServedIff` says which offsets are
  answered right, and `Journal.WrapsToTheFront` is a caller's input that is not.

## Model

| member | source | states |
|---|---|---|
| SessionClose.AfterRevokeSession | internal/usecase/auth.go:151-184 | After a session is revoked, by itself or with all sessions of its user, every unrevoked row of it and every pair issued for it since descends from a refresh that was between its token read and its insert, and not stuck there. |
| SessionClose.HalfWayRevives | internal/usecase/auth.go:166-194 | A half-way refresh whose user may log in brings the session back with its next two statements; its row is usable if and only if the call began less than a refresh lifetime ago. |
| SessionClose.DeadForeverIff | internal/repository/postgres/queries/refresh_token.sql:17-27 | A session just revoked has no unrevoked row in any continuation if and only if each refresh half-way through it still has to read a user who is suspended or gone. |
| SessionClose.AfterRevokeAll | internal/repository/postgres/queries/refresh_token.sql:23-27 | After all tokens of a user are revoked, an unrevoked row of that user is of a session opened since, or descends from a refresh that was half-way. |
| Exclusive.OneOpenAlong | internal/usecase/auth.go:140-194 | In every run in which no refresh reads a token another one holds and no mark is lost, however calls overlap otherwise, the older of any two rows of a session is used or about to be marked so. |
| Exclusive.OneUsableAlong | internal/usecase/auth.go:140-194 | In such a run a session has at most one usable token whenever none of its refreshes stands between insert and mark. |
| Exclusive.SecondHolderForks | internal/usecase/auth.go:186-194 | Two refreshes that hold one token and can insert lead to two open rows, without any lost mark. |
| Exclusive.OverlappingReadForks | internal/usecase/auth.go:143-194 | So does reading a usable token while another refresh holds it: the first condition is needed. |
| Exclusive.LostMarkForks | internal/usecase/auth.go:188-194 | A refresh that dies between insert and mark leaves two open rows at once: the second condition is needed. |
| Rotation.WriteOnce | internal/repository/postgres/queries/refresh_token.sql:9-27 | Over every run of every interleaving, what is once written in the rotation and revocation columns stays, owner, session and expiry never change, and a deleted row does not come back. |
| Rotation.LinksGoForward | internal/usecase/auth.go:186-194 | A successor link points to a stored, later-made row. |
| Rotation.WalkStaysInSession | internal/usecase/auth.go:186-194 | Following successor links from any row ends, and every link leads to a row made from the one before it, of the same user and session. |
| Rotation.SuccessorsBounded | internal/usecase/auth.go:186-194 | If no call died between insert and mark, then whatever happens after a token is first marked used, all its successors come from refreshes that held it at that moment: never more than were in flight. |
| World.ReuseUnreachable | web/src/lib/http.ts:58-97 | One tab with any number of requests against the interleaved server: at most one refresh of it at the server, the cookie is the tail of its chain whenever none is out, and no call ever takes the reuse branch with one of its tokens. |
| World.AnswerOf | internal/delivery/http/handler/auth.go:104-112 | The cookie is dropped exactly for a revoked session or a refused token, and swapped exactly for a granted pair. |
| Origin.EveryPairWasEarned | internal/usecase/auth.go:74-207 | Over every run of every interleaving, at some state between its call's begin and its insert a pair's user existed, was active and unlocked and held the role the pair carries, the call being a login with the right password or a refresh; for a refresh the presented token was, at some such state, stored, unused, unrevoked and unexpired. |
| Origin.NoPairFromExpired | internal/usecase/auth.go:166-168 | No pair is ever made from a token whose lifetime had run out when the call began. |
| Course.RevokedForGood | internal/usecase/team.go:157-172 | In any interleaving, after a Revoke request has answered Done no request of that member is admitted from one access-token life on, and every unrevoked row of theirs is of a session opened since or descends from a refresh half-way at the answer. |
| Course.RevokeDoesBoth | internal/usecase/team.go:166-172 | A Revoke request that answers Done has executed that member's status update and with its answer revokes all their tokens. |
| Course.LogoutDoes | internal/usecase/auth.go:211-230 | A logout request with a cookie, once answered, has looked the cookie up and, if it found a row, has afterwards executed RevokeSession of that row's session. |
| Course.LogoutAllDoes | internal/usecase/auth.go:257-262 | A request to log out everywhere revokes with its answer all tokens of the user it names. |
| Course.UpdateRoleDoes | internal/usecase/team.go:119-136 | A role change that answers Done leaves with its answer exactly the requested role on exactly that member, and never the owner's. |
| Suspension.PairsAfterSuspension | internal/usecase/team.go:166-172 | After the status update commits, the pairs still issued to that user are those of the calls that already held the user's row: at most as many. |
| Suspension.NoAccessAfterSuspension | internal/delivery/http/middleware/auth.go:31-47 | From one access-token life after the commit, no request of that user is admitted, whatever was half-way. |
| Suspension.AllHoldersIssue | internal/usecase/auth.go:117-194 | Some continuation after the commit issues pairs to exactly those calls, all of them, so the bound is met. |
| LockoutRace.OvershootBounded | internal/usecase/auth.go:353-360 | With at most c overlapping wrong passwords for a user, an unlocked account has counted at most maximum + c - 2 failures, over every run; none if a single failure locks. |
| LockoutRace.OvershootReached | internal/usecase/auth.go:353-360 | For every maximum of at least two and every c some run reaches exactly that count with the account unlocked. |
| Ownership.OwnersConstant | internal/usecase/team.go:119-165 | In every interleaving the set of owners never changes, nor does any owner's status. |
| Ownership.OnlyActiveOwnersManageTeam | internal/delivery/http/router.go:70-76 | A request admitted to invite, change a role or revoke comes from a user whose row is at that moment an active owner's, although the role was read from the token. |
| Chain.LinearRun | internal/usecase/auth.go:140-207 | Any run of logins, refreshes, logouts, revocations, role changes and clean-ups keeps all sessions linear. |
| Chain.SessionsAreChains | internal/usecase/auth.go:186-194 | In every state whole calls can reach, the rows of a session are one chain: each used row links to the next, of the same user and expiring no earlier, and only the last is unused. |
| Chain.ExpiryGrows | internal/usecase/auth.go:325-338 | Along a session a later row never expires earlier. |
| Chain.PurgeCutsPrefix | internal/repository/postgres/queries/refresh_token.sql:29-30 | Clean-up cuts a prefix off each chain; every row that stays keeps its link, so no link is left null or dangling, and the rest is a chain again. |
| Reuse.ReuseClosesSession | internal/usecase/auth.go:151-164 | Presenting a used or revoked token revokes every unrevoked row of its session, keeps first reasons, changes no row of another session and nothing else. |
| Reuse.ReuseIsForever | internal/usecase/auth.go:151-164 | From then on, whatever is called, no row of that session is ever usable, none is added, no pair is issued for it, and instants and reasons stay. |
| Lockout.CounterIsHistory | internal/usecase/auth.go:353-360 | In every reachable state the counter is the number of wrong passwords since the last success, and the lock is the latest of them plus the lockout once there are enough. |
| Lockout.RightPasswordGate | internal/usecase/auth.go:103-115 | A right password gets a pair exactly when the history does not shut the account out and it is active; it answers "locked" exactly when shut out. |
| Lockout.NoPairWhileShutOut | internal/usecase/auth.go:177-184 | While the history shuts an account out, no call of any kind issues it a pair. |
| RevocationList.NoGap | internal/usecase/auth.go:232-237 | Once a logout with a token's claims has answered, the middleware refuses that token at every later instant of every continuation. |
| RevocationList.ListIsSmall | internal/domain/session.go:62-70 | For whole calls, whose delay is zero: at any instant the list holds only tokens issued within the last access-token life. |
| RevocationList.InvalidatesIff | internal/usecase/auth.go:211-279 | In every reachable state, for every request and every set of access tokens: after the call all are refused for good if and only if each was expired or listed before, or is the one whose claims the call logs out. |
| RevocationList.LogoutAllAtOnceIff | internal/usecase/auth.go:252-262 | Logging out everywhere stops a user's access tokens at once if and only if none was still accepted. |
| RevocationList.WiredLogoutAtOnceIff | internal/delivery/http/handler/auth.go:123-134 | Logging out by cookie alone stops a session's access tokens at once if and only if none was still accepted. |
| RevocationList.LogoutsLeaveToken | internal/delivery/http/router.go:62 | A login after which neither of the two stops the new token, while a logout with its claims does. |
| RevocationList.ListIsSmallWithin | internal/domain/session.go:62-70 | In every interleaving in which logouts list within d of reading the clock, the list holds only tokens issued within the last access-token life plus d, so no more than there are. |
| RevocationList.DelayShows | internal/usecase/auth.go:232-237 | A logout's delay is exactly what its entry outlives the token by. |
| Fork.OverlappingRefreshesFork | internal/usecase/auth.go:186-194 | From any reachable state and for every k, overlapping refreshes can give one refreshable token k usable successors in its session. |
| Effects.RefreshIff | internal/usecase/auth.go:140-184 | A refresh is granted exactly for a stored, unexpired, unused and unrevoked token of a user who exists, is active and not locked. |
| Effects.RefreshLeaves | internal/usecase/auth.go:186-194 | It signs that user's current role in the row's session, adds one row with a full lifetime, marks the presented row with it, and changes nothing else. |
| Effects.RefreshRefused | internal/usecase/auth.go:143-184 | What each refusal answers and does: an unknown or expired token or a missing user changes nothing, a spent token closes its session as reused, a barred user's session is closed as disabled. |
| Effects.LoginIff | internal/usecase/auth.go:74-115 | A login is granted exactly to a known address with the right password whose account is active and not locked. |
| Effects.LoginLeaves | internal/usecase/auth.go:117-126 | It signs that address's user with the row's role in a session of its own, clears counter and lock, and touches no other user or row. |
| Effects.LoginRefused | internal/usecase/auth.go:77-115 | A wrong password counts one failure and decides the lock; no other refusal changes anything; unknown address, wrong password and suspended account answer alike. |
| Effects.LogoutLeaves | internal/usecase/auth.go:211-230 | In every reachable state a logout closes exactly the session of its stored cookie, failing that of its claims, failing both none, and touches no other row. |
| Effects.LogoutAllLeaves | internal/usecase/auth.go:257-262 | Exactly the user's rows are revoked, first reasons kept, and nothing else changes. |
| Effects.RevokeLeaves | internal/usecase/team.go:157-172 | Done exactly for a member who is no owner, then leaving the member suspended and all their tokens revoked and everything else as it was; refused, nothing changes. |
| Effects.UpdateRoleLeaves | internal/usecase/team.go:119-136 | Done exactly for a role other than owner and a member who is no owner, then leaving that role on that member and nothing else changed. |
| Solo.UninterruptedIsAtomic | internal/usecase/auth.go:74-279 | For every request, state and set of other calls in flight, driving a new call through its separate statements without interruption ends in the state and answer of the whole call, the others untouched. |
| Invariant.Inits | internal/usecase/auth.go:304-349 | Before the first call tokens, pairs, revocation list and calls in flight fit together. |
| Invariant.KeptAlong | internal/usecase/auth.go:74-279 | Every interleaving of statements, aborted calls and clean-ups keeps them fitting together. |
| TabHistory.SessionIsHistory | web/src/lib/auth.ts:28-49 | Over every run of a fresh page the whole session is a function of its history: the token of the last granted sign-in or settled refresh, the user of the last sign-in or restore, nothing after a clearing. |
| TabHistory.RetryIsFresh | web/src/lib/http.ts:78-97 | A retry carries the token that a refresh settled after its 401, or something after that refresh, left in the store: never one from before. |
| TabHistory.SettlingLeaves | web/src/lib/http.ts:58-76 | Settling ends the flight, wakes exactly those who wait with the outcome, and stores exactly a granted token. |
| TabHistory.RefusalJoins | web/src/lib/http.ts:92-93 | A first 401 makes the request wait for the refresh that was in flight, or for one sent with the cookie of now. |
| TabHistory.ContinuationLeaves | web/src/lib/http.ts:92-97 | After a good refresh the request is sent again with the token of now, after a bad one it ends and the session is cleared. |
| TabHistory.AnswerLands | web/src/lib/http.ts:67-76 | The answer decides what settling brings, and the cookie; session and requests wait for settling. |
| Tab.EveryRunIsFine | web/src/lib/http.ts:58-107 | Under any interleaving of requests, sign-ins, sign-outs and restores: authenticated exactly when a user is present, never without a token, never back to checking; each request fetches at most twice and joins at most one refresh; whoever waits has a refresh in flight. |
| Tab.StepsRunOut | web/src/lib/http.ts:78-107 | Every effective input that starts nothing new brings the tab strictly closer to rest. |
| Tab.FinitelyManyMoves | web/src/lib/http.ts:78-107 | From any reachable state only that many inputs can still have an effect. |
| Tab.AtRest | web/src/lib/http.ts:58-76 | At rest every task has ended and no refresh is out. |
| Tab.SomethingMoves | web/src/lib/http.ts:58-107 | As long as something is left to do, something other than a new task can be done. |
| Tab.ComesToRest | web/src/lib/http.ts:58-107 | From every reachable state some inputs, none starting a task, end every task with no refresh out. |
| Gate.Auth | internal/delivery/http/middleware/auth.go:23-53 | Admits a token if and only if it is signed, unexpired and unlisted and Redis answers, with the claims it was signed with; 503 exactly for a good token while Redis is down. |
| Gate.ListingIsTheGate | internal/delivery/http/middleware/auth.go:57-70 | An admitted request passes the permission check exactly when the flat listing the browser got for its role names the pair. |
| Authz.New | internal/pkg/authz/table.go:75-90 | The nested table answers exactly as the rule lists do, whatever order the roles are taken in. |
| Authz.ListPermissions | internal/pkg/authz/table.go:110-120 | The flat listing is sorted and names exactly what the role can do; no name repeats if and only if no two granted pairs flatten to the same name. |
| Authz.NameIsInjective | internal/pkg/authz/table.go:115 | For resources without a colon the flat name determines resource and action. |
| Authz.PermissionsOf | internal/pkg/authz/table.go:75-120 | From a policy with colon-free resources, the listing is the strictly sorted enumeration of exactly the allowed pairs. |
| Authz.ShippedIsPlain | internal/pkg/authz/table.go:34-64 | The shipped policy is such a policy. |
| Authz.OnlyOwnersManageTeam | internal/pkg/authz/table.go:34-64 | In the shipped policy only the owner may create, update or delete team members. |
| Authz.ListingAnswers | internal/pkg/authz/table.go:92-120 | For colon-free resources, a pair is allowed exactly when its flat name is listed. |
| Authz.ShippedTable | internal/pkg/authz/table.go:28-64 | Exactly which of all pairs each role is allowed, resource by resource. |
| Overview.Get | internal/usecase/overview.go:48-103 | The status counters are the counts and add up to the total; the trials shown are five (or all) of the eligible ones, sorted, and none left out ends earlier than one shown. |
| Overview.OpenTicketsOf | internal/delivery/http/handler/tenant.go:69-78 | Counts exactly that client's open tickets. |
| Overview.OpenTicketsConserved | migrations/0004_support_tickets.sql:18 | The per-client counts add up to the overview's count when every ticket belongs to a listed client. |
| Journal.AuditRepo.Write | internal/repository/postgres/queries/audit_log.sql:1-3 | Appends exactly one entry under a new, larger id. |
| Journal.AuditRepo.List | internal/repository/postgres/audit_repo.go:66-124 | Answers the page of the filtered log, in order, with the total. |
| Journal.OrderedSound | internal/repository/postgres/queries/audit_log.sql:5-24 | The listing holds every matching entry exactly once, strictly newest first, as many as the count says. |
| Journal.PagesAreTheLogIff | internal/repository/postgres/audit_repo.go:66-88 | For every filter and limit L, the pages at 0, L, 2L, ... put together are the whole listing if and only if every page starts at an offset that fits 32 bits. |
| Journal.PagesAreTheLog | internal/repository/postgres/audit_repo.go:66-88 | Up to 2^31 matching entries they do, each entry exactly once. |
| Journal.OffsetServedIff | internal/repository/postgres/audit_repo.go:71-86 | Every offset is served right if and only if it fits 32 bits, or wraps around to one at or beyond the end of the listing. |
| Journal.WrapsToTheFront | internal/repository/postgres/audit_repo.go:84-86 | With one entry the offset 2^32 answers that entry where there is none, and 2^31 is refused. |
| Journal.CriteriaNarrow | internal/repository/postgres/queries/audit_log.sql:7-13 | Each criterion keeps of what the others keep exactly the entries that meet it. |
| Journal.NoCriteria | internal/repository/postgres/queries/audit_log.sql:5-13 | An empty filter keeps every entry. |
| Journal.ClampLimit | internal/repository/postgres/audit_repo.go:67-70 | A limit from 1 to 200 is kept, any other becomes 50. |
| Template.SplitJoinIsSingle | web/src/features/settings/SettingsPage.tsx:15-20 | Split and join is one pass over the text. |
| Template.OneAhead | web/src/features/settings/SettingsPage.tsx:15-20 | Substituting one variable first and the others in one pass afterwards is one pass with all of them. |
| Template.PreviewIsSinglePass | web/src/features/settings/SettingsPage.tsx:15-20 | For every text and well-formed table the sequential substitution is the simultaneous one. |
| Template.AnyOrder | web/src/features/settings/SettingsPage.tsx:15-20 | The order of the variables does not matter. |
| Template.PreviewLeavesNoPlaceholder | web/src/features/settings/SettingsPage.tsx:15-20 | No placeholder of the table is left anywhere in the preview. |
| Template.ShippedTableIsWellFormed | web/src/features/settings/types.ts:32-39 | The shipped variables and sample values meet the condition. |
| Service.Database.GetByHash | internal/repository/postgres/queries/refresh_token.sql:6-7 | The row of a presented token, or none. |
| Service.Database.CreateToken | internal/repository/postgres/queries/refresh_token.sql:1-4 | Adds exactly one row, or, when the key is taken, fails and writes nothing. |
| Service.Database.MarkUsed | internal/repository/postgres/queries/refresh_token.sql:9-15 | Sets both rotation columns of an unused row and of no other, leaves a used row alone, and fails without writing when the successor is gone. |
| Service.Database.RevokeSession | internal/repository/postgres/queries/refresh_token.sql:17-21 | Revokes the unrevoked rows of one session and touches nothing else. |
| Service.Database.RevokeAllForUser | internal/repository/postgres/queries/refresh_token.sql:23-27 | Revokes the unrevoked rows of one user and touches nothing else. |
| Service.Database.DeleteExpired | internal/repository/postgres/queries/refresh_token.sql:29-30 | Exactly the rows that have not expired stay; the rows left and the number answered add up to the rows before; links to deleted rows become null. |
| Service.Database.RegisterFailedLogin | internal/repository/postgres/queries/super_admin.sql:16-22 | One more failure; a lock only replaces the old one when it is given. |
| Service.Database.RegisterSuccessfulLogin | internal/repository/postgres/queries/super_admin.sql:24-29 | Clears counter and lock of one user, notes the instant. |
| Service.Database.UpdateRole | internal/repository/postgres/queries/super_admin.sql:37-39 | Changes one user's role and nothing else, and says whether there is such a user. |
| Service.Database.UpdateStatus | internal/repository/postgres/queries/super_admin.sql:41-43 | Changes one user's status and nothing else, and says whether there is such a user. |
| Service.Revoker.Revoke | internal/pkg/redisx/redisx.go:58-67 | Lists the token until now plus its remaining life; an expired one is not listed. |
| Service.Auth.constructor | internal/usecase/auth.go:48-68 | The configuration in use always has sane limits. |
| Service.Auth.IssuePair | internal/usecase/auth.go:304-349 | Signing and inserting in place has the effect the value model gives it; it fails exactly when the row's key is taken. |
| Service.Auth.RegisterFailure | internal/usecase/auth.go:353-360 | The lock is decided from the row as it was read. |
| Service.Auth.Login | internal/usecase/auth.go:74-134 | Run in place, statement by statement, it is the whole login call: same tables, same answer. |
| Service.Auth.Refresh | internal/usecase/auth.go:140-207 | Run in place it is the whole refresh call, on every branch. |
| Service.Auth.Logout | internal/usecase/auth.go:211-250 | Run in place it is the whole logout call: the cookie's session wins over the claims' one. |
| Service.Auth.LogoutAll | internal/usecase/auth.go:257-279 | Run in place it is the whole call, and it lists no access token. |
| Service.Team.UpdateRole | internal/usecase/team.go:119-151 | Run in place it is the whole call, in the source's order of refusals. |
| Service.Team.Revoke | internal/usecase/team.go:157-187 | Run in place it is the whole call: suspend first, then revoke the tokens; an owner is refused. |
| Service.Middleware.Authenticate | internal/delivery/http/middleware/auth.go:23-53 | Run in the source's order over the tables and the list, it gives the verdict of the value model. |
| Page.SessionStore.Set | web/src/lib/auth.ts:35-38 | The store then holds that token and user and is authenticated. |
| Page.SessionStore.Clear | web/src/lib/auth.ts:40-43 | The store is empty and anonymous. |
| Page.SessionStore.UpdateAccessToken | web/src/lib/auth.ts:46-49 | Only the token changes. |
| Page.Script.RefreshAccessToken | web/src/lib/http.ts:58-65 | A refresh is sent only when none is in flight, with the cookie of that moment. |
| Page.Script.StartRestore | web/src/features/auth/api.ts:45-49 | Opens with the shared refresh, before any request of its own. |
| Page.Script.SignedIn | web/src/features/auth/api.ts:21-27 | Only a granted sign-in changes store and cookie. |
| Page.Script.SignedOut | web/src/features/auth/api.ts:29-37 | The store is cleared whatever the answer. |
| Page.Script.RefreshAnswered | internal/delivery/http/handler/auth.go:97-119 | The cookie is swapped on success, dropped when the session is dead, kept otherwise. |
| Page.Script.Replied | web/src/lib/http.ts:78-107 | Only a first 401 joins the shared refresh; a retry never does. |
| Page.Script.RefreshSettled | web/src/lib/http.ts:67-76 | Stores the token, clears the promise and wakes everybody who waits, once. |
| Page.Script.Continue | web/src/lib/http.ts:92-97 | After a good refresh the request is repeated, after a bad one the session is given up. |
| Domain.WithDefaults | internal/usecase/auth.go:27-35 | Positive lifetimes always end up in a usable configuration; limits that are not positive become five attempts and fifteen minutes, a configuration that was usable is left alone. |
| Domain.NumericDate | internal/pkg/jwt/jwt.go:99-111 | The expiry a token carries is a whole second, never later than asked for and less than a second earlier. |

## Left out

- World.ReuseUnreachable: assumes one tab whose tokens nobody else presents, whose rows nobody revokes, whose refresh
  calls do not die between insert and mark, and whose refresh answers arrive; a lost answer, a page reload while a
  refresh is out, or a second tab on the same cookie jar do make the server see a spent token.
- SessionClose.DeadForeverIff: is about the revocation column, and takes for granted that every user has an email
  address, as the column demands. When the revival first waits for a lock to end, the row may be expired by then if the
  lockout is longer than the refresh lifetime; HalfWayRevives says when a row comes back usable.
- Rotation.SuccessorsBounded: assumes that no call died, or failed its foreign key, between insert and mark before the
  token was first marked; without that the token stays unused and can be rotated again.
- RevocationList.InvalidatesIff: is about whole calls and Redis answering; NoGap covers interleaved logouts with claims.
- LockoutRace.OvershootReached: is about maxima of two or more; with a maximum of one there is no overshoot to reach.
- Exclusive.OverlappingReadForks: shows that the condition is needed for refreshes that can insert; it says nothing of a
  second reader whose user is refused.
- Journal.PagesAreTheLogIff: no entry is written between two pages.
- Template.PreviewIsSinglePass: the condition on tokens and values is sufficient and met by the shipped table; which
  other tables also agree is not described.
- Overview.Get: the horizon is fourteen days of twenty-four hours; the calendar addition differs from that only where
  the server's time zone changes its offset. Ties between equal end dates may come in any order.
- Authz.ListPermissions, Overview.Get and Journal.AuditRepo.List: library and database sorting is stood for by an
  insertion sort that is proved sorted and a permutation.
- RevocationList.NoGap: Redis keeps a key for exactly its time to live; that the client library sends whole
  milliseconds of it, which could end an entry less than a millisecond early, is not part of this model.
- The 32-bit width of the failure counter, the microseconds the database keeps of an instant, and clock differences
  between servers.
- The audit entries that the use cases write on the way, the columns user_agent, ip and created_at of a token row, and
  the email claim: nothing that is modelled reads them.
- Team.Invite, Team.List and Auth.Me: they add or read users without touching tokens; invitable roles are modelled
  where UpdateRole checks them.
- Parsing of malformed claims inside a validly signed token, key ids, hashing, signing and random generation.
- Email normalisation: addresses are compared as they are.
- A refresh whose answer body cannot be read, or whose request never gets an answer: the promise then rejects.
- Routing, JSON binding, CORS, headers, logging, configuration, start-up, tenant and ticket editing, settings,
  activation codes, React components and client caches: plumbing and short branches that would add only easy members.
