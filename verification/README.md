# Proofs about shops, members, sessions and rate limits

This project models the parts of the repository whose correctness depends on more than one function at a time, and
proves what they promise. Everything is Dafny 4.11; `dafny verify dfyconfig.toml` checks the whole project.

## What is modelled

**Members and invitations of an organization.** Seven operations write `Membership` and `Invitation` rows: change a
role, revoke, leave, create, reissue, cancel and accept an invitation.

* `OrgTables` states what each does when it runs alone (`Apply`), `OrgServices` is the same as the services write it,
  rows updated in place, and proves that each method does exactly what `Apply` says.
* `OrgScripts` cuts each operation into its SQL statements; every statement has its own snapshot. `OrgLock` interleaves
  the statements of any number of transactions over any number of organizations (begin, take the row lock, one
  statement, commit or roll back, abort, clock tick) and proves every interleaving equal to running the operations
  whole, one at a time, in lock order. `OrgInterleaving` puts the seven scripts in.
* `OrgOutcomes` says the same operations on the fields of the rows alone: for every answer, success and each refusal,
  the exact condition, with the capabilities and the durations written out; and the rows afterwards. `OrgInvited` draws
  the consequence for whole runs: an invitation works for the person it is for until it is used, replaced or cancelled,
  or its time is up.
* `OrgRuns`, `OrgHistory` and `OrgCap` then prove properties of whole runs: there is always an active Owner, pending
  invitations are never duplicated, who can come back after a removal, where every ownership and every Owner link came
  from, and exactly when the cap on live invitations holds. `InterleavedHasHistory` carries each over to interleaved
  runs. `OrgStaleRun` builds interleaved runs in which the cap does not hold.

Two clocks appear. `now` is read by the caller before it asks for the lock. `at` is the clock of the first write, read
under the lock. `OrgClocks` proves that on a clock that never goes back the `at`s follow lock order and no `now` is later
than its own `at`; it says nothing of the order of the `now`s, and that is what breaks the cap below.

**Refresh tokens.** `RefreshTokens` is the table (login, rotation, three revocations), `RefreshTokenService` the service
as it updates it in place. `RefreshRuns`, `RefreshRace` and `RefreshCap` prove that every reachable family is one chain,
who may rotate, that a revoked family is dead, that it ends after 90 days, and that nobody has more than 20 live
families. `RefreshOutcomes` gives the exact condition of every answer on the rows, and which rows each step leaves alone.
`AuthClient` is the browser's single-flight refresh, run together with that table while other sessions act on it;
`AuthClientRuns` follows one request through every such run.

**The org-scope query rewriter.** `OrgScope` is the rewriter. `OrgScopeMeaning` gives queries a meaning on a table that
many tenants share (nested `AND`/`OR`/`NOT`, unique lookups, creates, updates, deletes, upserts) and proves that a
rewritten query is the original one on the context tenant's rows alone. The rest of the query language is a parameter,
so the theorem holds for every choice of it. `OrgScopeAcceptance` says on the arguments alone which queries are
accepted, and with which error every other one is refused.

**Client addresses.** `ClientIp` reads and prints IPv6 text and chooses a rate-limit bucket. The printer compresses as
sections 4.2.2 and 4.2.3 of RFC 5952 ask. `AddressGrammar` spells hextets and dotted quads character by character, with
leading zeros and capitals; `AddressTexts` proves that the reader accepts exactly the texts of section 2.2 of RFC 4291
in that spelling and undoes the printer, and `ClientIpBuckets` which texts share a bucket, envelopes included.

**Smaller parts.** `Cursor` (keyset pagination while rows come and go), `Throttle` (the limiter used when the shared
counter is down), `WeightedAverage` (stock cost over any receipts).

## Findings

* *A stale reissue exceeds the cap on live invitations.* `reissueLink` refuses a dead link by a clock read before the
  lock. If it then waits for the lock while the link dies and another invitation takes the place, it revives the link and
  one more than the cap is alive. `OrgStaleRun.StaleReissueInterleaved` is such an interleaving, on a clock that never goes
  back, for every cap from one up (the repository's is 100) and whoever has accounts; the invitations before it come ten
  minutes apart, within the limit of 30 an hour. `OrgCap.CapExactly` says exactly
  when the cap holds, and `OrgCap.CapIfAliveUnderLock` that it always would if the reissue checked the expiry once it
  holds the lock.
* *The comment at `packages/core-domain/src/orgs/owner-invariant.ts:108-110`* says the Owner check always throws when
  there is no active Owner yet. It does not when the change promotes somebody who has no Owner row (lines 89-96):
  `OwnerInvariant.PromotionPassesWithoutOwners` is the input, `OwnerInvariant.PassesWithoutOwners` the exact condition.
  The state cannot be reached (`OrgRuns.OwnerAlways`).
* *The comment at `apps/api/src/auth/refresh-token.service.ts:187`* says rotation marks the presented row; the code
  only inserts the successor, and so does the model.
* *An honest client can get the reuse answer*: its family may have been evicted by the cap or revoked by another
  session. `AuthClient.RevokedElsewhereIsReused` is a run in which it does, after any login, and
  `AuthClient.SoleHolderIsNeverReused` proves that there is no other way.
* *The eviction key is not the login time* once the login row itself has expired, against the comment at
  `apps/api/src/auth/refresh-token.service.ts:82`. `RefreshCap.LongSessionLooksYoung` is a session of day 0 that counts
  as one of day 59; `RefreshCap.EvictionKeyAlong` proves that the two agree exactly while the login row is live.
* *Waiting as long as told is not always enough.* The degraded limiter's window includes its last instant, so whoever is
  refused a whole number of seconds before that instant, and waits exactly so long, is refused once more, for one second.
  `Throttle.WaitingAsTold` has the exact condition.
* *Uniform revocation rests on whole transactions.* An update of many rows that waits for the row lock of a rotation does
  not see the successor that the rotation inserts. `RefreshRace.WaitingKeepsUniform` proves that a family then stays all
  revoked or all not exactly when no row joined it while the update waited, and `RefreshRace.SuccessorIsMissed` that after
  every such rotation the successor is left and still rotates.

## Assumptions

One membership row per organization and user. User e-mails are normalized and do not change during a run, and neither do
the roles of an organization and their capabilities. Ids are numbers: a refresh token is its row, an invitation id is its
position in a table that only grows, and a login's family id is new. Statements under the organization lock are atomic,
and a commit becomes visible at once. A refresh-token `$transaction` is one atomic step, since the row lock covers only
the presented row; `RefreshRace` looks at the one place where that matters, under the read-committed rules the database
defaults to. Nothing is assumed of invitation-token hashes, not even that they differ. A clock that never goes back
is assumed only where a lemma asks for it.

## Model

| member | source | states |
|---|---|---|
| OwnerInvariant.ActiveOwnersAfter | packages/core-domain/src/orgs/owner-invariant.ts:69-99 | the loop returns, without duplicates and in the order of the rows, exactly the users who are active Owners once the change is applied to them, a promoted outsider last |
| OwnerInvariant.OwnerRemains | packages/core-domain/src/orgs/owner-invariant.ts:112-116 | the check passes exactly when such a user exists |
| OwnerInvariant.PassesWithoutOwners | packages/core-domain/src/orgs/owner-invariant.ts:86-116 | where nobody is an active Owner yet, the check passes if and only if the change promotes somebody without an Owner row |
| OwnerInvariant.PromotionPassesWithoutOwners | packages/core-domain/src/orgs/owner-invariant.ts:108-110 | with no rows at all, making somebody an Owner passes |
| OrgTables.OwnerLeftFromRows | apps/api/src/orgs/members.service.ts:573-583 | the answer depends on the stored rows only, not on the order or repetition in which the query returns them |
| OrgTables.OwnerLeftAfterRoleChange | apps/api/src/orgs/members.service.ts:318-322 | for an active target the check passes exactly when an active Owner exists after the role is written |
| OrgTables.OwnerLeftAfterRemoval | apps/api/src/orgs/members.service.ts:414-422 | for an active target the check passes exactly when an active Owner exists after the revocation is written |
| InvitationPolicy.MatchesFilter | apps/api/src/orgs/invitations.service.ts:137-149 | the list filter selects by the status the clock sees, except that it misses rows stored as expired |
| OrgServices.OrgTx.FindOwnerRows | apps/api/src/orgs/members.service.ts:573-581 | the query result lists exactly the memberships whose role holds full_access, in any status |
| OrgServices.OrgTx.OwnerRemainsInTx | apps/api/src/orgs/members.service.ts:558-590 | the check in the transaction answers for the stored rows |
| OrgServices.OrgTx.WriteRevocation | apps/api/src/orgs/members.service.ts:600-634 | the membership is revoked and exactly that e-mail's pending invitations are cancelled, in one change |
| OrgServices.OrgTx.UpdateRole | apps/api/src/orgs/members.service.ts:264-358 | rows and result of changing a role, with every refusal in order; the new state keeps an active Owner |
| OrgServices.OrgTx.Revoke | apps/api/src/orgs/members.service.ts:393-425 | rows and result of a removal, with every refusal in order |
| OrgServices.OrgTx.Leave | apps/api/src/orgs/members.service.ts:467-495 | rows and result of leaving, without the Owner-only rule |
| OrgServices.OrgTx.Create | apps/api/src/orgs/invitations.service.ts:367-408 | rows and result of inviting, with every refusal in order |
| OrgServices.OrgTx.ReissueLink | apps/api/src/orgs/invitations.service.ts:436-513 | rows and result of a new link, refused once the old one is dead |
| OrgServices.OrgTx.CancelInvitation | apps/api/src/orgs/invitations.service.ts:536-554 | rows and result of cancelling |
| OrgServices.OrgTx.Accept | apps/api/src/orgs/invitations.service.ts:678-828 | rows and result of accepting, with the refusals in their fixed order and the one refusal that writes |
| OrgServices.OrgTx.Serve | packages/db/src/org-lock.ts:472-492 | whichever operation the services perform on the rows in place, they keep an active Owner, the pending discipline, the lifetimes of links, and every row's e-mail and role |
| OrgOutcomes.UpdateRoleOutcomes | apps/api/src/orgs/members.service.ts:264-358 | each answer to a role change with its exact condition on the rows: forbidden if and only if the actor lacks full_access and either an Owner role is touched or manage_members is missing too; and the one row that is written |
| OrgOutcomes.RevokeOutcomes | apps/api/src/orgs/members.service.ts:393-425 | each answer to a removal with its exact condition, and exactly which rows change: the target's, and the pending invitations to the target's e-mail |
| OrgOutcomes.LeaveOutcomes | apps/api/src/orgs/members.service.ts:467-495 | leaving needs no capability and is refused to the last active Owner alone |
| OrgOutcomes.CreateOutcomes | apps/api/src/orgs/invitations.service.ts:367-408 | each answer to a new invitation with its exact condition, and every field of the row that is added, with a day or a week to live |
| OrgOutcomes.ReissueOutcomes | apps/api/src/orgs/invitations.service.ts:436-513 | each answer to a reissue with its exact condition, and the three fields that change |
| OrgOutcomes.CancelOutcomes | apps/api/src/orgs/invitations.service.ts:536-554 | a pending row, dead or alive, becomes cancelled and is stored as such; every other one is refused |
| OrgOutcomes.AcceptOfNothing | apps/api/src/orgs/invitations.service.ts:678-698 | a link is invalid if and only if no row has its hash, and then nothing is written |
| OrgOutcomes.AcceptOutcomes | packages/core-domain/src/orgs/invitation-policy.ts:129-160 | accepting succeeds if and only if the row is pending and alive, the e-mail is one's own, the role exists, and one has no membership row or was revoked strictly before the link was issued; each refusal has its exact condition |
| OrgOutcomes.AcceptWrites | apps/api/src/orgs/invitations.service.ts:750-812 | success makes the actor an active member with the row's role and stores the row as accepted; an active member's attempt stores it as cancelled; nothing else writes |
| OrgInvited.OfferLasts | apps/api/src/orgs/invitations.service.ts:678-828 | no operation of any run spoils somebody's invitation except using, replacing or cancelling it |
| OrgInvited.InvitedCanJoin | apps/api/src/orgs/invitations.service.ts:391-408 | from a successful create on, whatever the organization does meanwhile without disturbing the invitation, a newcomer or returning person joins by its link, with its role, until its last instant |
| OrgScripts.ScriptRuns | apps/api/src/orgs/members.service.ts:264-510 | for all seven operations, the statements run over rows nobody else changes have the effect and result of the whole operation |
| OrgScripts.ReadsIgnoreClock | apps/api/src/orgs/members.service.ts:600-610 | no guard reads the clock taken under the lock; only the writes carry it |
| OrgLock.Serializable | packages/db/src/org-lock.ts:472-492 | every interleaving ends with the rows of the whole operations run one at a time in lock order, and each finished transaction has the result it gets there |
| OrgLock.LockKeepsLocked | packages/db/src/org-lock.ts:337-354 | taking the row lock first keeps every running transaction the only one on its organization and on course to the result of the whole operation |
| OrgLock.EndResult | packages/db/src/org-lock.ts:472-492 | a finishing transaction gets the result it would get alone at its place in lock order |
| OrgLock.WholeIsEach | packages/db/src/org-lock.ts:337-354 | running whole operations over all organizations is running each organization's own, in its own order |
| OrgInterleaving.InterleavedIsSequential | packages/db/src/org-lock.ts:472-492 | the seven real scripts, interleaved in any way, commit and answer as run whole in lock order |
| OrgInterleaving.InterleavedKeepsInvariants | apps/api/src/orgs/members.service.ts:558-590 | at every moment of every interleaved run every organization has an active Owner and its pending invitations in order |
| OrgInterleaving.InterleavedHasHistory | packages/db/src/org-lock.ts:472-492 | the outcome of an interleaved run is the end of a history of whole operations, to which every history theorem applies |
| OrgClocks.LockOrderIsClockOrder | apps/api/src/orgs/members.service.ts:610-610 | on a clock that never goes back, the requests of an organization write in clock order and each carried clock is no later than its write |
| OrgRuns.StepKeepsOwner | apps/api/src/orgs/members.service.ts:558-590 | no operation leaves an organization without an active Owner |
| OrgRuns.OwnerAlways | packages/core-domain/src/orgs/owner-invariant.ts:69-116 | from a new organization on there is always an active member whose role holds full_access |
| OrgRuns.StepKeepsRows | apps/api/src/orgs/invitations.service.ts:391-403 | only a successful create adds an invitation row; a row keeps its e-mail and role and never reopens |
| OrgRuns.StepActivates | apps/api/src/orgs/invitations.service.ts:764-812 | the only way to become active is accepting a live pending invitation for one's own e-mail, issued after one's revocation |
| OrgRuns.StepKeepsPending | apps/api/src/orgs/invitations.service.ts:906-931 | every operation keeps at most one pending invitation per e-mail and none for an active member |
| OrgRuns.PendingAlways | apps/api/src/orgs/invitations.service.ts:906-931 | so it holds in every state reachable from a new organization |
| OrgRuns.LinksAlwaysTimed | packages/core-domain/src/orgs/invitation-policy.ts:41-61 | in every reachable state a link for a role that manages members dies a day after its own issue, any other a week after |
| OrgHistory.RevokedWasRemoved | apps/api/src/orgs/members.service.ts:600-634 | a membership that is not active was made so by a revoke or a leave, and has been out since |
| OrgHistory.RemovedRow | apps/api/src/orgs/members.service.ts:612-618 | until its return the row carries the clock of the removal and the role it was removed with |
| OrgHistory.PendingIsYounger | apps/api/src/orgs/members.service.ts:622-631 | an invitation for a removed person's e-mail that is pending was created after the removal |
| OrgHistory.ComingBack | packages/core-domain/src/orgs/invitation-policy.ts:147-159 | whoever comes back accepted an invitation for their own e-mail, created after the removal in lock order, with a link issued strictly after revokedAt |
| OrgHistory.OwnerHasSource | packages/core-domain/src/orgs/member-authz.ts:62-71 | every active Owner traces back to the founder through grants made by active Owners of that moment |
| OrgHistory.LinkHasSource | apps/api/src/orgs/invitations.service.ts:483-508 | the current link of every invitation to an Owner role was handed out by somebody who was an active Owner then, and who traces back likewise |
| OrgHistory.OwnerRowHasSource | packages/core-domain/src/orgs/member-authz.ts:62-71 | every membership row with an Owner role, revoked ones too, belonged to an active Owner with that role at some moment, who traces back likewise |
| OrgHistory.EveryIssuerWasOwner | apps/api/src/orgs/invitations.service.ts:371-379 | every link an invitation to an Owner role ever had, by create or reissue, was issued by an active Owner of that moment, who traces back likewise |
| OrgHistory.OwnerInvitationHasCreator | apps/api/src/orgs/invitations.service.ts:371-403 | every invitation to an Owner role was created by an active Owner of that moment, who traces back likewise |
| OrgCap.StepCap | apps/api/src/orgs/invitations.service.ts:933-944 | one operation keeps the cap from the latest clock on exactly when it is not a permitted reissue of a pending row that its own clock sees alive and that clock dead, while the cap is used up |
| OrgCap.CapExactly | apps/api/src/orgs/invitations.service.ts:479-481 | a run respects the cap at the latest and every later instant if and only if no reissue of it does that |
| OrgCap.CapWithOrderedClocks | apps/api/src/orgs/invitations.service.ts:479-481 | when the carried clocks follow lock order the cap always holds, because a reissue refuses dead links |
| OrgCap.CapIfAliveUnderLock | apps/api/src/orgs/invitations.service.ts:479-481 | if every reissued row is still alive by the clock under the lock, the cap always holds |
| OrgStaleRun.Completes | packages/db/src/org-lock.ts:472-492 | whoever waits for a free lock can be run, statement by statement, to the end that the whole operation has |
| OrgStaleRun.StaleReissueInterleaved | apps/api/src/orgs/invitations.service.ts:432-508 | for every cap from one up and every founder with an account, an interleaved run of the real operations, on a clock that never goes back, that leaves one live pending invitation more than the cap |
| OrgStaleRun.InvitationsAreSpread | packages/config/src/org-policy.ts:85-85 | under the cap of 100 the invitations of that run come at least ten minutes apart, within the hourly limit of their route |
| OrgStaleRun.StaleReissueBreaksCap | apps/api/src/orgs/invitations.service.ts:432-508 | as a history of whole operations: writes in lock order, no carried clock later than its write, and yet the cap fails |
| RefreshTokenService.DecideFamilyCap | packages/core-domain/src/auth/token-lifetime.ts:53-72 | the loop evicts the oldest live family, the smaller id on a tie, exactly when the cap is reached |
| RefreshTokens.OldestIsUnique | packages/core-domain/src/auth/token-lifetime.ts:57-71 | that family does not depend on the order of the list |
| RefreshTokenService.TokenTable.CollectLiveFamilies | apps/api/src/auth/refresh-token.service.ts:73-88 | the loop maps each live family to the earliest creation among its live rows |
| RefreshTokenService.TokenTable.IssueOnLogin | apps/api/src/auth/refresh-token.service.ts:59-119 | count, evict, mint, as one step of the table |
| RefreshTokenService.TokenTable.RotateToken | apps/api/src/auth/refresh-token.service.ts:139-232 | rotate, refuse or revoke the family, rows and answer |
| RefreshOutcomes.EvictionMustGo | packages/core-domain/src/auth/token-lifetime.ts:53-72 | a family is evicted if and only if twenty have a live row, and it is then the one of the user's oldest live row, the smaller id on a tie |
| RefreshOutcomes.LoginOutcomes | apps/api/src/auth/refresh-token.service.ts:59-119 | a login adds one row with 60 days for the token and 90 for the family, revokes exactly the unrevoked rows of the family that must go, and leaves every other row as it was |
| RefreshOutcomes.RotateOutcomes | packages/core-domain/src/auth/reuse-decision.ts:85-122 | each answer to a presented token with its exact condition on the rows, on every table |
| RefreshOutcomes.RotateWrites | apps/api/src/auth/refresh-token.service.ts:186-228 | a rotation adds one row that inherits the family's end and gets 60 days of its own; a reuse revokes exactly the unrevoked rows of the presented token's family; any other answer writes nothing |
| RefreshOutcomes.StepTouches | apps/api/src/auth/refresh-token.service.ts:215-221 | no step of any kind changes a row outside the family, or the user, that it is about |
| RefreshOutcomes.TokenWasIssued | packages/core-domain/src/auth/token-lifetime.ts:18-27 | every row of every reachable table was issued by one login or rotation, and expires 60 days after it |
| RefreshOutcomes.TwentyAtMost | apps/api/src/auth/refresh-token.service.ts:71-116 | with a clock that never goes back nobody has live rows of more than twenty families |
| RefreshTokenService.TokenTable.RevokeRows | apps/api/src/auth/refresh-token.service.ts:218-221 | the update of many rows revokes exactly the rows in scope that are not revoked yet and leaves all else as it was |
| RefreshTokenService.TokenTable.RevokeFamily | apps/api/src/auth/refresh-token.service.ts:280-285 | exactly the user's unrevoked rows of the family get the present instant, every other row and field stays; a foreign family id revokes nothing |
| RefreshTokenService.TokenTable.RevokeAllForUser | apps/api/src/auth/refresh-token.service.ts:289-294 | exactly the user's unrevoked rows get the present instant, every other row and field stays |
| RefreshTokenService.TokenTable.RevokeAllExceptFamily | apps/api/src/auth/refresh-token.service.ts:298-303 | exactly the user's unrevoked rows outside the spared family get the present instant, every other row and field stays |
| RefreshRuns.AlwaysSound | apps/api/src/auth/refresh-token.service.ts:131-232 | every reachable family is one chain from its login row, its rows share user and end, and all or none are revoked |
| RefreshRuns.AtMostOneSuccessor | apps/api/src/auth/refresh-token.service.ts:186-202 | a token never has two successors, and its successor is younger and of its family |
| RefreshRuns.AnswersByPlace | packages/core-domain/src/auth/reuse-decision.ts:94-122 | what a presented token gets follows from its place in its family alone |
| RefreshRuns.RotateByPlace | packages/core-domain/src/auth/reuse-decision.ts:94-122 | before the family ends, a revoked token, or an unexpired one rotated away that is not the immediate predecessor within 60 s, revokes the whole family |
| RefreshRuns.RotateEffect | apps/api/src/auth/refresh-token.service.ts:186-228 | a rotation appends one row to the chain, a reuse revokes all of it, anything else changes nothing |
| RefreshRuns.RevokedForGood | apps/api/src/auth/refresh-token.service.ts:215-228 | a revoked family stays revoked, gains no row and never rotates, in every continuation |
| RefreshRuns.FamilyEnd | packages/core-domain/src/auth/token-lifetime.ts:25-27 | the end set at login is the end of every later row of the family |
| RefreshRuns.NoLateRotation | apps/api/src/auth/refresh-token.service.ts:199-199 | no rotation succeeds 90 days or more after the login |
| RefreshRace.WaitingKeepsUniform | apps/api/src/auth/refresh-token.service.ts:280-285 | a revocation that waited keeps a family all or none revoked if and only if no row joined it meanwhile |
| RefreshRace.WaitingKeepsLinear | apps/api/src/auth/refresh-token.service.ts:139-202 | however long it waited, every family stays one chain |
| RefreshRace.SuccessorIsMissed | apps/api/src/auth/refresh-token.service.ts:139-202 | in every sound table, a revocation that waits for a rotation leaves the successor unrevoked, and it still rotates |
| RefreshCap.LiveFamilies | apps/api/src/auth/refresh-token.service.ts:73-81 | a family counts exactly when one of its rows is live |
| RefreshCap.EarliestOfFamily | apps/api/src/auth/refresh-token.service.ts:82-88 | the key a family is evicted by is the earliest creation among its live rows, no more |
| RefreshCap.KeyIsLoginTime | packages/core-domain/src/auth/token-lifetime.ts:33-44 | that key is the login's creation if and only if the login row itself is live |
| RefreshCap.EvictionKeyAlong | apps/api/src/auth/refresh-token.service.ts:82-88 | the same in every run in which the database's clock moves on between two insertions |
| RefreshCap.LongSessionLooksYoung | apps/api/src/auth/refresh-token.service.ts:82-88 | a session of day 0, rotated on day 59, has the key of day 59 on day 61 |
| RefreshCap.EvictionMakesRoom | apps/api/src/auth/refresh-token.service.ts:93-101 | evicting leaves fewer live families than the cap |
| RefreshCap.CapAlways | apps/api/src/auth/refresh-token.service.ts:71-116 | with a clock that never goes back no user ever has more than 20 live families, now or later |
| AuthClient.AuthModule.StartRefresh | apps/web/src/lib/auth-client.ts:175-181 | join the refresh under way or start one with the present cookie |
| AuthClient.AuthModule.ReceiveReply | apps/web/src/lib/auth-client.ts:226-247 | return, refresh, or give the session up |
| AuthClient.AuthModule.SettleRefresh | apps/web/src/lib/auth-client.ts:144-181 | the slot is freed and every waiter, no other request, resumes |
| AuthClient.SoleHolderIsNeverReused | apps/web/src/lib/auth-client.ts:144-181 | however many requests and page loads overlap, each request is sent at most twice, one refresh is on the wire, never a benign retry, and a reuse answer exactly when somebody else had revoked the unended family |
| AuthClient.RevokedElsewhereIsReused | apps/api/src/auth/refresh-token.service.ts:280-285 | after every login, a revocation by another session before the family ends makes the next refresh a reuse answer |
| AuthClient.ClientNeverRevokes | apps/api/src/auth/refresh-token.service.ts:186-232 | the client itself never causes its family to be revoked |
| AuthClient.SoleHolderRotatesOrExpires | apps/web/src/lib/auth-client.ts:226-247 | unless somebody else revokes the family, every refresh rotates or meets an ordinary expiry |
| AuthClientRuns.RequestLives | apps/web/src/lib/auth-client.ts:226-247 | in every run, what each event does to each request, and that no other event does anything to it |
| AuthClientRuns.WaiterFollowsRefresh | apps/web/src/lib/auth-client.ts:233-247 | whoever waits for a refresh waits until it settles, then is sent once more with the new token if the server rotated it, and otherwise gives the session up |
| AuthClientRuns.WhyExpired | apps/web/src/lib/auth-client.ts:233-245 | a request gives the session up only after its refresh failed or its second attempt was refused |
| AuthClientRuns.WhySentAgain | apps/web/src/lib/auth-client.ts:233-238 | a request is sent twice only after a refresh that it waited for gave a new token |
| AuthClientRuns.WhyReturned | apps/web/src/lib/auth-client.ts:226-247 | a caller gets a response only when the server answered that request |
| OrgScope.ScopedRows | packages/db/src/tenancy.ts:310-316 | a list is accepted exactly when each of its rows is, and row by row |
| OrgScopeAcceptance.WhereOutcomes | packages/db/src/tenancy.ts:349-364 | a filter is accepted if and only if it is missing, or an object whose tenant column is absent or provably the context's; it gets the column and keeps all else |
| OrgScopeAcceptance.RowOutcomes | packages/db/src/tenancy.ts:372-399 | the same for the data of a new row, which may name the tenant by column or by relation |
| OrgScopeAcceptance.RowsOutcomes | packages/db/src/tenancy.ts:310-316 | a list of new rows is accepted if and only if each of them is |
| OrgScopeAcceptance.UpdateOutcomes | packages/db/src/tenancy.ts:432-474 | update data is accepted if and only if it has no nested relation write and names no other tenant; it keeps all it says |
| OrgScopeAcceptance.ScopeOutcomes | packages/db/src/tenancy.ts:226-335 | every query: accepted or refused, and with which error, each with its exact condition on model, operation and arguments |
| OrgScopeAcceptance.MissingFilterIsAdded | packages/db/src/tenancy.ts:349-364 | a list, count or aggregate without a filter is sent with the tenant's |
| OrgScopeMeaning.ScopedWhereMeaning | packages/db/src/tenancy.ts:349-364 | a scoped filter holds of a row exactly when the row is the tenant's and the original filter holds, however deeply AND, OR and NOT nest |
| OrgScopeMeaning.GuardedDataMeaning | packages/db/src/tenancy.ts:432-474 | accepted update data changes the tenant's rows as the original does and moves none away |
| OrgScopeMeaning.ScopedDataMeaning | packages/db/src/tenancy.ts:372-399 | accepted create data makes a row of the tenant, wherever it is created |
| OrgScopeMeaning.LocatedConfined | packages/db/src/tenancy.ts:287-307 | the main theorem for reads, updates and deletes |
| OrgScopeMeaning.CreateManyConfined | packages/db/src/tenancy.ts:310-316 | the main theorem for bulk creates |
| OrgScopeMeaning.UpsertConfined | packages/db/src/tenancy.ts:318-335 | the main theorem for upserts, found or not |
| OrgScopeMeaning.ScopedQueryIsOwnQuery | packages/db/src/tenancy.ts:226-505 | for every accepted operation and arguments, sending the rewritten query to the whole table gives the answer and the rows of the original on the tenant's rows alone, and no other tenant's row is changed, removed or added |
| OrgScopeAcceptance.FittingQueryIsOwnQuery | packages/db/src/tenancy.ts:226-505 | the same with the exact condition on the arguments in the place of acceptance |
| OrgScopeMeaning.RewritingTwiceIsOnce | packages/db/src/tenancy.ts:226-505 | what was rewritten once is accepted again unchanged |
| ClientIp.ToGroups | apps/api/src/common/client-ip.ts:130-145 | the loop reads the parts one after the other, a dotted quad only at the end, and refuses more than eight groups |
| ClientIp.FormatIpv6 | apps/api/src/common/client-ip.ts:158-180 | the scan prints the text whose first longest zero run is compressed |
| ClientIp.FormatCompressesFirstLongestRun | apps/api/src/common/client-ip.ts:163-175 | no zero run is longer than the compressed one and none as long starts earlier |
| ClientIp.FirstLongestRunIsUnique | apps/api/src/common/client-ip.ts:171-174 | there is only one such run |
| AddressGrammar.HextetIsExact | apps/api/src/common/client-ip.ts:49-49 | a part without a dot is read if and only if it is one to four hexadecimal characters, as the sum of their places |
| AddressGrammar.QuadIsExact | apps/api/src/common/client-ip.ts:48-48 | a dotted quad is four numbers from 0 to 255 without leading zeros, and two groups of two octets each |
| AddressGrammar.PaddedHextetIsRead | apps/api/src/common/client-ip.ts:141-142 | leading zeros up to four characters do not change a group |
| AddressGrammar.HextetIsPadded | apps/api/src/common/client-ip.ts:141-142 | and every part that is read is some zeros before the printed group |
| AddressGrammar.PartsAreExact | apps/api/src/common/client-ip.ts:130-145 | a list of parts is read as exactly the groups it spells, a quad at the end only |
| AddressTexts.ParseIsExact | apps/api/src/common/client-ip.ts:105-145 | the reader accepts exactly the texts of an address, spelled as the grammar says, and gives that address |
| AddressTexts.ParseOfFormat | apps/api/src/common/client-ip.ts:105-180 | for every eight groups, reading the printed text gives them back |
| AddressTexts.FormatIsInjective | apps/api/src/common/client-ip.ts:158-180 | equal texts for equal addresses only |
| AddressTexts.GapIffTwoZeros | apps/api/src/common/client-ip.ts:176-179 | the printed text has a `::` if and only if two zero groups stand side by side |
| AddressTexts.QuadIsPrintedBack | apps/api/src/common/client-ip.ts:136-154 | reading a dotted quad into two groups and printing them gives the quad back |
| ClientIpBuckets.AddressBucketsByPrefix | apps/api/src/common/client-ip.ts:69-77 | any spelling of one IPv6 address and any of another share a bucket exactly when the first four groups agree |
| ClientIpBuckets.SameBucketIffSamePrefix | apps/api/src/common/client-ip.ts:62-78 | the same for texts with white space, brackets, port or zone around the address |
| ClientIpBuckets.PrefixKeyIsItsOwnKind | apps/api/src/common/client-ip.ts:75-77 | an IPv6 bucket is never an IPv4 address nor the shared bucket |
| ClientIpBuckets.MappedKeyIsIpv4 | apps/api/src/common/client-ip.ts:148-155 | an IPv4-mapped address gets the bucket of the IPv4 address in its last two groups |
| ClientIpBuckets.MappedAddressOfIpv4 | apps/api/src/common/client-ip.ts:57-73 | `::ffff:a.b.c.d` and `a.b.c.d` get one bucket, for every IPv4 address |
| ClientIpBuckets.SharedBucketIffUnreadable | apps/api/src/common/client-ip.ts:66-77 | for every text, the shared bucket exactly when it spells no IPv4 and no IPv6 address |
| ClientIpBuckets.Ipv4BucketIffIpv4 | apps/api/src/common/client-ip.ts:66-77 | for every text, an IPv4 bucket exactly for IPv4 addresses, those written in IPv6 included |
| ClientIpBuckets.KeyIsOfAddress | apps/api/src/common/client-ip.ts:62-66 | the bucket of a text is that of the address in it |
| ClientIpBuckets.SpaceIsIgnored | apps/api/src/common/client-ip.ts:63-64 | white space around a text does not change its bucket |
| ClientIpBuckets.EveryTextIsUnwrapped | apps/api/src/common/client-ip.ts:90-102 | every text is an address in brackets with or without a port, or four numbers before a port, or neither; and ends where its zone starts |
| ClientIpBuckets.EnvelopeIsExact | apps/api/src/common/client-ip.ts:90-102 | what is left of any text is the address so found |
| ClientIpBuckets.EnvelopeIsStripped | apps/api/src/common/client-ip.ts:90-102 | what is left of `[address%zone]:port` is the address, whether or not zone and port are there |
| ClientIpBuckets.EnvelopeIsIgnored | apps/api/src/common/client-ip.ts:62-102 | so brackets, zone and port do not change the bucket of an IPv6 address |
| ClientIpBuckets.PortIsIgnored | apps/api/src/common/client-ip.ts:51-98 | an IPv4 address is its own bucket, with or without a port |
| Cursor.ResolveLimit | apps/api/src/common/cursor.ts:84-95 | a limit below 1 is refused; otherwise the result is the limit asked for, 25 when none is, or the maximum where that is less |
| Cursor.PageSplitsWindow | apps/api/src/common/cursor.ts:102-110 | a page is the start of the window and the rest lies beyond the next cursor |
| Cursor.PageSize | apps/api/src/common/cursor.ts:102-110 | a page has as many rows as the limit allows and the window holds, and a next one if and only if rows are left |
| Cursor.FollowDescends | apps/api/src/orgs/members.service.ts:174-198 | rows shown while the table changes come in order, each at most once |
| Cursor.EveryStableRowOnce | apps/api/src/orgs/members.service.ts:174-217 | a row that matches throughout is shown, and once, whatever is inserted or deleted between pages |
| Cursor.FixedWalkEnds | apps/api/src/common/cursor.ts:102-110 | over fixed rows the walk reaches a page without a next cursor |
| Cursor.FixedWalkListsAll | apps/api/src/common/cursor.ts:102-110 | and shows exactly the matching rows in order |
| Throttle.ThrottleService.FailOpenIp | apps/api/src/auth/throttle.service.ts:116-138 | the bucket and the answer after one call |
| Throttle.BoundedInEveryWindow | apps/api/src/auth/throttle.service.ts:116-138 | at most twice the maximum less one is allowed in any closed interval of the window's length |
| Throttle.BoundIsAttained | apps/api/src/auth/throttle.service.ts:116-138 | in every bucket there are calls, on a clock that never goes back, for which that many are allowed |
| Throttle.RefusedOnlyWhenSpent | apps/api/src/auth/throttle.service.ts:116-138 | a call is refused only when the bucket was allowed its maximum within the last window |
| Throttle.WaitIsBounded | apps/api/src/auth/throttle.service.ts:130-137 | a refusal asks for a wait between one second and the window |
| Throttle.RefusedExactly | apps/api/src/auth/throttle.service.ts:116-138 | a call is refused if and only if twenty on its bucket came since the call that opened its window, where a call opens one when none did so in the five minutes before |
| Throttle.WaitIsLeast | apps/api/src/auth/throttle.service.ts:130-137 | the wait is the least whole number of seconds, at least one, that covers the rest of the window |
| Throttle.WaitingAsTold | apps/api/src/auth/throttle.service.ts:126-137 | waiting exactly so long suffices if and only if the rest of the window was no whole number of seconds |
| Throttle.BucketsAreIndependent | apps/api/src/auth/throttle.service.ts:116-138 | what a bucket allows depends on its own calls only |
| WeightedAverage.CostOutcomes | packages/core-domain/src/cost/weighted-average.ts:52-70 | negative units on hand or received are refused, and any other receipt keeps the value of the stock |
| WeightedAverage.AverageIsTotalOverUnits | packages/core-domain/src/cost/weighted-average.ts:52-70 | after any receipts the average is (opening value + total cost) / total units whenever there are units |
| WeightedAverage.OrderDoesNotMatter | packages/core-domain/src/cost/weighted-average.ts:52-70 | receipts in any order leave the same stock |
| WeightedAverage.AverageIsBetweenCosts | packages/core-domain/src/cost/weighted-average.ts:52-70 | the average lies between the smallest and the largest cost that carries units |

## Left out

- OrgServices.OrgTx.Accept: the account is looked up before the lock in the source; when it is unknown and the token is replaced in between, the source answers an internal error and the model an invalid invitation, and neither writes.
- HTTP, guards, capability checks at the route, DTOs, cookies, CSRF, events, logging and the shape of responses.
- Members and invitations: e-mail normalization, shape check and masking before the transaction; the lookup outside the transaction that names the organization of an invitation (any organization is allowed); listing, preview and their totals.
- The PostgreSQL and Prisma error codes: a lock timeout, a deadlock or a missing organization row is an abort that writes nothing. The partial unique index behind pending invitations is not needed and not assumed.
- Cryptography: a hash is a number, and presenting an unknown refresh token finds no row.
- Refresh tokens: `deviceId`, `lastUsedAt`, `resolveFamily` and the session list.
- The browser client outside refresh: paths that never refresh, the change-password classification of a 401, network failures of a refresh (the client of the theorem receives every response).
- OrgScopeMeaning.ScopedQueryIsOwnQuery: does not model unique-key errors, nested relation writes in create payloads, a nested to-many `set` in update data, rows of other models read through `include` or `select` (there is one table), the `cursor` argument, or raw SQL; data that names both the tenant column and the relation counts as naming the column, since Prisma refuses the pair.
- Models without a tenant are passed through by the rewriter untouched, so nothing is claimed of queries on them.
- ClientIp.ClientIpKey: lower-cases ASCII letters only; another character never makes a text readable, so no answer changes.
- Cursor: base64 and JSON of cursors, malformed cursors, and limits that are no integers (refused like those below 1).
- Throttle: the shared counters, account back-off and the escape to them; only the in-process limiter is modelled.
- WeightedAverage: decimal rounding; the arithmetic is over reals. Negative quantities are refused as in the source.
- User interface, mobile code, environment schema and seed data.
