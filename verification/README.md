# Verification of the micro-lending platform's core

A Dafny model of the platform's hardest logic, with proofs of what it promises. `dafny verify dfyconfig.toml` checks all of it. Each file is one module.

- **The tenant wall** (`TenantData`, `TenantReads`, `TenantGuard`, `TenantWrites`, `TenantEffects`, `TenantExact`, `TenantEdge`, `TenantLimits`). A database is a map of rows behind a schema that says how each model reaches its owner and which columns hold references. The guard rewrites or refuses every query; payloads nest to any depth. `TenantEffects` says exactly which payloads pass and what an accepted write does to the tenant's own rows, without the functions that carry it out. The invariant: a tenant's row refers only to rows of the same tenant and to ownerless rows. What the guard does not inspect of a payload is judged by a condition on the payload and the database before the call (`HarmlessOperation`); under it the wall holds, and for payloads with one nested write at each level it holds only then. Where that condition is to follow from the payload alone, or to be exact, the payload is one the database client's input types allow: nothing nested below a relation writes back along its inverse (`Accepted`). Beyond the wall such a payload can only go further away from it if the schema has no way back (`NoWayBack`); `TenantEdge` has the part of the application's schema where tenants' rows refer to the platform's catalogue, and shows that it has none.
- **Loan arithmetic** (`Reals`, `Calendar`, `RepaymentSchedule`, `ScheduleBounds`, `ScheduleTerms`, `EffectiveRate`, `RoundedRate`, `KeyFacts`). Money is whole cents, rates are reals, rounding is `floor(x + 1/2)`.
- **Sessions and second factor** (`Sessions`, `SecondFactor`, `Lockout`). Every database statement is one step; requests of any number of instances interleave freely. `Cardinality` counts what fits in a window.
- **Claims and webhooks** (`JobClaims`, `StripeWebhooks`). Leases under skewed clocks; events applied exactly once under redelivery and rollback.
- **Purge, approvals, encryption, one-time codes** (`PurgeBlockers`, `PurgeMeaning`, `PlatformControl`, `PlatformEffects`, `BlindIndex`, `EncryptionBackfill`, `DecryptedReads`, `BorrowerOtp`). Each approval handler is one atomic step. The cipher and the hash are any functions that keep the promises in `BlindIndex.Sound`; `SoundIsPossible` shows that the promises can be kept together.

What the application reads from the outside (clocks, random nonces and codes, whether a signature or a password matched, whether a transaction commits, what an abstract cipher returns) is a parameter of the step that reads it. Histories such as "which codes were accepted" are kept in the state beside the tables, so that theorems can speak of whole runs.

## Where the code and its documentation differ

The model follows the code.

- The guard's header says every query against a tenant-owned table is scoped to the caller's tenant or rejected. An `include` or a relation filter is not scoped: through an ownerless row (a platform catalogue that tenants' rows refer to) it can come back up to another tenant's rows. `ReadsRefineExactlyWithoutBridges` and `UniqueReadsRefineExactlyWithoutBridges` say exactly when reads refine, `SharedCatalogueIsABridge` gives a database of feature flags where they do not.
- "A nested `create` is checked like a top-level one": not for a model outside the wall, whose own nested writes are then not inspected. By what the client accepts and by the schema they do no harm to any tenant (`PlainOperationHoldsTheWall`, `EdgeHasNoWayBack`). A nested `update` of a catalogue row is let through likewise.
- The guard does not find the owner of an organisation named by a unique column other than its id, nor does it look at who else has to do with an ownerless row that a `connect` makes the tenant's. `TenantLimits` gives a payload for each, `TenantExact` says exactly when such a payload does harm.
- "A code within the step-up window": the window counts from the session's `mfaAt`, which is read after the code is accepted. `FreshMeansRecentCode` states the stretch, `WindowIsExactWithoutDelay` when there is none.
- The borrower portal's comment says no code can be tried more than `maxAttempts` times. With at most `c` requests holding a code at a time it holds of every run exactly when `c <= 1` (`AttemptsHoldExactlyWhenSerial`), and also whenever the phone has a single live code; signing in at most once holds exactly when `c <= 1` too (`OneSignInExactlyWhenSerial`). `InterleavedBounds` says what holds for every `c`.
- The grant service's comment says that an account created as a super-administrator is activated only by a second one's approval. But the users service reactivates any inactive account, and asks for neither an approval nor a recent code. `OneSuperMakesAnother` shows one super-administrator creating and activating a second alone; `BecomesSuperExactly` says that this and the execution of a grant are the only ways.
- The route that approves grants does not look at what a request is for. That ids of accounts and organisations never clash is what keeps the approval of a purge from promoting anybody (`PromotionsAreBacked`).
- Only Reactivate withdraws an organisation's erasure; an edit or a confirmed payment that sets ACTIVE leaves the erasure date (`ErasureStands`).
- Failed sign-ins lock an account after `maxFailedLogins`: with at most `c` requests in flight together, at most that many wrong credentials are compared in a lock period exactly when `c <= 1` (`LimitHoldsExactlyWhenSerial`); for every `c` it is `maxFailedLogins - 1 + c` (`ConcurrentRateBound`).
- A right password clears the failure counter before the second factor is asked for. So the limit counts afresh with each right password (`RateBoundPerSuccess`), and after each of them fewer wrong second-factor codes than the limit never lock the account (`RightPasswordsDefeatTheLock`).

## Model

| member | source | states |
|---|---|---|
| `TenantReads.ScopeMeansOwned` | apps/api/src/prisma/tenant-guard.ts:379-384 | the filter the guard merges in holds of a row exactly when the tenant owns it, through its parent where the model is scoped by one |
| `TenantReads.GuardedReadRefines` | apps/api/src/prisma/tenant-guard.ts:685-694 | a find, count, aggregate or bulk selection whose relations are followed only from owned rows equals the caller's own query on the database with all other tenants' rows removed, kept to the caller's rows, includes and relation filters at any depth |
| `TenantReads.GuardedUniqueRefines` | apps/api/src/prisma/tenant-guard.ts:709-746 | a unique read, by any unique columns and with includes followed only from owned rows, hands back exactly the row the same read finds on the restricted database among the caller's rows, shows the same below it, and hands back nothing otherwise |
| `TenantReads.ReadsRefineExactlyWithoutBridges` | apps/api/src/prisma/tenant-guard.ts:685-694 | every guarded find, count, aggregate and bulk selection on a database refines if and only if no chain of relations leads from a row of the tenant to another tenant's row |
| `TenantReads.UniqueReadsRefineExactlyWithoutBridges` | apps/api/src/prisma/tenant-guard.ts:709-746 | the same of unique reads, by any unique columns and with any includes |
| `TenantReads.SharedCatalogueIsABridge` | apps/api/src/prisma/tenant-guard.ts:685-746 | a database that keeps the invariant, where the rules of two tenants refer to one feature flag, and neither kind of guarded read refines |
| `TenantGuard.AssertScalars` | apps/api/src/prisma/tenant-guard.ts:518-558 | the loop over scalar foreign keys, with its memo of looked-up owners, accepts a payload exactly when no key names another tenant's row |
| `TenantGuard.AssertNested` | apps/api/src/prisma/tenant-guard.ts:539-582 | the loop over nested writes, which shares the memo, accepts exactly connects to nothing foreign, creates that are allowed themselves, and no other nested action on a guarded model |
| `TenantGuard.AssertCreatePayload` | apps/api/src/prisma/tenant-guard.ts:585-630 | a create payload is accepted exactly when it and everything nested in it may be created, and then carries the tenant's id at every level that needs one |
| `TenantEffects.AllowedExactly` | apps/api/src/prisma/tenant-guard.ts:518-630 | an update or create payload is allowed if and only if, at every level it reaches behind the wall through nested creates, no key, `connect` or tenant id names what is another tenant's, no organisation is created, and nothing guarded is acted on but by connecting or creating |
| `TenantWrites.OpKept` | apps/api/src/prisma/tenant-guard.ts:559-582 | one nested write, of any depth, whose uninspected references do no harm leaves every other tenant's row as it was, gives the tenant's rows only values they may hold, and leaves no directly owned row it makes without a tenant |
| `TenantWrites.CreateKept` | apps/api/src/prisma/tenant-guard.ts:585-630 | so does a whole create, inspected or not, with everything nested in it |
| `TenantWrites.GuardedOperationHoldsTheWall` | apps/api/src/prisma/tenant-guard.ts:696-789 | any one guarded operation whose uninspected references name only rows that are not another tenant's (or ownerless ones that nobody else has to do with) keeps the invariant; no row of another tenant is changed, deleted, relinked or re-owned, and every row created in a directly owned model is the tenant's |
| `TenantWrites.PlainOperationHoldsTheWall` | apps/api/src/prisma/tenant-guard.ts:696-789 | so does every operation that the client accepts and of whose payload the guard sees all there is behind the wall, with any creates and updates beyond it and whatever the database holds, under a schema with no way back and whose cascades stay with their owner |
| `TenantWrites.RunHoldsTheWall` | apps/api/src/prisma/tenant-guard.ts:632-789 | over any run of harmless operations by any tenants, the rows of a tenant that made none of them are all there, unchanged and its own, and no other row has become its own |
| `TenantWrites.PlainRunHoldsTheWall` | apps/api/src/prisma/tenant-guard.ts:632-789 | and over any run of such operations, with no condition on the databases in between |
| `TenantEffects.UpdateManyExactly` | apps/api/src/prisma/tenant-guard.ts:685-694 | a bulk update gives the columns it names, and nothing else, to exactly the tenant's own rows that match the caller's filter, if its references are allowed and the database accepts the result; otherwise nothing changes |
| `TenantEffects.UpdateOneExactly` | apps/api/src/prisma/tenant-guard.ts:752-789 | the same for the one row of the tenant that a unique `where` names |
| `TenantEffects.CreateOneExactly` | apps/api/src/prisma/tenant-guard.ts:697-700 | a create of columns makes the one row it describes, with the tenant's id if directly owned, exactly when it is allowed, not there yet and accepted; otherwise nothing changes |
| `TenantEffects.CreateManyExactly` | apps/api/src/prisma/tenant-guard.ts:701-707 | a bulk create makes all the rows it describes or none |
| `TenantEffects.UpsertExactly` | apps/api/src/prisma/tenant-guard.ts:752-789 | an upsert is the update wherever a row is named, whoever owns it, and the create only where none is |
| `TenantEffects.DeleteManyExactly` | apps/api/src/prisma/tenant-guard.ts:685-694 | a bulk deletion removes the least set of rows that holds the tenant's own matching rows and all that cascades, clears the keys that are to be cleared, and changes nothing else; it is refused exactly when a row that stays forbids it or the database does |
| `TenantEffects.DeleteOneExactly` | apps/api/src/prisma/tenant-guard.ts:752-774 | the same for the one row of the tenant that a unique `where` names |
| `TenantEffects.ConnectExactly` | apps/api/src/prisma/tenant-guard.ts:559-567 | a nested `connect` relates the row to the one named by the one key that holds the relation, and changes nothing if there is none |
| `TenantEffects.NestedCreateExactly` | apps/api/src/prisma/tenant-guard.ts:575-576 | a nested `create` makes the row it describes, with the tenant's id if directly owned, and relates the two |
| `TenantEffects.ConnectOrCreateExactly` | apps/api/src/prisma/tenant-guard.ts:568-574 | a nested `connectOrCreate` that passes is the `connect` where the row is there and the `create` where it is not |
| `TenantEffects.TouchExactly` | apps/api/src/prisma/tenant-guard.ts:559-564 | any other nested action sets rows beyond the wall and no other, and reaches none behind it |
| `TenantEffects.UpdateLands` | apps/api/src/prisma/tenant-guard.ts:752-789 | whatever is nested in it, to any depth, an update that takes place gives the row found every column of the payload that is no reference, and every row created below it its own; no other row of a guarded model has such a column changed |
| `TenantEffects.CreateOneLands` | apps/api/src/prisma/tenant-guard.ts:697-700 | the same of a create and everything nested in it |
| `TenantExact.UpdateIsExact` | apps/api/src/prisma/tenant-guard.ts:751-789 | for an update that client, guard and database accept, with one nested write at each level, to any depth, the invariant and the wall hold afterwards if and only if what the guard did not inspect of the payload was harmless before it |
| `TenantExact.CreateIsExact` | apps/api/src/prisma/tenant-guard.ts:696-707 | the same for a create |
| `TenantExact.ConnectIsExact` | apps/api/src/prisma/tenant-guard.ts:539-567 | an update that connects one row to another keeps the wall if and only if the other is not another tenant's and, should it have no owner and become the tenant's, nobody else has to do with it |
| `TenantExact.DeletionIsExact` | apps/api/src/prisma/tenant-guard.ts:685-694 | a deletion of the tenant's rows keeps the wall if and only if no row of another tenant refers, by a key that cascades or is cleared, to an ownerless row that goes along |
| `TenantWrites.CascadeSafeSparesOthers` | apps/api/src/prisma/tenant-guard.ts:685-694 | under a schema whose cascades stay with their owner no deletion of the tenant's rows reaches or alters another tenant's |
| `TenantEdge.EdgeHasNoWayBack` | apps/api/src/prisma/tenant-guard.ts:298-306 | what can be nested below a feature flag or a permission, the two catalogues that tenants' rows refer to, never leads back to a tenant's row, and nothing cascades but ownership |
| `TenantLimits.TenantNamedByAnotherColumnReowns` | apps/api/src/prisma/tenant-guard.ts:491-499 | a payload the client accepts that names an organisation by another unique column and hands it a row |
| `TenantLimits.NamedByAnotherColumnExactly` | apps/api/src/prisma/tenant-guard.ts:491-499 | naming an organisation that way does harm if and only if it is not the caller's own, an instance of the exact condition |
| `TenantLimits.ClaimingAnOwnerlessRowBreaksTheInvariant` | apps/api/src/prisma/tenant-guard.ts:539-547 | connecting an ownerless user makes it the tenant's while another tenant's audit log refers to it |
| `Calendar.MonthlyDatesIncrease` | packages/shared/src/formulas.ts:34-46 | monthly dates from one start are strictly increasing, consecutive ones 28 to 31 days apart |
| `Calendar.AddMonthsInTwoSteps` | packages/shared/src/formulas.ts:34-42 | adding a then b months is never later than adding a + b, and lands on the same day exactly when the month in between did not cut the day short, so always for start days up to 28 |
| `RepaymentSchedule.FlatSchedule` | packages/shared/src/formulas.ts:56-93 | the flat loop produces exactly the specified instalments |
| `RepaymentSchedule.ReducingSchedule` | packages/shared/src/formulas.ts:108-128 | the reducing-balance loop produces exactly the rows made from the running balance |
| `ScheduleTerms.CalculateRepaymentSchedule` | packages/shared/src/formulas.ts:48-132 | an empty schedule for no months or no principal, otherwise the schedule of the loan's terms |
| `ScheduleTerms.ScheduledExactlyByTerms` | packages/shared/src/formulas.ts:48-132 | the terms determine every line: of a reducing schedule, interest on the balance before it at a twelve-hundredth of the annual percentage, and principal the rest of the one instalment that pays the loan off exactly; of a flat one, equal shares, principal parts that sum to P and interest parts that sum to P times percentage times months over 1200, rounded once |
| `ScheduleTerms.RootIsTheAnnualPercentage` | packages/shared/src/formulas.ts:97-104 | the only rate at which the exact instalments are worth the loan is the one that, times twelve and a hundred, is its annual percentage |
| `ScheduleBounds.ReducingConserves` | packages/shared/src/formulas.ts:108-128 | principal parts sum to exactly P, each balance is what is left of it, and the last is zero |
| `ScheduleBounds.ReducingDrift` | packages/shared/src/formulas.ts:108-118 | before the last instalment the rounded balance is within 1 + q + ... + q^(k-1) cents of the exact one |
| `ScheduleBounds.ReducingLastInstalment` | packages/shared/src/formulas.ts:113-126 | the last instalment is within 1 + q + ... + q^(n-1) cents of the exact instalment |
| `ScheduleBounds.AnnuityPaysOff` | packages/shared/src/formulas.ts:97-104 | the annuity identity: the exact instalment brings the exact balance to zero after n months |
| `ScheduleBounds.ExactClosed` | packages/shared/src/formulas.ts:97-104 | the exact balance after k months is P q^k - EMI (1 + ... + q^(k-1)) |
| `ScheduleBounds.FlatConserves` | packages/shared/src/formulas.ts:56-93 | flat principal parts sum to exactly P, interest parts to the total interest rounded once, and every balance is P less the parts before it |
| `ScheduleBounds.FlatLastPart` | packages/shared/src/formulas.ts:73-79 | the last principal part is within (n - 1)/2 cents of P/n |
| `ScheduleBounds.FlatNeverNegative` | packages/shared/src/formulas.ts:63-83 | exactly when no part and no balance of a flat schedule is negative, and that P >= n(n - 1)/2 cents is enough |
| `RoundedRate.ReducingNeverNegative` | packages/shared/src/formulas.ts:97-128 | no part and no balance of a reducing schedule is negative if and only if the rounded balance before the last instalment is not, and it is not whenever the exact instalment is at least q + ... + q^(n-1) cents |
| `RoundedRate.RoundedRateIsNearNominal` | packages/shared/src/eir.ts:48-56 | any rate at which the rounded instalments of such a schedule are worth the loan differs from the nominal monthly one by at most n/2 cents over the loan |
| `ScheduleBounds.SmallLoanGoesNegative` | packages/shared/src/formulas.ts:63-83 | a small loan over many months whose flat schedule does go negative |
| `ScheduleBounds.DueDatesAreMonthly` | packages/shared/src/formulas.ts:85-87 | due dates of a schedule are strictly increasing, with gaps of 28 to 31 days |
| `EffectiveRate.NpvStrictlyDecreasing` | packages/shared/src/eir.ts:54-56 | for non-negative instalments, some positive, the net present value strictly decreases in the rate |
| `EffectiveRate.MonthlyIrr` | packages/shared/src/eir.ts:48-69 | the doubling loop stops with an upper end of at most 128 and the bisection ends within tolerance, or with the bracket halved 200 times around a sign change whenever the upper end has one |
| `EffectiveRate.BisectionFindsRoot` | packages/shared/src/eir.ts:61-69 | the answer has a value below the tolerance or lies within half the last bracket of the root |
| `EffectiveRate.AnnuityRateIsTheRoot` | packages/shared/src/eir.ts:48-56 | for the exact annuity with no fee the value is zero at the nominal monthly rate and nowhere else |
| `EffectiveRate.FeeRaisesTheRate` | packages/shared/src/eir.ts:72-76 | with any positive fee withheld the root, and the annual rate, is strictly above the nominal one |
| `EffectiveRate.FeeRaisesTheComputedRate` | packages/shared/src/eir.ts:48-69 | and so is the computed rate, up to half the last bracket, for a fee of at least the tolerance |
| `EffectiveRate.ComputeEir` | packages/shared/src/eir.ts:72-76 | the annual percentage is what twelve months' growth at a located root comes to, to the nearest hundredth, and zero where there is no cost |
| `KeyFacts.BuildKeyFacts` | packages/shared/src/eir.ts:78-99 | for the instalments of either schedule and fees in whole cents: the total repayable is the loan and the sum of its interest parts, the cost of credit that interest and the fees, the net amount the loan less the fees, each to the cent, and the average within half a cent; the rate is that of the located root for the net amount |
| `KeyFacts.ScheduleFacts` | packages/shared/src/eir.ts:81-83 | for either schedule, total repayable is the loan plus its interest parts, total interest exactly their sum, and the cost of credit adds the fees |
| `Sessions.RunKeepsInv` | apps/api/src/auth/auth.service.ts:999-1037 | under every interleaving each token has at most one successor, each sign-in's chain at most one unrevoked token, and every token keeps its sign-in's user, amr and mfaAt |
| `Sessions.RotationIsSafe` | apps/api/src/auth/auth.service.ts:999-1037 | read off any run from an empty table: one successor per token, one live token per sign-in, and every token descends from a sign-in whose user, amr and mfaAt it carries |
| `Sessions.LoserMintsNothing` | apps/api/src/auth/auth.service.ts:999-1022 | once one rotation of a token commits, no other request's rotation of it changes any token |
| `Sessions.RotatesExactly` | apps/api/src/auth/auth.service.ts:963-1037 | a rotation mints if and only if the token was there, unrevoked, unexpired, intact and admitted when its request presented it and is still unrevoked when the transaction commits; and exactly what it then changes |
| `Sessions.MintsOnlyForUsable` | apps/api/src/auth/auth.service.ts:963-1037 | over any run, every token a rotation makes replaces one that was unrevoked, unexpired, intact and admitted when the rotating request presented it |
| `Sessions.LiveExactlyUntilEnded` | apps/api/src/auth/auth.service.ts:904-1038 | over any run, a sign-in's token is live, with its own claims, if and only if nothing ended it: its own sign-out, its user's revocation, its expiry found out, or its rotation |
| `Sessions.RevokedForGood` | apps/api/src/auth/auth.service.ts:1000-1003 | a revoked token stays revoked |
| `Sessions.StaysSignedOut` | apps/api/src/auth/auth.service.ts:1366-1371 | a user with no live token gets none without signing in, whatever requests are in flight |
| `Sessions.ReuseEndsEverySession` | apps/api/src/auth/auth.service.ts:947-961 | presenting a token recorded as revoked leaves its user with no live token until the next sign-in |
| `Sessions.Tables.RefreshToken` | apps/api/src/auth/auth.service.ts:904-1038 | the handler run on its own: exactly when it rotates and when it refuses for each reason, and the whole table after each outcome |
| `SecondFactor.RunKeepsInv` | apps/api/src/auth/auth.service.ts:1289-1312 | under every interleaving no user and step is accepted twice, no challenge is redeemed twice, and second-factor sessions map injectively to accepted codes |
| `SecondFactor.CodesAndChallengesOnce` | apps/api/src/auth/auth.service.ts:1295-1312 | read off any run: steps of one user, redeemed challenges and codes of sessions are all distinct, and every second-factor session descends from one opened with a code of its own user |
| `SecondFactor.FreshMeansRecentCode` | apps/api/src/auth/mfa-policy.ts:36-44 | a session that passes the freshness check, however often refreshed, goes back to one accepted code of its user, at most the window old plus the request's own delay and twice the clock skew |
| `SecondFactor.FreshForTheWindow` | apps/api/src/auth/mfa-policy.ts:36-44 | a session opened with a code is fresh at once and for the window less the second its time is rounded down by, never once the window is over, and no other session is |
| `SecondFactor.WindowIsExactWithoutDelay` | apps/api/src/auth/mfa-policy.ts:40-43 | over any run, every session passes the freshness check only within the window of its code if and only if each one's grant read its clock no later than its code was accepted |
| `SecondFactor.SlowRequestOutlivesTheWindow` | apps/api/src/auth/auth.service.ts:837-893 | a run where a slow request opens a session that is fresh for longer than the window |
| `SecondFactor.SessionsAreARun` | apps/api/src/auth/auth.service.ts:837-893 | over any run, the sessions are those of a run of `Sessions` in which only a request that holds an accepted code signs in with a second factor, so what is proved there holds here |
| `SecondFactor.ChallengeOpenUntilRedeemed` | apps/api/src/auth/auth.service.ts:1273-1287 | over any run, a challenge keeps the user and the expiry it was issued with and is used up exactly when it has been redeemed |
| `SecondFactor.Tables.AcceptTotp` | apps/api/src/auth/auth.service.ts:1295-1312 | which of OK, INVALID and REPLAY a code gets, and that OK and nothing else claims its step |
| `SecondFactor.Tables.VerifyMfa` | apps/api/src/auth/auth.service.ts:650-745 | the challenge handler run on its own is its five statements; exactly when it succeeds, and the tables after it |
| `Lockout.RateBound` | apps/api/src/auth/auth.service.ts:1342-1364 | with no success in between, any half-open stretch of the lock period compares at most maxFailedLogins wrong credentials, across any number of locks running out |
| `Lockout.NoIncrementLost` | apps/api/src/auth/auth.service.ts:1342-1357 | under every interleaving the counter is the number of increments since it was last cleared |
| `Lockout.ConcurrentRateBound` | apps/api/src/auth/auth.service.ts:1342-1364 | from any state and however the statements interleave, with at most c requests in flight and no success any half-open stretch of the lock period compares at most maxFailedLogins - 1 + c wrong credentials |
| `Lockout.ConcurrentChecksExceedTheBound` | apps/api/src/auth/auth.service.ts:564-596 | for every policy, a run of at most two requests in flight in which a lock period compares maxFailedLogins + 1 |
| `Lockout.LimitHoldsExactlyWhenSerial` | apps/api/src/auth/auth.service.ts:1342-1364 | for every policy, every run from any state with at most c requests in flight and no success compares at most maxFailedLogins in any lock period if and only if c <= 1 |
| `Lockout.RateBoundPerSuccess` | apps/api/src/auth/auth.service.ts:610-619 | with k right credentials on the way, at most k + 1 times as many as without any |
| `Lockout.RightPasswordsDefeatTheLock` | apps/api/src/auth/auth.service.ts:610-619 | for every policy, right passwords with one wrong code fewer than the limit after each, one request at a time and in one instant, have any number of codes compared and never lock the account |
| `Lockout.HandlerIsTry` | apps/api/src/auth/auth.service.ts:1342-1364 | the serial step is the interleaved statements with nothing in between |
| `Lockout.LocksExactly` | apps/api/src/auth/auth.service.ts:1342-1364 | after exactly maxFailedLogins wrong credentials, and any more that come meanwhile, an open account is locked at a time if and only if that is before the last one's lock has run out; one fewer does not lock it |
| `Lockout.LockRunsOut` | apps/api/src/auth/auth.service.ts:1342-1364 | once a lock has run out a wrong credential is compared again and counts as the first |
| `Lockout.AccountRow.RecordFailedAttempt` | apps/api/src/auth/auth.service.ts:1342-1364 | the three statements on the row, its new count and whether it locks |
| `Lockout.AccountRow.TryCredential` | apps/api/src/auth/auth.service.ts:564-618 | a credential signs in exactly when it is right and no lock is still to run out, and then clears the row; a wrong one counts, and a locked account changes nothing |
| `JobClaims.LeasesOverlapAtMostSkew` | apps/api/src/prisma/job-claim.service.ts:60-82 | two different holders believe they hold one lease at the same true time for at most the clock skew |
| `JobClaims.InOrderIsTimely` | apps/api/src/prisma/job-claim.service.ts:60-82 | calls in order, with one lease length for each key, never ask for a lease to end sooner than before |
| `JobClaims.InOrderLeasesOverlapAtMostSkew` | apps/api/src/prisma/job-claim.service.ts:60-82 | so the bound holds of every run of such calls |
| `JobClaims.OneHolderAtATime` | apps/api/src/prisma/job-claim.service.ts:60-82 | with clocks that agree, never two at once |
| `JobClaims.SkewIsReached` | apps/api/src/prisma/job-claim.service.ts:68-79 | a run in which the overlap is the whole skew |
| `JobClaims.BeliefsExactly` | apps/api/src/prisma/job-claim.service.ts:60-107 | an instance believes in a lease from the call that took it until the end it asked for, by its own clock, or its own release of that key if sooner |
| `JobClaims.LeaseEndsExactly` | apps/api/src/prisma/job-claim.service.ts:60-82 | a lease once taken is had by another holder exactly when its time has run out by that holder's clock, however many ask in vain, and renewed by its own at any time |
| `JobClaims.ReleasedIsFree` | apps/api/src/prisma/job-claim.service.ts:99-107 | a lease its holder gives up can be taken at once by anybody |
| `JobClaims.RunOnceIsKept` | apps/api/src/prisma/job-claim.service.ts:76-79 | a run-once claim is never taken over by a lease, a release or another caller |
| `JobClaims.OnceIsWonOnce` | apps/api/src/prisma/job-claim.service.ts:44-54 | between prunes that reach it, a run-once claim is won at most once, by exactly the first caller of a free key |
| `JobClaims.ClaimTable.ClaimOnce` | apps/api/src/prisma/job-claim.service.ts:44-54 | the insert that does nothing on conflict, and its answer |
| `JobClaims.ClaimTable.TakeLease` | apps/api/src/prisma/job-claim.service.ts:60-82 | the upsert with its condition, and its answer |
| `JobClaims.ClaimTable.PruneRuns` | apps/api/src/prisma/job-claim.service.ts:88-96 | exactly the job's run-once claims made before the cut are deleted, and counted |
| `JobClaims.ClaimTable.ReleaseLease` | apps/api/src/prisma/job-claim.service.ts:99-107 | only the holder's own lease is given up |
| `StripeWebhooks.ExactlyOnce` | apps/api/src/billing/stripe-webhook.service.ts:103-137 | any deliveries with duplicates and failed attempts, mixed with reviews and edits, leave the organisations and the log as if each event id had been delivered once, where it first committed |
| `StripeWebhooks.RedeliveryReportsTheRecord` | apps/api/src/billing/stripe-webhook.service.ts:103-137 | a redelivery reports the recorded outcome and the recorded, truncated detail |
| `StripeWebhooks.NeverReactivates` | apps/api/src/billing/stripe-webhook.service.ts:306-345 | the only status edge of any run of deliveries is ACTIVE to SUSPENDED |
| `StripeWebhooks.CheckoutChangesOnlyTheBuyer` | apps/api/src/billing/stripe-webhook.service.ts:194-247 | a checkout changes an organisation if and only if it is paid, for it, by its own customer, for a catalogue plan, with no erasure pending; then plan and subscription and nothing else |
| `StripeWebhooks.StepEffect` | apps/api/src/billing/stripe-webhook.service.ts:194-345 | exactly what one delivery does to each organisation: its own checkout, its own cancellation, its own failed payment while active, or nothing |
| `StripeWebhooks.PlanIsTheLastSettled` | apps/api/src/billing/stripe-webhook.service.ts:194-304 | over any run of deliveries and reviews, an organisation's plan and subscription are those of its last own paid checkout or own cancellation, and the ones it had if there was none |
| `StripeWebhooks.SuspendedExactlyByDefault` | apps/api/src/billing/stripe-webhook.service.ts:306-345 | over any run, an active organisation ends suspended if and only if one of its own payments failed on the way |
| `StripeWebhooks.OutcomeTellsTheEffect` | apps/api/src/billing/stripe-webhook.service.ts:163-186 | ignored means unchanged, needs-review unchanged or plan recorded, processed at most the one named organisation changed |
| `StripeWebhooks.OutcomeExactly` | apps/api/src/billing/stripe-webhook.service.ts:194-345 | a first delivery reports and records: of a checkout PROCESSED exactly when some organisation may buy and is active, IGNORED exactly when it is unpaid or for nobody, NEEDS_REVIEW otherwise; of a cancellation PROCESSED, NEEDS_REVIEW or IGNORED by whether someone holds the subscription and there is a fallback tier; of a failed payment PROCESSED exactly when the first organisation with the customer is active, IGNORED otherwise |
| `StripeWebhooks.ReasonIsTrue` | apps/api/src/billing/stripe-webhook.service.ts:194-345 | the reason given, with the values it quotes, is true of the organisations before the event and of the one it is recorded for |
| `StripeWebhooks.Webhooks.ApplyEvent` | apps/api/src/billing/stripe-webhook.service.ts:103-161 | the transaction on the tables: claim the id, decide, record; what it decides is stated by `OutcomeExactly`, `ReasonIsTrue` and `StepEffect` |
| `StripeWebhooks.Webhooks.MarkEventReviewed` | apps/api/src/billing/stripe-webhook.service.ts:365-378 | only an event waiting for review is marked, once |
| `PurgeBlockers.FindBlockers` | apps/api/src/tenants/tenant-purge.service.ts:141-245 | the chained loops compute the declarative meaning: open customers, legal holds, the number of records still within retention and the last retention date, none exactly when the number is zero |
| `PurgeBlockers.NumbersDecide` | apps/api/src/tenants/tenant-purge.service.ts:247-259 | the reported numbers allow a purge exactly when nothing blocks it |
| `PurgeMeaning.AllowedMeans` | apps/api/src/tenants/tenant-purge.service.ts:141-245 | a purge is allowed if and only if no active document is held, no customer has an application or loan open, and no loan, customer or active document is within its period counted from its closing, from any contact with the customer, or from its filing |
| `PurgeMeaning.NumbersCount` | apps/api/src/tenants/tenant-purge.service.ts:141-245 | what each reported number counts, record by record, by literal statuses and dates |
| `PurgeMeaning.YearsExactly` | apps/api/src/lending/documents/document-rules.ts:44-60 | a period is that of the first rule of the type, or else of the category, or else seven years for what belongs to a loan and five for the rest |
| `PurgeBlockers.AllowedForGood` | apps/api/src/tenants/tenant-purge.service.ts:141-245 | with unchanged records, a purge allowed on one day is allowed on every later day |
| `PurgeBlockers.RetainUntilIsTheFirstDay` | apps/api/src/tenants/tenant-purge.service.ts:247-259 | once only retention blocks, the reported date is exactly the first day on which the purge is allowed |
| `PurgeBlockers.TextOrderIsDayOrder` | apps/api/src/tenants/tenant-purge.service.ts:142-144 | comparing dates as ten-character texts and as day numbers agrees up to the year 9999 |
| `PurgeBlockers.AddYearsIsAddMonths` | apps/api/src/lending/documents/document-rules.ts:62-68 | adding years is adding twelve times as many months, with 29 February rolled to the 28th |
| `PurgeBlockers.FindRuleIsFirst` | apps/api/src/lending/documents/document-rules.ts:44-60 | the rule that counts is the first of its scope and code, and none counts exactly when there is none |
| `PlatformControl.RunKeepsInv` | apps/api/src/platform-approvals/platform-approval.service.ts:44-178 | over any run nobody checks their own request, one request per action and subject is open, promotions map injectively to executed requests by two people or by one who was alone, and every purge is justified |
| `PlatformControl.PromotionsAreBacked` | apps/api/src/platform-approvals/superadmin-grant.service.ts:64-147 | read off any run in which no account has an organisation's id: promotions rest on distinct executed SUPERADMIN_GRANT requests for that account, each with a checker other than its maker, or made by a super-administrator who was the only active one |
| `PlatformControl.FinalForGood` | apps/api/src/platform-approvals/platform-approval.service.ts:121-178 | REJECTED, EXECUTED and CANCELLED are never left, and such a request never changes again |
| `PlatformControl.PurgeFollowsRemoval` | apps/api/src/tenants/tenant-purge.service.ts:423-445 | every purge follows, by the grace period, the last removal of its organisation with no reactivation in between, with an archive written since, an unexpired request for it that a second person approved, and numbers of blockers that, counted from any records on any day, mean that nothing blocked it |
| `PlatformControl.ErasedAtMeans` | apps/api/src/tenants/tenants.service.ts:324-345 | the erasure date in force is that of the last removal, with no reactivation after it |
| `PlatformControl.BecomesSuperExactly` | apps/api/src/users/users.service.ts:253-299 | a step makes an account an active super-administrator if and only if, before it, the guard of a grant's execution for it held (an approval by somebody else, or a request by a super-administrator who is alone), or it reactivates it, inactive with that role and no organisation, by another active super-administrator |
| `PlatformControl.SupersArePromotedOrRevived` | apps/api/src/platform-approvals/superadmin-grant.service.ts:64-179 | every super-administrator at the end of a run was one before, was promoted on the way, or was so reactivated on the way |
| `PlatformControl.OneSuperMakesAnother` | apps/api/src/users/users.service.ts:98-133 | with a second super-administrator active, one of them creates a third account and activates it alone: nobody was promoted and the request still waits |
| `PlatformControl.ErasureStands` | apps/api/src/tenants/tenants.service.ts:141-197 | over any run without a reactivation or purge of it, an organisation waiting to be erased still is, whatever edits and payments do to its status |
| `PlatformEffects.AccountsExactly` | apps/api/src/users/users.service.ts:98-299 | every way in which a step makes, changes or deletes an account, from the account's side, and that nothing else does |
| `PlatformEffects.TenantsExactly` | apps/api/src/tenants/tenants.service.ts:141-345 | the same of an organisation, and when an archive is written |
| `PlatformEffects.RequestsAreRaised` | apps/api/src/platform-approvals/platform-approval.service.ts:44-120 | exactly when a step raises a request, and with which maker, subject, status and expiry |
| `PlatformEffects.RequestsExactly` | apps/api/src/platform-approvals/platform-approval.service.ts:121-178 | every way in which a request that is there changes: decided, cancelled, carried out or lapsed |
| `PlatformControl.Platform.ReactivateUser` | apps/api/src/users/users.service.ts:253-299 | a suspended account is active again; a super-administrator is refused nothing but their own account |
| `PlatformControl.Platform.Approve` | apps/api/src/platform-approvals/superadmin-grant.service.ts:129-147 | the two transactions of an approval, and what each refusal leaves |
| `PlatformControl.Platform.RequestPromotion` | apps/api/src/platform-approvals/superadmin-grant.service.ts:40-122 | the request, executed at once exactly when no second super-administrator is active |
| `PlatformControl.Platform.DecideRequest` | apps/api/src/platform-approvals/platform-approval.service.ts:125-154 | only a pending, unexpired request of somebody else is decided |
| `PlatformControl.Platform.CancelRequest` | apps/api/src/platform-approvals/platform-approval.service.ts:157-168 | exactly the maker withdraws an open request |
| `PlatformControl.Platform.RequestTenantPurge` | apps/api/src/tenants/tenant-purge.service.ts:359-394 | a purge request is opened only past the grace period, with a current archive, no blockers and a possible second approver |
| `PlatformControl.Platform.RemoveTenant` | apps/api/src/tenants/tenants.service.ts:324-345 | the erasure request, which restarts the grace period |
| `PlatformControl.Platform.SetTenantStatus` | apps/api/src/tenants/tenants.service.ts:171-197 | reactivation withdraws the erasure; an unpaid organisation is not activated |
| `PlatformControl.Platform.PurgeTenant` | apps/api/src/tenants/tenant-purge.service.ts:423-476 | the purge with every condition checked again, and that a refusal changes nothing |
| `BlindIndex.WritesKeepAgreementExactlyWhenClean` | apps/api/src/prisma/prisma.service.ts:81-108 | a write keeps hash = blindIndex(decrypted field) on every agreeing row if and only if the value given is neither wrapped nor already looks sealed |
| `BlindIndex.RunKeepsAgreement` | apps/api/src/prisma/prisma.service.ts:99-108 | so does any run of clean creates, updates, upserts and bulk writes |
| `BlindIndex.TextsAreSealed` | apps/api/src/prisma/prisma.service.ts:85-98 | every text given for one of the four columns is stored sealed and opens to that text; an empty one, or one that looks sealed already, is stored as it is |
| `BlindIndex.InClearExactly` | apps/api/src/prisma/prisma.service.ts:85-98 | after a write a column holds a text in clear if and only if it was given one in the wrapped form, or held one and was not given any |
| `BlindIndex.RunKeepsSealed` | apps/api/src/prisma/prisma.service.ts:99-108 | over any run of creates, updates, upserts and bulk writes that wrap nothing, a column without texts in clear stays without |
| `BlindIndex.WritesTakeEffectExactly` | apps/api/src/prisma/prisma.service.ts:81-108 | a clean write does nothing if it would give two rows of an organisation one national id, however written; otherwise every row reads as it was given, and as before where it was not |
| `BlindIndex.LookupIsExact` | apps/api/src/borrowers/borrowers.service.ts:56-64 | a hash lookup returns exactly the rows whose normalised plaintext equals the normalised query |
| `BlindIndex.NormaliseTwice` | apps/api/src/common/field-crypto.ts:86-90 | normalising is idempotent for each kind, so either form of a query finds the same rows |
| `BlindIndex.StripDropsExactly` | apps/api/src/common/field-crypto.ts:86-90 | a normalised phone has no blanks, hyphens or brackets, and a text without any is left as it is |
| `BlindIndex.StripOfParts` | apps/api/src/common/field-crypto.ts:86-90 | it keeps its other characters in order |
| `BlindIndex.TrimCutsOnlySpace` | apps/api/src/common/field-crypto.ts:86-90 | trimming cuts blanks off both ends and nothing else |
| `BlindIndex.DroppedByCode` | apps/api/src/common/field-crypto.ts:86-90 | by code point, what counts as a blank (ECMA-262, sections 12.2 and 12.3) and what else a phone number drops |
| `BlindIndex.UpperByLetter` | apps/api/src/common/field-crypto.ts:86-90 | letters a to z become the capitals in their place, and nothing else changes |
| `BlindIndex.ReadsReturnWhatWasWritten` | apps/api/src/prisma/prisma.service.ts:24-39 | what is written in the clear is what is read back |
| `BlindIndex.Payload.Apply` | apps/api/src/prisma/prisma.service.ts:85-98 | the loop that rewrites one data object in place; what it stores is stated by `TextsAreSealed`, `InClearExactly` and `WritesKeepAgreementExactlyWhenClean` |
| `EncryptionBackfill.BorrowerTable.Backfill` | apps/api/src/scripts/encrypt-at-rest-backfill.ts:53-81 | the loop over borrower rows; it counts exactly the rows it changed and those it left with a text in clear |
| `EncryptionBackfill.BackfillPreservesReads` | apps/api/src/scripts/encrypt-at-rest-backfill.ts:56-81 | every decrypted value is preserved, whatever is skipped |
| `EncryptionBackfill.BackfillEstablishesIndex` | apps/api/src/scripts/encrypt-at-rest-backfill.ts:56-81 | afterwards every row agrees with its plaintext and holds no text in clear, except those whose national id another row of the organisation holds |
| `EncryptionBackfill.BackfillIsIdempotent` | apps/api/src/scripts/encrypt-at-rest-backfill.ts:1-7 | running it again changes nothing, whatever the nonces and the conflicts |
| `EncryptionBackfill.ConflictIsTheConstraint` | apps/api/src/scripts/encrypt-at-rest-backfill.ts:71-80 | a row is skipped exactly when encrypting it would break the uniqueness of national ids |
| `DecryptedReads.DecryptDeep` | apps/api/src/prisma/prisma.service.ts:24-39 | the in-place walk computes the recursive decryption |
| `DecryptedReads.ReadsOpenEverything` | apps/api/src/prisma/prisma.service.ts:22-39 | a result with any texts encrypted, at any depth, reads back as the original and nothing else changes |
| `BorrowerOtp.IssueBound` | apps/api/src/borrower-portal/borrower-auth.service.ts:47-83 | any half-open stretch of the window sends a phone at most maxPerWindow - 1 + 5 codes |
| `BorrowerOtp.SerialBounds` | apps/api/src/borrower-portal/borrower-auth.service.ts:100-134 | handled one at a time, each code is compared with at most maxAttempts guesses and signs in at most once |
| `BorrowerOtp.RedeemCountsEveryLiveCode` | apps/api/src/borrower-portal/borrower-auth.service.ts:104-126 | a guess costs every live code of the phone one attempt and touches no other phone |
| `BorrowerOtp.RightGuessUsesUpEveryCode` | apps/api/src/borrower-portal/borrower-auth.service.ts:127-134 | a right guess leaves no code of the phone live; a wrong one uses up and signs in nothing |
| `BorrowerOtp.EnteredExactly` | apps/api/src/borrower-portal/borrower-auth.service.ts:100-134 | which rows a guess costs an attempt, and which it uses up: the phone's, if and only if one that is unused, unexpired and has attempts left has the guessed code |
| `BorrowerOtp.AskedExactly` | apps/api/src/borrower-portal/borrower-auth.service.ts:47-83 | which rows a request adds, and that it adds none once the phone has had maxPerWindow in the window |
| `BorrowerOtp.RunKeepsAccounts` | apps/api/src/borrower-portal/borrower-auth.service.ts:116-126 | under every interleaving the comparisons of a code are its counted attempts and the ones nothing was counted for |
| `BorrowerOtp.InterleavedBounds` | apps/api/src/borrower-portal/borrower-auth.service.ts:100-134 | under every interleaving, a code that at most c requests hold at a time is compared with at most maxAttempts + c - 1 guesses and signs in at most c times |
| `BorrowerOtp.GuessBoundWhenAlone` | apps/api/src/borrower-portal/borrower-auth.service.ts:104-127 | with a single live code the guess bound survives every interleaving |
| `BorrowerOtp.TwoLiveCodesExceedTheBound` | apps/api/src/borrower-portal/borrower-auth.service.ts:116-127 | for every policy that lets a second code be sent, a run of two redemptions of a code in which it is compared once beyond its attempts |
| `BorrowerOtp.AttemptsHoldExactlyWhenSerial` | apps/api/src/borrower-portal/borrower-auth.service.ts:104-127 | for every such policy, every run in which at most c redemptions hold a code at a time compares it with at most maxAttempts guesses if and only if c <= 1 |
| `BorrowerOtp.OneCodeSignsInTwice` | apps/api/src/borrower-portal/borrower-auth.service.ts:127-134 | for every policy with a second attempt, a run of two redemptions in which one code signs in twice |
| `BorrowerOtp.OneSignInExactlyWhenSerial` | apps/api/src/borrower-portal/borrower-auth.service.ts:127-134 | for every such policy, every run in which at most c redemptions hold a code at a time signs in with it at most once if and only if c <= 1 |
| `BorrowerOtp.RedeemIsItsStatements` | apps/api/src/borrower-portal/borrower-auth.service.ts:100-134 | the serial handler is its statements with nothing in between |
| `BorrowerOtp.Portal.RequestOtp` | apps/api/src/borrower-portal/borrower-auth.service.ts:47-83 | the loop that creates one code per borrower, at most five, unless the phone has had enough |
| `BorrowerOtp.Portal.VerifyOtp` | apps/api/src/borrower-portal/borrower-auth.service.ts:100-134 | which borrower a guess signs in, and when it signs in nobody |

## Left out

- TenantReads.GuardedReadRefines: for queries that follow relations only from rows that certainly have an owner; without that condition the statement is false, and `ReadsRefineExactlyWithoutBridges` says when it holds.
- TenantWrites.GuardedOperationHoldsTheWall: for operations whose uninspected references are harmless; without that the statement is false, as `TenantLimits` shows, and `TenantExact` says when it holds.
- TenantExact.UpdateIsExact: the exact half is for payloads with one nested write at each level; among several a later one can undo what an earlier one did. That a harmless payload keeps the wall is proved of all of them.
- TenantExact.CreateIsExact: the same.
- TenantEffects.UpdateLands: says of columns that are no references; what several nested writes make of one another's reference columns is left to the order they run in (`ConnectExactly`, `NestedCreateExactly` and `ConnectOrCreateExactly` say it of one).
- TenantWrites.PlainOperationHoldsTheWall: without a condition on the database, so for payloads that name organisations by id and make an ownerless row the tenant's only where rows of its model always have an owner; `GuardedOperationHoldsTheWall` covers the rest.
- Sessions.StaysSignedOut: a rotation's transaction and revoke-all are each one step; the database's default isolation lets a rotation that began before a revoke-all add its successor after it.
- TenantGuard.AssertNested: a nested write the guard lets through beyond the wall sets rows there (`Touch`); nested deletes of catalogue rows are not modelled.
- Keys that cascade on update: rows whose composite (tenantId, id) key refers to a row that is re-owned would follow it.
- SecondFactor.FreshMeansRecentCode: the window is stretched by the request's delay, because that is what the code does.
- JobClaims.LeasesOverlapAtMostSkew: each clock is a constant offset from true time, and no instance asks for a lease to end sooner than it asked before (`InOrderIsTimely`); a shorter renewal would leave an earlier promise standing.
- Lockout.ConcurrentRateBound: the statements run in the order of the times they read.
- BorrowerOtp.IssueBound: each request counts and creates in one go; requests that count together can each create.
- PlatformControl.FinalForGood: with each handler atomic; `cancel` updates unconditionally after its check, so two handlers interleaved could leave a final status.
- PurgeBlockers.FindBlockers: the `examples` list, for the screen only, is not modelled; years are 100 to 9999.
- BlindIndex.NormaliseTwice: upper-casing covers the letters a to z; the rest of Unicode case mapping is not modelled.
- `{ set: ... }` wrappers on scalar columns of guarded payloads, implicit many-to-many relations, updates of primary keys, ordering and paging of results, the `warn` mode, calls without a tenant context, and models outside the wall as roots.
- Raw SQL, which the guard does not see, and row-level security in the database, a second wall behind the guard.
- IEEE doubles: sums of cents are exact here, so the branch against -0.00 does nothing; principals with fractions of a cent.
- Dates in years 0 to 99, which JavaScript moves to the twentieth century.
- A refresh token's stored hash is a flag saying whether the presented token matches it; a database failure while revoking all sessions, which the code swallows, is not modelled.
- Sign-in with Google and password reset, except as steps that open sessions or clear the failure counter.
- Which of several organisations a database returns first for one customer or subscription: rows come in a fixed order.
- Transactions of different webhook events that overlap in time: each is one step.
- The hash columns written by a caller, nested writes into borrowers from another model, and batch creates that return rows: the encrypting middleware does not see them.
- Blind-index columns of other models, the backfill of user, tenant and document columns, which have no index.
- Audit logging, e-mail, SMS, storage and payment gateways: they never feed back into the modelled state.
- Whether an actor holds the permission a route asks for, and whether the plan has a free seat: a parameter of the step. Branches, passwords and authenticator resets of staff.
- Plan quotas, provisioning, scorecards, currency conversion, ledger and the lending engine: not part of this model.
