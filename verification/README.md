# Billing and entitlement engine: a verified model

This project models the stateful core of an account, billing and product-access backend and proves what its parts promise
each other:

- the **entitlement engine** layers plan rows, subscription overrides and add-ons over every entitled subscription of a
  customer and caches the result in a versioned snapshot, with a change log and an outbox beside it;
- the **Stripe webhook processor** applies an at-least-once stream of events, with duplicates, failed attempts and operator
  replays, to subscriptions, invoices, payments, dunning cases, snapshots, outbox and sync health;
- the **transactional outbox** and the **notification queue** retry with capped exponential waits;
- the **discount ledger** and the **credit-note numbers** keep counters in step with append-only rows;
- the **product-access meter** decides from overrides, entitlements and usage, and records in a separate step;
- **role grants** and **scope strings** are small algebras that the rest of the system leans on.

Rows are datatypes, and each table or object that is updated in place is a class whose methods are proved equal to functions
on the state; the theorems are about those functions and about all runs of them. Transactions that raise change nothing,
except that the webhook processor catches inside its transaction, so what was written before the exception stays.

| file | content |
|---|---|
| `Prelude`, `Text` | options and results; decimal numerals, splitting, sorting and stripping of strings |
| `Scopes`, `Rbac`, `CreditNotes`, `Discounts` | the small protocols, each with its invariant |
| `Catalog`, `Subscriptions`, `Entitlements` | catalogue rows, subscription rows and their local changes, the entitlement computation |
| `Usage`, `ProductCatalog`, `ProductAccess`, `QuotaMachine`, `Metering` | usage rows, action rules, the decision, the abstract meter, the meter with the real decision |
| `RowValues`, `CalendarUsage`, `OverrideEffects`, `ChangeEffects`, `ProviderEffects` | what the other modules' functions mean, in terms of columns, dates, texts and amounts alone |
| `Backoff`, `DueOrder`, `Outbox`, `OutboxWorkers`, `Notifications` | retry times, queries for due rows, the sequential dispatcher, concurrent workers, deliveries |
| `BillingState`, `Webhooks`, `BillingRuns` | all billing tables, the webhook processor, runs of every kind of step |
| `ExactlyOnce`, `CacheCoherence`, `ChangeHistory`, `SyncHealth`, `DunningCases` | one theorem over runs each |
| `OverlappingCalls`, `SnapshotRaces`, `VersionRaces`, `NumberRaces` | webhook calls, changes and recalculations, logged recalculations and credit notes that overlap |
| `BillingDatabase` | the same tables as an object, every service a method that changes it in place |

## What the proofs show about the code

- `EntitlementSnapshot.payload` (billing/models.py:857) is a JSON column without an encoder for datetimes, while the payload
  carries `current_period_end` (billing/services.py:66). Saving a snapshot therefore raises as soon as an entitled
  subscription has a period end, and a webhook for such a customer ends FAILED (`Webhooks.PeriodEndBlocksSnapshot`). The
  state has a switch, `encodesDates`, that is false for the code as it is; all theorems about runs hold for both values.
- The documentation offers grace-period extensions for past-due customers (docs/SUBSCRIPTION_OPERATIONS.md:14), but the query
  in `active_subscriptions_for_customer` (billing/services.py:48-51) drops PAST_DUE rows before the grace period is looked
  at. The model follows the code: an extension changes no payload (`Entitlements.GraceExtensionChangesNoPayload`), and the
  rows that lose what they are promised are exactly the past-due ones within their grace period
  (`Subscriptions.GraceIsLostExactlyWhilePastDue`, `Subscriptions.ExtendedGraceIsIgnored`).
- `redeem_discount` looks for an earlier row with the same key only after the code has passed validation, so the retry of the
  last redemption under a cap raises, and so does an earlier redeemer's once others have used up the cap. A retry of a request
  that is otherwise still good raises exactly when a cap has been reached by then (`Discounts.RetryRaisesExactlyAtCap`,
  `Discounts.RetriesAtTheCapRaise`).
- An override-free limit is the plan's quota plus the add-ons only as long as no direct key hides it
  (`ProductAccess.QuotaReadBack`, `ProductAccess.UnprefixedAddOnHidesPlanQuota`).
- Four steps of a sequential run can leave a wrong snapshot live: a manual grant, a new override, a Stripe subscription that
  changes customer, and a webhook attempt that writes a row and does not rebuild. Each has its exact condition
  (`CacheCoherence.GrantKeepsCacheExactly`, `OverrideKeepsCacheExactly`, `MoveKeepsCacheExactly`,
  `UnrebuiltAttemptKeepsCacheExactly`), and for every step of a run the condition is necessary and sufficient
  (`CacheCoherence.StepKeepsCacheExactly`, `RunKeepsCacheExactly`). With the JSON column as declared the last one needs no
  accident: an ordinary new subscription does it (`CacheCoherence.OrdinaryCreationLeavesStaleSnapshot`).
- `apply_subscription_change` commits the row before the invalidation, and a recalculation reads before it writes. Among these
  steps, a write with a row changed since its read and a death between the two commits can leave a wrong snapshot live with no
  invalidation to come, under exact conditions on the rows, and no other can (`SnapshotRaces.MoveKeepsGuardExactly`,
  `OvertakenWriteIsRightExactly`, `DeathAfterSaveIsRightExactly`). Add-ons, overrides, grants and webhooks are not among the
  steps that interleave there.
- Logged recalculations that overlap store one version twice, and the second change event is lost to its idempotency key
  (`VersionRaces.RunCorrespondsExactly`, `OverlapLosesAnEvent`). Credit notes that overlap are refused when overtaken, and a
  prefix edit in between can set the counter back so that no later note gets through (`NumberRaces`).
- The guard of `process_stripe_event` takes no lock on the webhook row. Overlapping retries announce an event once and apply
  it as often as they overlap, and a late failure turns PROCESSED back into FAILED (`OverlappingCalls`).
- A replay is marked REPLAYED even when the event it ran ended FAILED (`Webhooks.ReplayedExactly`), and the retry of a failed
  attempt counts the same failed payment again, which is the only way the count goes wrong
  (`DunningCases.CountGoesWrongExactlyAtRetries`, `RedeliveredFailureCountsTwice`).
- Two requests checked at the same time can together pass the quota, by exactly (k - 1) * Q at worst
  (`Metering.ConcurrentQuotaBound`, `Metering.QuotaBoundIsReached`).

## Model

Clocks, the outcome of delivery hooks and the points at which an exception is raised are parameters of the steps.

| member | source | states |
|---|---|---|
| `Scopes.ScopesRoundTrip` | accounts/service_credentials.py:35-44 | Parsing the stored form gives exactly the set of tokens of the input, for every string, and storing the stored form again changes nothing |
| `Scopes.CanonicalIffSameScopes` | accounts/service_credentials.py:39-44 | Two inputs are stored as the same string if and only if they name the same set of scopes |
| `Scopes.PrintedScopesAreCanonical` | accounts/tenancy.py:60-65 | Every strictly ascending list of words is its own stored form, and parses back to its elements |
| `Scopes.StoredTokensAscend` | accounts/tenancy.py:60-65 | Of two tokens of a stored form the first is smaller at the first character where they differ, or is a proper prefix |
| `Scopes.TokensSplitAtSpace` | accounts/service_credentials.py:35-44 | Any white-space character separates tokens: the tokens of a text are those before and those after it |
| `Scopes.ValidationDecides` | accounts/tenancy.py:60-65 | Validation fails if and only if some token is not allowed, the error names exactly those tokens, and an accepted string is stored within the allowed set and accepted again as it is |
| `Scopes.AcceptedByBothExactly` | accounts/service_credentials.py:39-44 | The validators of the two kinds of credential accept a string in common if and only if it asks for nothing but `users:read` and `audit:read`, and then store it alike |
| `Rbac.NormalizeIsIdempotent` | accounts/authorization.py:40-41 | A code normalised on the write path is left alone on the read path and holds no colon |
| `Rbac.SpellingDoesNotMatter` | accounts/authorization.py:40-41 | Trimmed codes of one length are one code if and only if they differ only in case and in colons for dots |
| `Rbac.WritePathKeepsCodesDistinct` | accounts/models.py:729-762 | Codes stored normalised, one policy per code and one grant per policy give one grant per normalised code |
| `Rbac.DeadGrantHasNoEffect` | accounts/authorization.py:47-55 | A grant whose policy is inactive, or whose expiry is now or past, has no effect on the result, wherever it stands |
| `Rbac.RolesAreNested` | accounts/authorization.py:44-45 | Each of the four roles has strictly more than the one below, and what only an owner has is deleting the organisation, managing billing and policies, and removing members |
| `Rbac.LastGrantWins` | accounts/authorization.py:52-60 | With no assumption on the rows: a code is granted if and only if the last live grant for it allows it, or there is none and the role's baseline has it |
| `Rbac.FoldIsSetExpression` | accounts/authorization.py:44-61 | With one grant per normalised code the ordered fold is (baseline + live allows) - live denies |
| `Rbac.GrantOrderIrrelevant` | accounts/authorization.py:47-60 | Then any two orders of the same grants give the same permissions |
| `Rbac.OrderMattersForUnnormalisedCodes` | accounts/authorization.py:56-60 | Why codes must be stored normalised: two stored codes with one normalised code make the result depend on the order of the rows |
| `Rbac.GetRolePermissions` | accounts/authorization.py:44-61 | The loop, with its early exits, computes the fold, hence the set expression under distinct codes |
| `Rbac.GetServicePermissions` | accounts/authorization.py:79-83 | A credential has a permission if and only if one of its stored scopes maps to it, in whatever order the set of scopes is visited |
| `Rbac.TenantScopesAreTheGrantingOnes` | accounts/authorization.py:79-83 | The scopes a tenant credential may store are exactly those that grant some permission |
| `Rbac.StoredScopesGrant` | accounts/tenancy.py:60-65 | Every scope parsed from a validated tenant scope string was asked for and grants some permission |
| `CreditNotes.NumberTextIsInjective` | billing/services.py:216-223 | (prefix, n) to "prefix-%06d" is injective for all prefixes, dashes and digits included, and all n, a million and more included |
| `CreditNotes.NumeralIsSixWideOrMore` | billing/services.py:216-223 | After prefix and dash come six characters below a million, and otherwise as many as the number has digits |
| `CreditNotes.RunIsGapFree` | billing/services.py:216-248 | Over every run with prefix edits and other customers' notes in between, the k-th number issued to a customer carries the numeral first + k, and the counter is the next one |
| `CreditNotes.IssuedNumbersDistinct` | billing/services.py:227-248 | One customer's issued numbers are pairwise distinct and gap-free over every such run |
| `CreditNotes.RefusedExactlyByOthers` | billing/services.py:227-248 | When issues do not overlap, one is refused by the unique column if and only if another customer holds the very number: a customer never collides with itself |
| `NumberRaces.CollidesExactlyWithSameNumber` | billing/services.py:216-248 | When issues overlap, a customer collides with itself if and only if it has a note of the same prefix and numeral |
| `NumberRaces.NumbersStayDistinct` | billing/services.py:227-248 | The stored numbers stay pairwise distinct over every interleaving, prefix edits included |
| `NumberRaces.RefusedExactlyWhenOvertaken` | billing/services.py:216-223 | Over every interleaving without prefix edits the numbers stay gap-free, and a note is refused if and only if another customer holds its number or another note of the customer was stored since the number was formed |
| `NumberRaces.StaleNumberBlocksTheCounter` | billing/services.py:216-223 | A number formed before a prefix edit and stored after later notes sets the counter back, and every later note under the new prefix is refused, however often it is tried |
| `CreditNotes.BillingProfile.NextCustomerInvoiceNumber` | billing/services.py:216-223 | Returns the number of the current counter under the profile's prefix, or the fallback if it has none, and advances the counter by one |
| `CreditNotes.BillingProfile.IssueCreditNote` | billing/services.py:227-248 | Either a note with the reserved number is stored and the counter moves on, or the transaction leaves counter and notes alone |
| `Subscriptions.CountsChangesExactlyAtEnds` | billing/models.py:152-162 | A row's entitlement differs between two instants if and only if its trial end (inclusive) or period end (exclusive) lies between them, and time alone never brings it back |
| `Subscriptions.GraceIsLostExactlyWhilePastDue` | billing/services.py:48-51 | A row that calls itself entitled grants nothing if and only if it is past due within its grace period |
| `Subscriptions.ExtendedGraceIsIgnored` | billing/services.py:181-182 | The failing input: a past-due row with its grace period extended beyond t is entitled at t by its own account and is not counted |
| `Subscriptions.GraceExtensionCountsNothing` | billing/services.py:181-182 | EXTEND_GRACE moves no row, of whatever status, into or out of the rows that count |
| `Subscriptions.CancelledHistory` | billing/services.py:150-185 | After any history of local changes a cancelled row has a period end at or before the clock, and is TRIALING exactly by a trial extension after the last immediate cancellation |
| `Subscriptions.EntitledAfterCancelExactlyByTrial` | billing/services.py:150-185 | After CANCEL_NOW, through RESUME and EXTEND_GRACE alike, the row is entitled later if and only if a trial extension after the last CANCEL_NOW is still running |
| `Subscriptions.CancelIsFinalWithoutTrial` | billing/services.py:171-185 | No history without EXTEND_TRIAL makes a cancelled subscription entitled again |
| `Subscriptions.HistoryKeepsSeats` | billing/services.py:165-170 | quantity = seat_limit >= 1, the customer and the identity survive every history of local changes |
| `ChangeEffects.AppliedExactly` | billing/services.py:150-185 | A request is applied if and only if the subscription exists and the action is supported and has its target |
| `ChangeEffects.AppliedTouchesOneRow` | billing/services.py:150-200 | An applied request changes one row and takes one snapshot out of service, and nothing else |
| `ChangeEffects.PlanChangeGivesTargetPlan` | billing/services.py:156-161 | After CHANGE_PLAN the features are the columns of the overrides and else of the target plan's rows; overrides, add-ons, seats, status and ends stay, and no instant of entitlement changes |
| `ChangeEffects.QuantityChangeSetsSeats` | billing/services.py:162-166 | After CHANGE_QUANTITY quantity and seats are the target, and nothing else about the row changes |
| `ChangeEffects.CancelAtPeriodEndOnlyMarks` | billing/services.py:167-168 | CANCEL_AT_PERIOD_END sets the flag and moves no row into or out of those that count, at any instant |
| `ChangeEffects.CancelNowEndsTheRow` | billing/services.py:169-172 | After CANCEL_NOW the row counts for nobody at any instant, and its ends are dated |
| `ChangeEffects.ResumeCountsUntilPeriodEnd` | billing/services.py:173-177 | RESUME makes a cancelled, expired or paused row count exactly until its period end, and only clears the flag of any other |
| `ChangeEffects.TrialExtensionCountsThroughEnd` | billing/services.py:178-180 | EXTEND_TRIAL makes the row count exactly through the new end, or for good without one |
| `ChangeEffects.GraceExtensionWritesTheDate` | billing/services.py:181-182 | EXTEND_GRACE writes the date and nothing else |
| `ChangeEffects.GrantGivesPlan` | billing/services.py:76-97 | A manual grant adds one row of the plan in front, which counts exactly as its status and period end say |
| `Entitlements.OverridesBeatPlan` | billing/services.py:38-45 | Key by key: the subscription's override if there is one, else the plan's row, else no feature |
| `Entitlements.ScopeRoundTrip` | billing/services.py:69-71 | The feature key can be read back from the published key for every project code |
| `Entitlements.ScopedKeyIsInjective` | billing/services.py:69-71 | (project, key) to "project.key" is injective for dot-free project codes |
| `Entitlements.OldestSubscriptionWins` | billing/services.py:54-72 | A published key has the value of the oldest entitled subscription that publishes it, of whatever project |
| `Entitlements.MergeRefinesPerKey` | billing/services.py:356-369 | Merging the dictionary item by item is merging each key by itself: same values, and it raises if and only if the merge of some key raises |
| `Entitlements.IncrementsSum` | billing/services.py:362-364 | For a key of incremental integer items: base integer plus the sum of value times quantity, and it raises if and only if the base is a text that is no number |
| `Entitlements.BooleansDisjoin` | billing/services.py:365-366 | For a key of boolean items: the truth of the base or of any contribution |
| `Entitlements.BuiltQuota` | billing/services.py:398-405 | Integer feature of the payload: value of the oldest entitled publisher plus value times quantity over all active add-ons of all entitled subscriptions |
| `Entitlements.BuiltFlag` | billing/services.py:398-405 | Boolean feature of the payload: the oldest publisher's truth or that of any active add-on |
| `Entitlements.BuiltUntouched` | billing/services.py:398-405 | A key no active add-on names keeps the value of the oldest entitled publisher |
| `Entitlements.AbsentExactlyWhenUnpublished` | billing/services.py:398-405 | A key is missing from the payload if and only if no entitled subscription publishes it and no active add-on names it |
| `Entitlements.RowOrderIrrelevant` | billing/models.py:807-809 | The payload does not depend on the order in which plan rows, overrides and add-on items are returned, because (plan, key), (subscription, key) and (add-on, key) are unique |
| `RowValues.DecidingRowShows` | billing/models.py:205-210 | From the columns: a feature is true if and only if the flag stands in the override with its key, or in the plan row without one; it is the number of an integer row, null if and only if that is null, and the text of a text row |
| `RowValues.FeaturesComeFromRows` | billing/services.py:38-45 | A key is a feature of a subscription if and only if some override, or some plan row that no override replaces, has it |
| `RowValues.BuiltFromColumns` | billing/services.py:54-72 | A feature of the payload that no active add-on names holds what stands in the column of the deciding row of the oldest counted publisher |
| `RowValues.QuotaFromColumns` | billing/services.py:356-369 | With incremental integer items: the number in that row plus, item by item, the item's number times the attached quantity |
| `RowValues.FlagFromColumns` | billing/services.py:356-369 | With boolean items: the flag in that row or that of some item |
| `RowValues.ReplacedFromColumns` | billing/services.py:356-369 | A text or non-incremental integer item that comes last under a key replaces what was there: its column is the feature |
| `RowValues.ContributionsAreExactly` | billing/services.py:356-369 | Exactly the items of the active add-ons of the counted subscriptions take part, under the add-on's project and with the quantity of their attachment |
| `Entitlements.StaleExactlyWhenEndCrossed` | billing/services.py:398-405 | With the rows unchanged, the payload built at one instant is the one built later if and only if no trial or period end of the customer's subscriptions was crossed in between |
| `Entitlements.GraceExtensionChangesNoPayload` | billing/services.py:48-51 | A grace extension of any row changes no payload at any instant |
| `Entitlements.PastDueCustomersHaveNothing` | billing/services.py:48-51 | A customer whose rows are all past due gets an empty payload, grace period or not |
| `Entitlements.BuildEffectiveEntitlements` | billing/services.py:38-45 | The two loops compute the layering that OverridesBeatPlan describes |
| `Entitlements.BuildCustomerEntitlements` | billing/services.py:54-72 | The nested loops, in any order of a dictionary's keys, compute the entries and features that OldestSubscriptionWins describes |
| `Entitlements.MergeAddonEntitlements` | billing/services.py:356-369 | The loops over active add-ons and their items compute the ordered merge of MergeRefinesPerKey, stopping at the first item that raises |
| `Entitlements.BuildCustomerEntitlementsWithAddons` | billing/services.py:398-405 | The whole computation is the payload the lemmas above are about, or the exception of the first bad item |
| `ProductCatalog.RulesUseNaturalKeys` | business_rules/catalog.py:208-209 | Every action rule names features by natural keys "product.feature" of its own, dot-free product |
| `ProductCatalog.LimitsCountAsNamed` | business_rules/catalog.py:9-201 | A limit is counted per day, per month or in total as its name says |
| `ProductAccess.BeforeDotOfNaturalKey` | business_rules/services.py:80-88 | The second lookup of a natural key "P.x" of a dot-free P is under "P.P.x" |
| `ProductAccess.OnlyOwnProjectPublishes` | billing/services.py:68-71 | Under "P.P.x" only plans of project P publish, and they publish their natural key "P.x" |
| `ProductAccess.QuotaReadBack` | business_rules/services.py:80-88 | End to end: reading "P.x" back from the built payload gives oldest publisher plus add-on sum, if and only if no direct key hides it behind another value |
| `ProductAccess.UnprefixedAddOnHidesPlanQuota` | billing/services.py:360-364 | The condition is needed: an add-on item keyed "x" publishes the direct key "p.x", and the plan's 100 disappears behind the add-on's 50 |
| `ProductAccess.EnforcedLimitIsLayeredQuota` | business_rules/services.py:153-162 | Without a numeric LIMIT override, the limit a product rule enforces is the layered quota, if and only if no direct key hides it |
| `ProductAccess.FirstExistsIffAny` | business_rules/services.py:62-71 | The newest-first query finds an override of an effect if and only if some live override of that effect applies |
| `ProductAccess.FirstOverrideIsNewest` | business_rules/services.py:62-71 | For any entitlement key the query returns the applicable override of least position in the newest-first table, and nothing if and only if none applies |
| `ProductAccess.DecisionClosedForm` | business_rules/services.py:119-197 | Access is granted if and only if product, rule and customer exist, no DENY applies, an ALLOW applies or the required feature is truthy, and, where there is a limit rule, the limit is a number and ALLOW applies or used + quantity fits it |
| `ProductAccess.DecisionIsAntitone` | business_rules/services.py:91-182 | Asking for less after having used less never turns a grant into a refusal |
| `ProductAccess.DenyNeverGrantsAllowNeverRevokes` | business_rules/services.py:133-182 | Wherever it lands in the newest-first list, an added DENY never grants access and an added ALLOW never takes it away |
| `OverrideEffects.OthersAreIgnored` | business_rules/services.py:62-71 | An override that is inactive, expired, or about another subject, product, action or limit changes no answer, wherever it stands |
| `OverrideEffects.DeniedExactlyByDeny` | business_rules/services.py:138-142 | A known request is refused as denied if and only if a live DENY of its owner, product and action, or of every action, is in the table |
| `OverrideEffects.AllowLiftsFeatureAndQuota` | business_rules/services.py:144-182 | With a live ALLOW and no DENY the action is granted if and only if it has no limit or its limit is a number |
| `OverrideEffects.NewestLimitCaps` | business_rules/services.py:158-159 | The newest live LIMIT for the key is the limit when it carries a number, whatever the features say |
| `RowValues.FlagActionFromColumns` | business_rules/services.py:119-197 | End to end: without ALLOW and DENY a flag action is granted if and only if the flag stands in the deciding row of the oldest counted publisher, when no direct key hides it and no add-on names it |
| `RowValues.RemainingIsWhatIsLeft` | business_rules/services.py:164-182 | Without ALLOW, a further request is granted if and only if it fits into what the answer before called remaining |
| `Usage.PeriodsAreIntervals` | business_rules/services.py:24-32 | A day, month or total period that has been left never comes back |
| `CalendarUsage.KeysAgreeExactly` | business_rules/services.py:24-32 | Two instants have one key if and only if the periods are the same and the instants lie in one day, one month, or anywhere |
| `CalendarUsage.TotalIsUsedInPeriod` | business_rules/services.py:91-96 | For every history of requests: the total under the current key is what was recorded for the owner, product and action in the calendar day, month, or ever, each idempotency key counted once |
| `CalendarUsage.QuotaRefusesExactlyOverLimit` | business_rules/services.py:119-197 | Without ALLOW and DENY and with the required feature, a quota action is refused if and only if that sum of dated quantities and the request exceed the limit |
| `CalendarUsage.RecordingTwiceRecordsOnce` | business_rules/services.py:99-116 | A request with a key is recorded once, however often and whenever it is sent |
| `QuotaMachine.RunKeepsBound` | business_rules/serializers.py:41-57 | For any check that only looks at recorded usage: over every interleaving, recorded usage of each period, and that of the current one plus what is pending, is at most L + (k - 1) * Q |
| `QuotaMachine.BoundIsReached` | business_rules/serializers.py:41-57 | For every L, 1 <= Q <= L and k some interleaving of such checks records exactly L + (k - 1) * Q |
| `Metering.ConcurrentQuotaBound` | business_rules/serializers.py:33-58 | The same bound for the real decision: with at most k requests of a subject, product and action in flight, each of at most Q <= L, no ALLOW and limit L, usage of a period never exceeds L + (k - 1) * Q, overrides and features changing freely otherwise |
| `Metering.SequentialQuotaIsExact` | business_rules/serializers.py:33-58 | One request at a time: usage of every period stays within the limit |
| `Metering.QuotaBoundIsReached` | business_rules/serializers.py:41-57 | The overshoot is real: for every L, 1 <= Q <= L and k some run of the typing quota records exactly L + (k - 1) * Q in one day |
| `Metering.UninterruptedCall` | business_rules/serializers.py:33-58 | A call nothing interleaves with is a check step followed by its record step |
| `Metering.AccessService.RecordUsage` | business_rules/services.py:99-116 | A non-blank key already present, under whatever subject, returns its row and records nothing; otherwise one row is appended |
| `Metering.AccessService.CheckProductAccess` | business_rules/services.py:119-197 | The stepwise check answers the decision of DecisionClosedForm and leaves one decision row per answered check and none when `int()` raises |
| `Metering.AccessService.Save` | business_rules/serializers.py:33-58 | Check, then record only if allowed and asked to; the decision is on the usage before the call |
| `Backoff.TotalDelayClosedForm` | billing/services.py:474 | Sum of min(60, 2^i) minutes: 62 minutes for the first six attempts and an hour for each further one |
| `DueOrder.PickedIsEarliestFirst` | notifications/tasks.py:16 | The queries for due rows return distinct wanted rows in order of their next attempt, and pass one over only if the limit is used up by earlier ones |
| `Outbox.SelectionIsOldestFirst` | billing/services.py:451-460 | The claim is at most `limit` distinct due unheld rows in (next_attempt_at, created_at) order, and a due unheld row is passed over only if the limit is used up by earlier ones |
| `Outbox.DispatchRowByRow` | billing/services.py:462-477 | A round attempts each claimed row once, leaves every other row alone and never touches a message |
| `Outbox.AttemptedIsDueAgainExactly` | billing/services.py:462-477 | A delivered row is never due again; a refused one is due again exactly after its wait, if attempts are left |
| `Outbox.BillingOutbox.EnqueueEvent` | billing/services.py:427-440 | A non-blank key enqueues once per event type, and the row returned is the one already there or the new one |
| `Outbox.BillingOutbox.DispatchDue` | billing/services.py:443-478 | The loop computes the round of DispatchRowByRow on the claim of SelectionIsOldestFirst, for any behaviour of the delivery hook, and its counters are the claimed rows, those delivered and the rest |
| `OutboxWorkers.StepSafe` | billing/services.py:443-478 | Every step of the workers (claim with skip-locked, start a row, finish it either way, commit, roll back, a producer's insert) keeps the safety invariant |
| `OutboxWorkers.OutboxIsSafe` | billing/services.py:443-478 | Over every interleaving: no row is held by two workers, no committed row is PROCESSING or locked, attempts never pass max_attempts, and at most one commit per row enters DISPATCHED |
| `OutboxWorkers.DispatchedIsAbsorbing` | billing/services.py:451-456 | A DISPATCHED row is never changed again, whatever the workers do |
| `OutboxWorkers.CommitIsSequentialDispatch` | billing/services.py:443-478 | Isolation: a commit has the effect of the sequential loop run on the committed table for the claimed rows, whatever ran in between |
| `OutboxWorkers.AttemptsAreSpaced` | billing/services.py:471-474 | Over every interleaving the n-th committed attempt of a row comes at least the first n - 1 capped exponential waits after its first, and `attempts` counts them |
| `OutboxWorkers.RoundSpendsBudget` | billing/services.py:462-477 | A round lowers the attempts left in pending and failed rows by at least the number of rows it attempts |
| `OutboxWorkers.WorkersTerminate` | billing/services.py:443-478 | Without new rows, all workers together commit no more attempts than the budget they started with |
| `Notifications.DeliveryHistory` | notifications/services.py:126-149 | Over every history: FAILED implies attempts are left, DEAD that none is, SENT carries the time of its last attempt, and attempts keep their distance |
| `Notifications.AttemptedIsDueAgainExactly` | notifications/services.py:126-160 | An accepted or skipped delivery is never due again; a rejected one is due again exactly after its wait, if attempts are left |
| `Notifications.DeliveryAttemptsSpaced` | notifications/services.py:126-149 | Attempt n of a delivery comes at least the first n - 1 capped exponential waits after its first |
| `Notifications.FinalIsAbsorbing` | notifications/tasks.py:15-16 | SENT, DEAD and SKIPPED deliveries are never touched again |
| `Notifications.DeliveryTerminates` | notifications/tasks.py:15-21 | At most max_attempts visits find a delivery due, and after that many it is SENT, DEAD or SKIPPED |
| `Notifications.RoundLowersBudget` | notifications/tasks.py:15-21 | A round that takes at least one due row strictly lowers the attempts left in the table |
| `Notifications.NotificationDelivery.MarkDeliveryAttempt` | notifications/services.py:126-149 | One attempt recorded in place on the delivery of DeliveryHistory, and the time on the right field of its provider |
| `Notifications.NotificationDelivery.DispatchDelivery` | notifications/services.py:152-160 | A disabled adapter skips without counting an attempt; any other is one attempt |
| `Notifications.DueBatchIsDue` | notifications/tasks.py:16 | The selected batch is due, distinct, ordered by next attempt and within the limit, and a due row is passed over only if the limit is used up by rows no later than it |
| `Notifications.DispatchDueNotifications` | notifications/tasks.py:15-21 | Over the whole table: a batch that the query may return is attempted, each delivery once although deliveries may share providers, no other delivery is touched, and the count is the size of the batch |
| `Discounts.AmountsSplitExactlyUpTo100Percent` | billing/models.py:696-703 | Discount + final = original with 0 <= final <= original holds for all amounts if and only if a percent discount takes between 0 and 100 percent |
| `Discounts.LedgerInvariant` | billing/services.py:307-353 | In every reachable state each counter equals its ledger rows, no counter passes its cap, and there is at most one row per (customer, discount, key), blank key included |
| `Discounts.CountersAddUp` | billing/services.py:342-347 | Conservation: a discount's counter is its direct rows plus the counters of its promotion codes |
| `Discounts.LedgerAmountsSplit` | billing/services.py:327-341 | With every percent at most 100, all ledger rows ever written split their original amount |
| `Discounts.PercentTakesItsPart` | billing/models.py:696-703 | The row of a redemption at b basis points takes off exactly the whole cents of b / 10000 of the price, and leaves the rest, or nothing from 100 percent on |
| `Discounts.FixedTakesItsAmount` | billing/models.py:696-703 | A fixed discount leaves the price less its amount, and nothing when it is larger |
| `Discounts.FreeTakesEverything` | billing/models.py:696-703 | A free one leaves nothing to pay |
| `Discounts.LargerPercentLeavesLess` | billing/models.py:696-703 | Of two redemptions at one price the one of the larger percentage never leaves more to pay |
| `Discounts.RedeemedRowNamesRequest` | billing/services.py:327-341 | The row names the customer, the price with its amount, the key, and the discount or the promotion code and its discount |
| `Discounts.DiscountIsGoodInWindow` | billing/models.py:676-687 | An active discount below its cap is good from its start, inclusive, to its expiry, exclusive |
| `Discounts.PromotionIsGoodInWindow` | billing/models.py:727-736 | A promotion code is good while it is active, unexpired and below its cap and its discount is good |
| `Discounts.AppliesExactlyWhenListed` | billing/models.py:689-694 | A discount applies to a price if and only if each list of plans and projects it has names the price's |
| `Discounts.RetryReturnsRowExactlyWhileRedeemable` | billing/services.py:323-326 | Whatever requests come in between, a retry with the same key never changes anything, and returns the first row if and only if the code passes validation at that time |
| `Discounts.ValidatedExactlyBelowCaps` | billing/models.py:677-687 | Redemptions change nothing about validation but the caps: later a request passes if and only if it is good besides caps and no cap of its discount or promotion code has been reached |
| `Discounts.RetryRaisesExactlyAtCap` | billing/services.py:314-326 | Whatever requests come in between, the retry of a request that is still good besides caps raises NotRedeemable if and only if a cap has been reached by then, by itself or by others, and otherwise returns the first row |
| `Discounts.CapReachedByRows` | billing/services.py:342-347 | A cap has been reached if and only if the ledger holds as many rows of the discount or of the promotion code |
| `Discounts.RetriesAtTheCapRaise` | billing/services.py:314-326 | Two failing inputs: the only redemption under a cap of one, and a redemption followed by another customer's under a cap of two |
| `Discounts.DiscountService.Validate` | billing/services.py:310-322 | The checks in the source's order, with the source's exceptions |
| `Discounts.DiscountService.RedeemDiscount` | billing/services.py:307-353 | The in-place redemption computes the step of LedgerInvariant, and an integrity error leaves every table as it was |
| `BillingState.KeysAreInjective` | billing/services.py:552 | `entitlements:{customer}:{version}` never confuses two customers or two versions |
| `BillingState.ProcessedKeysAreInjective` | billing/webhooks.py:66 | `stripe:{event}:processed` never confuses two events, whatever the id holds, and is never blank |
| `BillingState.AttachingReplacesOne` | billing/services.py:373-395 | Attaching replaces exactly the attachment of that add-on and keeps one attachment per add-on, in code order |
| `Webhooks.HandlerFrame` | billing/webhooks.py:35-52 | A handler writes only the tables of its kind of event: snapshots, log, outbox, sync and webhook rows never, subscriptions only for subscription events, dunning only for failed payments |
| `ProviderEffects.UpsertLeavesTheRow` | billing/webhooks.py:107-141 | By the event's texts: the row has its customer, plan, price, seats and dates and the status of its text, and counts for that customer exactly until the period end when "active", through the trial end when "trialing", and for nobody at any instant otherwise |
| `ProviderEffects.UpsertLeavesARow` | billing/webhooks.py:107-141 | An upsert of a known customer at a known price never raises and leaves such a row |
| `ProviderEffects.UpsertKeepsOverrides` | billing/webhooks.py:124-140 | An update keeps the row's place, overrides, add-ons and grace period and every other row; a creation puts one row without any of them in front |
| `ProviderEffects.DeletionEndsTheRow` | billing/webhooks.py:144-152 | A deleted subscription counts for nobody at any instant, is dated by the event or the clock, and no other row changes |
| `ProviderEffects.InvoiceEventLeavesInvoice` | billing/webhooks.py:155-181 | An invoice event leaves its invoice with the event's amounts and dates and the status of its text, five texts each with its own, and changes no other |
| `ProviderEffects.FailedPaymentLeavesCase` | billing/webhooks.py:182-185 | A failed payment leaves an open dunning case of the invoice with the time of the failure and of the next attempt |
| `ProviderEffects.PaymentEventLeavesPayment` | billing/webhooks.py:188-212 | A payment event leaves its payment with the event's amount and the status that belongs to its type alone |
| `ProviderEffects.RefundMarksPayment` | billing/webhooks.py:215-223 | A refunded charge marks the payment it belongs to and keeps its amount and customer |
| `ProviderEffects.CheckoutEventMarksCheckout` | billing/webhooks.py:86-104 | A completed checkout is dated, an expired one is not, and both keep their customer |
| `ProviderEffects.StrangersChangeNothing` | billing/webhooks.py:82-141 | An event about an unknown customer, or without a handler, writes nothing |
| `ProviderEffects.SyncRemembersLastSuccess` | billing/services.py:481-503 | The cursor is the last event that succeeded, unless its id is blank; a failure keeps it and leaves its error |
| `Webhooks.RebuildableExactly` | billing/models.py:857 | A snapshot can be rebuilt if and only if the features can be merged and, the JSON column having no encoder for datetimes, no entitled subscription of the customer has a period end |
| `Webhooks.ProcessedExactly` | billing/webhooks.py:19-79 | Left to itself an event becomes PROCESSED if and only if its handler does not raise and the touched customer, if any, can be given a new snapshot |
| `Webhooks.PeriodEndBlocksSnapshot` | billing/webhooks.py:53-73 | With the column as declared, an event that leaves its customer an entitled subscription with a period end ends FAILED: the handler's writes stay, snapshot, log and outbox do not follow |
| `Webhooks.SuccessAnnounces` | billing/webhooks.py:60-66 | A processed event that touched a customer has its announcement in the outbox |
| `Webhooks.ReplayedExactly` | billing/services.py:515-530 | A replay is REPLAYED if and only if the provider has a processor and no exception leaves it; the event is PROCESSED afterwards if and only if it was before, or its handler and the new snapshot succeed |
| `Webhooks.OrdinaryCreationFails` | billing/webhooks.py:53-73 | With the column as declared, a new active subscription with a period end in the future is written, counts, and ends FAILED without a snapshot |
| `Webhooks.ReplayedDoesNotMeanProcessed` | billing/services.py:515-530 | Replaying that event is REPLAYED while the event ends FAILED once more, with no fault injected |
| `BillingRuns.LocalStepsFramed` | billing/services.py:150-200 | Local changes, recalculations, reads, grants, dunning closings and dispatch rounds never touch webhook rows, sync state, invoices, payments or checkouts, and each only its own tables |
| `BillingRuns.SeatsAlwaysMatchQuantity` | billing/webhooks.py:124-140 | quantity = seat_limit >= 1 for every row after every run of provider events and local steps |
| `BillingRuns.StripeIdsStayUnique` | billing/webhooks.py:124-126 | After every run one Stripe id names one row, although no constraint says so, so the lookup never raises MultipleObjectsReturned |
| `ExactlyOnce.DuplicatesHaveNoEffect` | billing/webhooks.py:26-34 | For every run with duplicates, failures and replays: removing all deliveries and replays of an id after its first PROCESSED one leaves every table the same |
| `ExactlyOnce.ProcessedExactlyAfterSuccess` | billing/webhooks.py:68-79 | An id is PROCESSED at the end of a run if and only if some step of the run succeeded on it |
| `ExactlyOnce.ProcessedIsAbsorbing` | billing/webhooks.py:33-34 | PROCESSED is never left |
| `ExactlyOnce.AtMostOneSuccess` | billing/webhooks.py:26-34 | Each id succeeds at most once in a run, whatever is delivered, fails or is replayed |
| `ExactlyOnce.RunKeepsUnique` | billing/services.py:427-440 | A non-blank key occurs at most once per event type in the outbox after every run |
| `ExactlyOnce.AtMostOneAnnouncement` | billing/webhooks.py:60-66 | Each id has at most one `billing.provider_event.processed` row after every run, failed attempts and replays included |
| `OverlappingCalls.LoneCallIsProcessEvent` | billing/webhooks.py:26-79 | A call that nothing overlaps is the atomic call of the sequential runs |
| `OverlappingCalls.AtMostOneAnnouncementOverlapping` | billing/webhooks.py:60-66 | However many calls of an event overlap behind the unlocked guard, it has at most one announcement |
| `OverlappingCalls.ProcessedIsLeftExactlyByLateFailure` | billing/webhooks.py:70-79 | PROCESSED is left if and only if a call of the same event, let in before the success, breaks after it |
| `OverlappingCalls.AppliedAtMostKTimes` | billing/webhooks.py:26-34 | With at most k calls of an event at work at a time and none of them breaking after a success, whatever else runs meanwhile, it is applied at most k times; with k = 1 at most once |
| `OverlappingCalls.OverlapAppliesTwice` | billing/webhooks.py:26-34 | Two overlapping retries of a paid invoice are both applied and leave two change-log rows |
| `CacheCoherence.CacheStaysCoherent` | billing/services.py:408-423 | A non-invalidated snapshot equals the slow computation at the instant it was calculated, after every run of webhooks, changes, attachments, overrides, recalculations and reads whose steps meet their exact condition |
| `CacheCoherence.ProcessKeepsCacheExactly` | billing/webhooks.py:19-79 | For every event, every ending of the attempt and every customer: the live snapshot stays right if and only if nothing is written, or it is rebuilt, or what it shows of the written row does not change |
| `CacheCoherence.UnrebuiltAttemptKeepsCacheExactly` | billing/webhooks.py:70-73 | An attempt that writes and ends without a rebuild, by a fault or because the payload cannot be computed or stored, keeps the cache right if and only if no live snapshot shows the written row differently |
| `CacheCoherence.UnrebuiltCancellationKeepsCacheExactly` | billing/webhooks.py:144-152 | For a deletion: if and only if the cancelled row was not in its customer's live snapshot |
| `CacheCoherence.UnrebuiltUpsertKeepsCacheExactly` | billing/webhooks.py:107-141 | For a creation or update at a known price: if and only if a new row does not show, or a known row shows the same to its new owner and did not show to another |
| `CacheCoherence.OrdinaryCreationLeavesStaleSnapshot` | billing/webhooks.py:107-141 | The input the code really meets: with the column as declared, a new active subscription of a customer with a live snapshot leaves that snapshot wrong |
| `CacheCoherence.OverrideKeepsCacheExactly` | billing/views.py:103-105 | Adding a subscription override, which does not invalidate, keeps the customer's live snapshot right if and only if the subscription is not in it or grants the same value already |
| `CacheCoherence.StepKeepsCacheExactly` | billing/services.py:408-423 | For every step of a run and every customer, the live snapshot stays right if and only if the step's condition, checkable beforehand, holds |
| `CacheCoherence.RunKeepsCacheExactly` | billing/services.py:408-423 | A customer's live snapshot is right at every point of a run if and only if every step meets its condition |
| `CacheCoherence.ReadsAreFreshExactlyUntilNextEnd` | billing/views.py:506-512 | After such a run, what a read serves at t equals a fresh computation at t if and only if no trial end (inclusive) or period end (exclusive) of the customer's subscriptions was crossed since the snapshot was calculated |
| `CacheCoherence.GrantKeepsCacheExactly` | billing/services.py:76-97 | A manual grant, which does not invalidate, keeps all snapshots right if and only if the new row would not have counted when the customer's live snapshot was calculated |
| `CacheCoherence.MoveKeepsCacheExactly` | billing/webhooks.py:107-141 | An update that moves a Stripe subscription to another customer keeps all snapshots right if and only if the row was not in the previous owner's live snapshot |
| `Entitlements.BuildEqualExactly` | billing/services.py:398-405 | Two states of the same rows with the same add-ons build one payload if and only if no row contributes anything else |
| `SnapshotRaces.RightExactlyWhenShownAsStored` | billing/services.py:408-423 | In every reachable state a live snapshot is right if and only if no row contributes anything else than it did when the snapshot's rows were read |
| `SnapshotRaces.OvertakenWriteIsRightExactly` | billing/services.py:408-423 | For every run of steps between the read and the write of a recalculation: the snapshot is right after the write if and only if no row contributes anything else at the write than at the read |
| `SnapshotRaces.UndisturbedWriteIsHarmless` | billing/services.py:408-423 | With nothing in between: if and only if no trial or period end was crossed, or an invalidation is still to come |
| `SnapshotRaces.DeathAfterSaveIsRightExactly` | billing/services.py:185-192 | A process that saves a change and dies before its invalidation leaves the snapshot right if and only if the saved row shows in it as the old one did |
| `SnapshotRaces.MoveKeepsGuardExactly` | billing/services.py:185-192 | Step by step: a stale live snapshot is about to be invalidated after a step if and only if the step is no write with a row changed since its read, and no death with a saved row that shows differently, except before another invalidation |
| `SnapshotRaces.RunKeepsGuardExactly` | billing/services.py:150-200 | The same over every interleaving |
| `SnapshotRaces.SettledIsRight` | billing/services.py:150-200 | An interleaving of harmless steps that has settled leaves the live snapshot right |
| `SnapshotRaces.OvertakenWriteLeavesStaleSnapshot` | billing/services.py:408-423 | The failing interleaving: read, cancel, invalidate, write; all calls have ended and the live snapshot still grants the subscription |
| `ChangeHistory.NextVersionIsNew` | billing/services.py:533-554 | The key of a change is always new, so the outbox never suppresses a real change |
| `ChangeHistory.LogAndOutboxAgree` | billing/services.py:533-554 | Over every run, per customer the announced versions strictly increase and never pass the snapshot's, and log rows and change events correspond one to one, in order |
| `ChangeHistory.RefsCorrespond` | billing/services.py:533-554 | What that correspondence means row by row: as many entries as log rows, and the k-th is the customer and reason of the k-th log row |
| `ChangeHistory.LogIsAChain` | billing/services.py:533-554 | If snapshots are rebuilt through the log only, each `previous_payload` is the customer's preceding `new_payload`, and the last one is the snapshot's payload |
| `ChangeHistory.UnloggedRecalculationBreaksChainExactly` | billing/services.py:408-423 | An unlogged recalculation keeps the snapshot at the end of the chain if and only if it rebuilds the payload that was there |
| `VersionRaces.LoneRecalculation` | billing/services.py:533-554 | A logged recalculation that nothing overlaps is the one of the sequential runs |
| `VersionRaces.FinishCorrespondsExactly` | billing/services.py:427-440 | In any state, a logged recalculation that finishes gets its change event if and only if its version has not been announced for its customer before |
| `VersionRaces.RunCorrespondsExactly` | billing/services.py:408-423 | Over every interleaving of logged recalculations, log rows and change events correspond one to one throughout if and only if none is overtaken by another one of its customer |
| `VersionRaces.OvertakenIsSuppressed` | billing/services.py:427-440 | An overtaken one leaves its log row without an event and stores a version that has been used |
| `VersionRaces.EventsNeverOutnumberLogRows` | billing/services.py:533-554 | What is left over every interleaving: at most one change event per log row |
| `VersionRaces.OverlapLosesAnEvent` | billing/services.py:408-423 | Two recalculations that read before either writes leave two log rows, one event and one new version |
| `SyncHealth.HealthIsTrailingStreak` | billing/services.py:481-503 | After every run from a fresh row `error_count` is the length of the trailing failure streak, and the status is HEALTHY for 0, DEGRADED for 1 or 2 and FAILING from 3 |
| `DunningCases.OpenCaseCountsFailures` | billing/services.py:293-304 | From an empty table, over every run: at most one open case per (customer, subscription, invoice), open if and only if a failure was written since the last closing, and it counts those failures |
| `DunningCases.FailuresAreDistinct` | billing/webhooks.py:155-185 | If no attempt fails after its dunning write, the counted event ids are distinct, and all are PROCESSED |
| `DunningCases.FailedAttemptsCountDistinctEvents` | billing/webhooks.py:155-185 | Then `failed_attempts` is the number of distinct payment-failed events handled for the debt since the case opened |
| `DunningCases.CountIsExactUnlessRepeated` | billing/services.py:293-304 | Over every run, `failed_attempts` is the number of distinct failed-payment events of the debt if and only if no event has written to the open case twice |
| `DunningCases.CountGoesWrongExactlyAtRetries` | billing/webhooks.py:70-73 | An exact count goes wrong at a step if and only if the step writes for an event that has written to the open case before, and that event's webhook row is then FAILED |
| `DunningCases.RetryCountsTwice` | billing/webhooks.py:70-73 | A failed payment delivered again after a failed attempt makes `failed_attempts` 2 for one event |
| `DunningCases.RedeliveredFailureCountsTwice` | billing/webhooks.py:155-185 | With no fault injected: with the column as declared, one failed payment of a customer with a running paid period is counted once for each delivery |
| `BillingDatabase.Database.EnqueueBillingOutboxEvent` | billing/services.py:427-440 | The step of the outbox that RunKeepsUnique is about, and the row that stands for the message, old or new |
| `BillingDatabase.Database.RecalculateEntitlementSnapshot` | billing/services.py:408-423 | Creates or updates the customer's one snapshot with the payload of the slow computation, the next version and no invalidation mark, or raises and leaves the row alone |
| `BillingDatabase.Database.RecalculateEntitlementSnapshotWithLog` | billing/services.py:533-554 | The logged recalculation of LoggedRecalculation: snapshot, one log row with both payloads, one change event |
| `BillingDatabase.Database.ReadSnapshot` | billing/views.py:506-512 | The read-through step that ReadsAreFreshExactlyUntilNextEnd is about |
| `BillingDatabase.Database.ApplySubscriptionChange` | billing/services.py:150-200 | The row, the invalidation and the APPLIED mark together, or an exception with the tables untouched |
| `BillingDatabase.Database.PostSubscriptionChange` | billing/views.py:282-292 | A change that raises is marked FAILED with no table changed, any other APPLIED |
| `BillingDatabase.Database.CreateSubscriptionEntitlement` | billing/views.py:103-105 | The override step of OverrideKeepsCacheExactly: one row per key, or an error with the tables untouched |
| `BillingDatabase.Database.OnSubscriptionUpsert` | billing/webhooks.py:107-141 | The upsert the run theorems are about, branch by branch: unknown customer, unknown price, known row, new row |
| `BillingDatabase.Database.OnInvoice` | billing/webhooks.py:155-185 | The invoice row and, for a failed payment, the dunning case; an exception in between leaves the invoice alone written |
| `BillingDatabase.Database.TryEvent` | billing/webhooks.py:37-67 | The try block stopped by an exception at any of its points: what was written before the exception stays |
| `BillingDatabase.Database.ProcessStripeEvent` | billing/webhooks.py:18-79 | The delivery step of DuplicatesHaveNoEffect and CacheStaysCoherent on the tables in place; an escaping exception rolls everything back |
| `BillingDatabase.Database.ReplayWebhookRequest` | billing/services.py:515-530 | The replay step of ReplayedExactly on the tables in place |

The methods of `BillingDatabase.Database` that have no row equal, field by field, the specification function that the run
theorems use for them.

## Left out

- HTTP views other than the two modelled, DRF field validation, URL tables, Django admin, Celery wiring and settings: plumbing.
- Stripe SDK calls and the provider-side half of a subscription change: foreign calls, taken to succeed.
- Password and key hashing, HMAC signatures, JWT, OAuth, PKCE, TOTP and passkeys, and the rejected-signature branch of the Stripe endpoint: cryptographic libraries.
- Audit logs, metadata, currencies, URLs, actors, failure texts of invoices and payments, and the metadata of access decisions: written and never read by what is modelled.
- Edits of catalogue rows, entitlements added to a plan or an add-on included: plans, prices and add-ons are values inside the rows that refer to them, so coherence of the cache is about unedited catalogues.
- Deletion of rows and SET_NULL, and admin edits of subscriptions, overrides, snapshots, dunning cases, outbox rows and discounts, except the resolving and cancelling of a dunning case.
- Several clock readings inside one call: each call or step has one instant; the outbox keeps the separate reading after the delivery hook.
- Microseconds: times are whole seconds, and the meter's clock has year, month, day and second.
- Discounts.AmountsSplitExactlyUpTo100Percent: percent amounts are the truncation of amount * basis points / 10000; the rounding of the floating-point product is not modelled.
- Texts for `int()` with underscores or non-ASCII digits: read as numbers by Python, as no numbers by the model.
- Rbac.NormalizeIsIdempotent: case mapping is the ASCII one; letters outside ASCII stay as they are.
- UUIDs: identities are natural numbers, and the customer's identity in an outbox key is its decimal numeral.
- Several invoices, payments or checkouts under one provider id: these tables are maps from the provider id, so MultipleObjectsReturned is modelled for subscriptions only.
- Malformed event payloads: an exception at any point of the processor is a fault of the step, not computed from the payload.
- BillingDatabase.Database.ApplySubscriptionChange: the saves of the row, of the snapshot mark and of the request are one step here; SnapshotRaces takes the row and the mark apart, with a death in between, and leaves out the request's own status.
- SnapshotRaces.MoveKeepsGuardExactly: add-on, override, grant and webhook steps are not among the moves; an add-on change would also alter what the row condition compares.
- VersionRaces.RunCorrespondsExactly: recalculations that are not logged are not among the moves.
- OverlappingCalls.AppliedAtMostKTimes: what a call does behind its guard is one step, so statements of two calls do not interleave.
- CreditNotes.IssuedNumbersDistinct: distinctness is per customer; two customers with one prefix can meet, and then the second insert is refused (RefusedExactlyByOthers).
- Plan codes in decisions, `product_access_summary`, and resolving a subject from ids or slugs: readers that add only easy members.
- `record_usage` and `usage_total_for_period` of the billing application, and its blank-key limitation: separate from the product-access meter.
- Refund review, account deletion, tax ids, billing profile defaults, customer creation: too few guards for run invariants.
- Notification templates, recipient selection, suppression lists and `enqueue_deliveries`: selection by attribute, no state machine.
- Lookups of service credentials and invitations: hash comparison and flag checks.
- The DISABLED sync status and sync rows of other resources: written by hand only.
- `seats_available`, the permission catalogue listing, enterprise SSO, compliance, data governance, developer platform, portals and fraud modules: single-assignment status changes or counting.
