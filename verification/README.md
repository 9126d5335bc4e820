# A verified model of a utility-billing platform

Dafny models of the parts of the repository whose correctness is hardest to see by reading one function, and
proofs about them.

- **Tenant isolation in the connection pool.** `TenantPool.dfy` is a state machine over any number of concurrent
  tasks and connections: checkout, `SET`/`RESET` with the memo tag, query, begin, transaction-local `set_config`,
  commit or rollback, release, destruction. Safety holds over every interleaving, and the memoised pool refines one
  that sends a `SET` before every use. `PooledClient.dfy` has the wrappers as imperative code on a client object,
  each proved to be a schedule of that machine, and the audit wrapper. `RequestPipeline.dfy` has the ambient scopes,
  the queue wrapper and the request hooks that establish a scope, and `HookOrders.dfy` proves over every order of those
  hooks which ones are safe and why two scope hooks are needed; `Identity.dfy` says whose identity a request gets.
- **Interval coverage, from scan to queue.** `IntervalCoverage.dfy` (cursor scan), `MissingReadings.dfy` (runs of
  missing values), `ExceptionGrouping.dfy` (one finding per meter, window and kind), `DataExceptions.dfy`
  (reconciliation and its three writes), `ExceptionRuns.dfy` (runs of nightly sweeps, whole or dying half way,
  interleaved with people's decisions), `CoverageSweep.dfy` (what a night reports, and the seed's hourly grid) and
  `DayFindings.dfy` and `NightlySweep.dfy` (the whole night, from a tenant's intervals to its queue).
- **Calendars.** `LocalDays.dfy` (local midnight in two passes, consecutive local-day windows) and
  `BillingCalendar.dfy` (Gregorian months and four implementations of the billing-cycle dates).
- **The ledger.** `Ledger.dfy` (entries, applications and what reconciliation means), `LadderRules.dfy` (which rules of
  the late-fee ladder charge) and `LedgerSeeds.dfy` (the ladder and the payment plan, on a ledger updated in place).
- **Two smaller cores.** `NumberGenerator.dfy` (templates, the 50-row batch and the retry loop) with `IssuedNumbers.dfy`
  (what it issues, and a table it alone has filled); `StabilizePdf.dfy` (the PDF normaliser) with `PdfRewrites.dfy` (the
  text it rewrites). `Common.dfy` holds what the models share.

Conventions: money is integer cents; instants are integer milliseconds; a date is its day number and a month is
12 * year + month; a time zone is a function from instants to offsets. A class stands for an object the code updates
in place; each of its methods is specified by a function or relation whose properties are proved as lemmas.

## Where the code differs from what it says

Each of these is a lemma or a contract below; the model follows the code.

- A platform connection does carry a tenant, in a transaction that has set one locally and only then
  (`PlatformStatementsExactly`). Auditing a change from a platform route does so (`PlatformAuditCarriesItsTenant`;
  packages/api/src/services/provisioning.service.ts:647-653). Its session value never is a tenant (`PoolSafe`).
- An audit joined to the caller's transaction leaves the rest of that transaction acting for the audited tenant
  (`AuditInCallersTransaction`).
- In production without NEXTAUTH_SECRET every token whose header does not say `alg: "none"`, a bare JSON blob included,
  is accepted unverified (`UnverifiedTokenIsServed`). packages/api/src/middleware/auth.ts:46-47 and 167-168, BR-TN-002
  (docs/specs/00-business-rules.md:180) and packages/api/src/config.ts:70-72, which names a runtime check that does not
  exist, promise otherwise. Only verified tokens are served exactly in production with a secret (`OnlyVerifiedExactly`).
- "Problems, in time order" fails for a row past the window's end that raises a problem of its own, and only then
  (`TimeOrderExactly`). The nightly sweep never passes such a row (`RowsInsideWindowAreInOrder`).
- Measured plus missing less double minutes is not the window when rows nest, and only then (`WindowInequality`,
  `NestedRowExample`).
- A meter that sends nothing for a whole day is not reported at all (`UnreportedExactlyWhenWholeOrSilent`).
- The sweep's writes carry no status guard, so a decision taken between its read and its writes is overwritten exactly
  when the sweep would have changed that row (`DecisionDuringSweep`, `OverwrittenDecisionExample`).
- A clock change that touches local midnight can put the found instant on the wrong side of its date; the exact
  condition is `ClearOfMidnight` (`MidnightBoundaryExact`, `FallBackOverMidnightExample`).
- `nextRunBillDate` does not clamp: it disagrees with the cycle's window for some bill days above 28, exactly as
  `NextRunBillDateAgreesExactly` says.
- The candidate is above every existing number exactly when fewer than 50 matching identifiers sort above one of the
  highest number, or `startAt` is above all (`NextExceedsExactly`). With mixed digit widths that can fail, and then every
  retry can try the same taken number (`MixedWidthsCollideForever`).
- The generator brings that about by itself. With the default `SA-{seq:4}` and nobody else writing it issues SA-0001 to
  SA-10000 in turn, and then every call, retried or not, tries SA-10000 again (`IssuesUpToItsLimitExactly`).
- "Every replacement preserves length" holds for dates, and for an id exactly when its whitespace is two characters
  (`IdKeepsLengthExactly`). Every byte moves by the drift before it (`BytesMoveByDrift`), so offsets are kept exactly
  where that is nothing (`OffsetsKeptExactly`, `TightIdMovesWhatFollows`).
- The ladder clamps a fee into the printing window from above only: a tier reached by the latest bill's date leaves a fee
  that prints on no coming bill (`FeesPrintExactly`, `FeeBehindLatestBillExample`).
- The payment plan's balance formula skips open credits; it equals the ladder's exactly when there is none
  (`BalanceFormulasAgreeExactly`, `OpenCreditExample`).

## Model

| member | source | states |
|---|---|---|
| TenantPool.StepKeepsInv | packages/api/src/lib/prisma.ts:99-145 | every step of every interleaving, failed `SET`s and destroyed connections included, keeps: a connection has at most one owner, of the role that owner's scope selects, and its tag is unset or true of its session setting |
| TenantPool.PoolSafe | packages/api/src/lib/prisma.ts:56-145 | after any schedule, every statement that ran saw what it should; idle connections carry no local setting and a session their tag tells the truth about; a held connection has its holder's role; platform sessions are empty |
| TenantPool.PlainQueriesCarryTheirTenant | packages/api/src/lib/prisma.ts:130-145 | under any interleaving a plain query runs with exactly its own task's tenant, or none, and on the platform role exactly when that task is in platform scope |
| TenantPool.TransactionStatementsExactly | packages/api/src/lib/prisma.ts:113-124 | a statement in a transaction carries its own task's tenant exactly when the value last set in that transaction, or failing one the opener's tenant, is that tenant |
| TenantPool.PlatformStatementsExactly | packages/api/src/lib/prisma.ts:42-58 | on a platform connection a statement carries a tenant exactly when it is in a transaction that has set a non-empty one locally |
| TenantPool.PlatformAuditCarriesItsTenant | packages/api/src/lib/audit-wrap.ts:98-126 | and that happens: for every request of a confirmed platform actor and every tenant, a schedule that starts with its handler runs the audit insert as that tenant on the platform role |
| TenantPool.ScopesAreFixed | packages/api/src/lib/tenant-context.ts:50-97 | no step of any run changes the scope a task was started in |
| TenantPool.QueriesCarryForTheirEntry | packages/api/src/lib/tenant-context.ts:50-74 | under any interleaving each plain query of a task carries what the way it was started says: for `runAsTenant` that tenant, a uuid, on the tenant role; for `runAsPlatform` none on the platform role; unscoped none on the tenant role; for a job its payload's tenant on the three per-tenant queues and none on the platform role on the other seven; for a request's lookups the tenant its token names |
| TenantPool.InheritedQueriesSeeAlike | packages/api/src/lib/tenant-context.ts:74-76 | a task that inherits its scope sees exactly what its parent's plain queries see |
| TenantPool.StartsExactly | packages/api/src/lib/queue-scope.ts:27-52 | when a task can start at all, for every way of starting one: under a tenant only if its id is a uuid, a per-tenant job only with such an id in its payload |
| ActingScope.UuidIsFiveGroups | packages/api/src/lib/tenant-context.ts:40-57 | what passes the gate is exactly five groups of hex digits, of 8, 4, 4, 4 and 12, joined by hyphens |
| TenantPool.HandlerQueriesSeeTheirTenant | packages/api/src/app.ts:105-114 | whatever else runs, each plain query of a handler sees the tenant its accepted token names, if that is a uuid and the route is a tenant's, and none otherwise; it uses the platform role exactly when the pipeline proved a platform actor |
| TenantPool.StepRefines | packages/api/src/lib/prisma.ts:99-109 | each step of the memoised pool is one or more steps of the pool that always sends its `SET`, between the same states but for the tags |
| TenantPool.MemoisedPoolRefinesNaive | packages/api/src/lib/prisma.ts:83-109 | for every schedule the naive pool has a schedule with the same log: same statements by the same tasks, in the same order, under the same effective settings, transactions included |
| TenantPool.NaiveIsMatchedByMemoised | packages/api/src/lib/prisma.ts:83-109 | and conversely for every schedule of the naive pool, whichever of its `SET`s fail: the two pools show exactly the same runs |
| PooledClient.ApplyActingTenant | packages/api/src/lib/prisma.ts:99-109 | the client after the wrapper, whatever the database answered; on success it is ready and tagged with what the scope wants, on failure its tag has not moved |
| PooledClient.ConnectWithTenant | packages/api/src/lib/prisma.ts:115-124 | a client handed out carries what the scope wants; it is destroyed, and the call fails, exactly when a `SET` was needed and failed |
| PooledClient.QueryWithTenant | packages/api/src/lib/prisma.ts:130-145 | a statement is sent exactly when no `SET` was needed or it succeeded, and then sees what the scope wants; afterwards the connection is truthful about itself, or destroyed if anything failed |
| PooledClient.ConnectIsASchedule | packages/api/src/lib/prisma.ts:115-124 | on whatever the pool hands out, a new connection or an idle one, the method's effect on its client is a schedule of the pool protocol, so the protocol's theorems apply to it |
| PooledClient.HandedOutExactly | packages/api/src/lib/prisma.ts:115-145 | what the pool hands out is exactly a connection not opened yet or an idle one of the role of the task's scope |
| PooledClient.HandedOutIsSettled | packages/api/src/lib/prisma.ts:115-145 | in every reachable state it has no local setting, a session its tag tells the truth about and the right role, which is all the wrappers need |
| PooledClient.QueryIsASchedule | packages/api/src/lib/prisma.ts:130-145 | the same for a plain query, which logs one statement under its task's tenant exactly when one was sent |
| AuditWrap.Connection.WriteAuditRow | packages/api/src/lib/audit-wrap.ts:98-126 | the audit row is written under the audited tenant, which stays the transaction's setting even if the insert fails |
| AuditWrap.Connection.AuditInOwnTransaction | packages/api/src/lib/audit-wrap.ts:128-157 | mutation and audit row commit together or not at all, the mutation under the session's tenant and the row under the audited one, and the session setting is what it was |
| AuditWrap.Connection.AuditInCallersTransaction | packages/api/src/lib/audit-wrap.ts:139 | joined to the caller's transaction it commits nothing, and leaves that transaction acting for the audited tenant, whether or not the audit row was written, exactly when the mutation succeeded; otherwise as it was |
| ActingScope.JobsAreNeverUnscoped | packages/api/src/lib/queue-scope.ts:27-52 | a job runs as its own tenant or as the platform, by its queue's declared tenancy, and never without a scope |
| RequestPipeline.Request.AssignIdentity | packages/api/src/middleware/auth.ts:102-139 | a request gets a user, a platform actor or a refusal, never two of them |
| RequestPipeline.Request.AuthMiddleware | packages/api/src/middleware/auth.ts:141-192 | the identity is that of the claims the request is entitled to: verified ones when there is a secret, unverified ones only outside production or without one |
| RequestPipeline.Request.AuthorizationMiddleware | packages/api/src/middleware/authorization.ts:10-279 | the chain of early returns sends no reply exactly when the platform check, or every guard of a module route, passes, and makes at most one round of lookups, in the scope then in force |
| RequestPipeline.RefusalsInOrder | packages/api/src/middleware/authorization.ts:46-278 | the reply authorization leaves is a given refusal, the two 409 codes included, exactly when its guard fails and every earlier guard passes |
| RequestPipeline.RepliesExactly | packages/api/src/middleware/authorization.ts:40-278 | for each of the nine replies of authorization, exactly when it is the answer, in terms of the route, the lookups and the identity; and there is no other |
| RequestPipeline.Request.Run | packages/api/src/app.ts:105-114 | the handler runs above tenants exactly on a non-public platform route, for an accepted token that claims the platform and names no tenant, with an actor the lookup found; as tenant t exactly for an accepted token of t on a tenant's route whose guards all pass; unscoped exactly on a public route or for a tenant id that is no uuid; and no lookup runs above tenants |
| HookOrders.NeverTwoIdentities | packages/api/src/middleware/auth.ts:102-139 | whatever hooks run, in any order and any number of times, a request never has both identities, and the one it has is its token's |
| Identity.SignedTokensAreVerified | packages/api/src/middleware/auth.ts:176-182 | over every order of the hooks, in production or not: with a secret, a token that claims a signature makes the identity its verified claims name and no other, and nobody else reaches a handler that wants a token |
| Identity.DecodedClaimsExactly | packages/api/src/middleware/auth.ts:172-187 | every other token makes the identity its unverified claims name, except that one with `alg: "none"` makes none in production; no identity, no handler |
| Identity.NoTokenNobody | packages/api/src/middleware/auth.ts:153-159 | without a token there is no identity and no handler |
| Identity.PublicRoutesReadNoToken | packages/api/src/middleware/auth.ts:148-151 | on a public route no token is read, and only the platform guard of a platform route refuses |
| HookOrders.AlgNoneRefusedInProduction | packages/api/src/middleware/auth.ts:141-175 | in production no order of the hooks lets a token whose header says `alg: "none"` reach the handler of a route that is not public |
| HookOrders.OnlyVerifiedExactly | packages/api/src/middleware/auth.ts:163-192 | for every order and every environment: nobody reaches a handler that wants a token except with verified claims, exactly when it is production with a secret, or the order serves nobody; so in the order of the code exactly in production with a secret |
| HookOrders.UnverifiedTokenIsServed | packages/api/src/middleware/auth.ts:184-187 | otherwise a concrete request is served on claims nobody verified, in every order that serves anybody |
| HookOrders.ActorsConfirmedExactly | packages/api/src/middleware/acting-context.ts:26-36 | exactly the orders of the five hooks in which, for every request, nothing runs above tenants before the actor is found: authentication, then authorization, then the platform's scope, or an order in which that scope or everyone is shut out |
| HookOrders.TenantLookupsScopedExactly | packages/api/src/middleware/acting-context.ts:15-26 | exactly the orders in which, for every request, authorization reads a tenant's tables under that tenant: the tenant's scope after authentication and before authorization, or an order in which there is nothing to read |
| HookOrders.ActorsServedExactly | packages/api/src/middleware/acting-context.ts:51-61 | exactly the orders in which every platform actor's handler runs above tenants |
| HookOrders.SplitIsForced | packages/api/src/middleware/acting-context.ts:13-36 | over every order, all three hold exactly when authorization stands after the tenant's scope and before the platform's, with authentication first of the four, or when the tenant check precedes authentication and nobody is served; the order of the code is one of the former |
| IntervalCoverage.FindCoverageProblems | packages/api/src/lib/interval-coverage.ts:77-135 | the cursor loop computes `Problems`, the recursive report the results below are about |
| IntervalCoverage.EmptyReportMeansTiling | packages/api/src/lib/interval-coverage.ts:77-135 | soundness, in any row order: no problems means every instant of the window is covered exactly once and nothing outside it is |
| IntervalCoverage.EmptyReportIffTiling | packages/api/src/lib/interval-coverage.ts:77-135 | for sorted rows of positive length, no problems if and only if the rows tile the window |
| IntervalCoverage.GapsAreTheUncoveredInstants | packages/api/src/lib/interval-coverage.ts:77-135 | the reported gaps are exactly the uncovered instants from the window's start to the later of its end and the last covered instant |
| IntervalCoverage.ReportedGapsDisjoint | packages/api/src/lib/interval-coverage.ts:77-135 | no instant is in two reported gaps |
| IntervalCoverage.WindowConserved | packages/api/src/lib/interval-coverage.ts:65-135 | conservation: window length is measured plus gap less overlap less overrun minutes, plus the excess of strictly nested rows |
| IntervalCoverage.WindowInequality | packages/api/src/lib/interval-coverage.ts:65-135 | without that term the identity is an inequality, with equality exactly when no row lies strictly inside what is already covered |
| IntervalCoverage.NestedRowExample | packages/api/src/lib/interval-coverage.ts:65-135 | an hour with a half-hour row inside it, where the identity fails |
| IntervalCoverage.TimeOrderExactly | packages/api/src/lib/interval-coverage.ts:65-76 | problems come out in time order exactly when no row past the window's end raises a problem of its own |
| IntervalCoverage.RowsInsideWindowAreInOrder | packages/api/src/lib/interval-coverage.ts:65-76 | when all rows start before the window's end the comment's promise holds |
| IntervalCoverage.OutOfOrderExample | packages/api/src/lib/interval-coverage.ts:119-135 | a concrete report out of time order |
| IntervalCoverage.TilingsCompose | packages/api/src/lib/interval-coverage.ts:77-135 | rows that tile [a, b) and rows that tile [b, c), in any order, together tile [a, c) |
| IntervalCoverage.TilingsSplit | packages/api/src/lib/interval-coverage.ts:77-135 | and the converse at any instant no row crosses |
| IntervalCoverage.EmptyReportsCompose | packages/api/src/lib/interval-coverage.ts:77-135 | the reports likewise: rows in sequence have an empty report exactly when the front has one up to the cursor it leaves and the back has one from there |
| IntervalCoverage.SplitsWhereAnIntervalStarts | packages/api/src/lib/interval-coverage.ts:77-135 | an empty report splits into two at any instant an interval starts |
| IntervalCoverage.ProblemMinutesPositive | packages/api/src/lib/interval-coverage.ts:77-135 | every problem of minute-aligned rows is at least a minute long |
| IntervalCoverage.SentencesFit | packages/api/src/lib/interval-coverage.ts:77-135 | each problem's sentence is of its kind and carries its start and minutes; "ends early" is said where all data has ended, "no data from here" where a row follows |
| IntervalCoverage.MinutesAreNearest | packages/api/src/lib/interval-coverage.ts:77-135 | minutes are to the nearest, halves going up |
| MissingReadings.FindMissingReadings | packages/api/src/lib/interval-coverage.ts:158-190 | the accumulator loop reports one problem per run of missing rows |
| MissingReadings.RunsAreTheMaximalOnes | packages/api/src/lib/interval-coverage.ts:158-190 | the runs are all the maximal runs and only those, in order and never adjacent |
| MissingReadings.MissingMinutesConserved | packages/api/src/lib/interval-coverage.ts:158-190 | the minutes reported are the lengths of the missing rows, each once |
| ExceptionGrouping.KeyStringInjective | packages/api/src/lib/meter-data-exception.ts:131-133 | the Map key's string encoding identifies meter, window and kind, whatever bars the meter id contains; grouping and reconciliation key their Maps by it |
| ExceptionGrouping.GroupCoverageFindings | packages/api/src/lib/meter-data-exception.ts:95-129 | the loop over the string-keyed Map yields one finding per key in order of first appearance, with its minutes summed and its sentences in order |
| ExceptionGrouping.KeysInOrderOfAppearance | packages/api/src/lib/meter-data-exception.ts:95-129 | findings come in the order in which their keys first appear |
| ExceptionGrouping.GroupingConserves | packages/api/src/lib/meter-data-exception.ts:95-129 | keys are exactly those present, each once, and no minute is lost or invented, over all keys or any selection |
| DataExceptions.ReconcileDataExceptions | packages/api/src/lib/meter-data-exception.ts:135-196 | the loops over a Map and a Set of key strings compute the plan that `PlanFor` specifies over keys |
| DataExceptions.HeldIs | packages/api/src/lib/meter-data-exception.ts:142-162 | the row held for a key is an open one when there is one, otherwise an unresolved one when there is one, whatever the query's order |
| DataExceptions.OpenedExactlyWhenUnknown | packages/api/src/lib/meter-data-exception.ts:163-184 | a problem is opened exactly when nothing unresolved is on file for it, and once |
| DataExceptions.WritesRealiseSweep | packages/api/src/services/meter-data-exception.service.ts:36-124 | stopping the three writes anywhere, before the first included, leaves every old row as it was or as the whole sweep would leave it, and opens all of the unknown problems or writes nothing |
| DataExceptions.SweepSafe | packages/api/src/services/meter-data-exception.service.ts:36-124 | however far a sweep got: at most one open row per key, no decided, resolved or unswept row changed |
| DataExceptions.SweepPostState | packages/api/src/lib/meter-data-exception.ts:142-195 | after a sweep a swept key is open exactly when it was found and had an open row or no unresolved one, and its row carries the new minutes and detail |
| DataExceptions.RowsAfterSweep | packages/api/src/services/meter-data-exception.service.ts:83-117 | row by row and field by field: one new open row for each finding nobody knew, with that finding's key, window end, minutes and detail; an old row keeps key and window, and an open one of a swept window takes its finding's minutes and detail or is resolved |
| DataExceptions.SecondSweepWritesNothing | packages/api/src/lib/meter-data-exception.ts:142-195 | reconciling again with the same findings returns three empty lists |
| DataExceptions.InterruptedSweepHeals | packages/api/src/services/meter-data-exception.service.ts:36-124 | a sweep that died before, between or during its writes, run again, leads to the same open problems with the same minutes and detail as if it had finished |
| ExceptionRuns.ExceptionStore.FindUnresolved | packages/api/src/services/meter-data-exception.service.ts:36-124 | lists every unresolved row of the swept windows and nothing else |
| ExceptionRuns.ExceptionStore.FlagDataExceptions | packages/api/src/services/meter-data-exception.service.ts:36-124 | read, reconcile and write: the call is one of the finished sweeps the run results are about, the store is fully swept, each new row carries the key, window, minutes and detail of a finding, its unique index holds, and nothing happens when no window was swept |
| ExceptionRuns.RunSafe | packages/api/src/lib/meter-data-exception.ts:40-84 | over any run of sweeps, whole or interrupted, and decisions: never two open rows for a key, a decided or resolved row never changes, a row of an unswept window changes only by decision |
| ExceptionRuns.DecisionDuringSweep | packages/api/src/services/meter-data-exception.service.ts:36-124 | a decision taken between the sweep's read and its writes survives exactly when the sweep would not have changed the row |
| ExceptionRuns.NothingResolvedBeforeTheEnd | packages/api/src/services/meter-data-exception.service.ts:100-117 | a sweep that stops among its updates has resolved nothing, and an old row has changed exactly if its own update was made |
| ExceptionRuns.OverwrittenDecisionExample | packages/api/src/services/meter-data-exception.service.ts:36-124 | an accepted row whose gap was fixed meanwhile ends up resolved |
| ExceptionRuns.QueueHoldsEveryUndecidedMinute | packages/api/src/lib/meter-data-exception.ts:163-184 | after a sweep the minutes on open rows of swept windows are those of every problem reported, less those only a decided row holds |
| CoverageSweep.FindTenantProblems | packages/api/src/services/interval-coverage-sweep.service.ts:97-186 | the loops over meters and windows, running the two scans above on each, collect the findings the results below are about |
| CoverageSweep.UnreportedExactlyWhenWholeOrSilent | packages/api/src/services/interval-coverage-sweep.service.ts:97-186 | over a whole night a meter's day is unreported exactly when its intervals tile the window with a value in each, or it sent none |
| CoverageSweep.FiledUnderSweptWindows | packages/api/src/services/interval-coverage-sweep.service.ts:97-186 | everything filed belongs to a window that was swept, as reconciliation needs |
| DayFindings.FiledOfMeterDay | packages/api/src/services/interval-coverage-sweep.service.ts:97-186 | under a meter, day and kind a night files the minutes and sentences of that day's problems of that kind, in order, and nothing else |
| NightlySweep.SweepNight | packages/api/src/services/interval-coverage-sweep.service.ts:198-245 | a tenant's night as one call: the windows are those of consecutive local days and the store is fully swept; every row it opens is about one meter's day; afterwards a problem of a swept window is open exactly when the night filed it and not only a decided row holds it; and the open minutes are the filed minutes of those |
| NightlySweep.MeterDayAfterNight | packages/api/src/services/interval-coverage-sweep.service.ts:97-245 | after such a night a meter's day has an open row of a kind exactly when it shows a problem of that kind nobody has decided; none when its intervals tile the day with a value in each, or it sent none |
| NightlySweep.NewRowsAreDayRows | packages/api/src/services/interval-coverage-sweep.service.ts:97-245 | every row a night opens has the meter of one of its meters and the start and end of one of its windows, and, none being listed twice, the minutes and sentences of that day's problems of its kind |
| NightlySweep.OpenRowsSayTheDay | packages/api/src/services/interval-coverage-sweep.service.ts:97-245 | after a night every open row of a meter's day, old or new, says the minutes and sentences of that day's problems of its kind |
| NightlySweep.WindowsAreDistinct | packages/api/src/lib/coverage-windows.ts:67-94 | the windows of a night have starts of their own, which filing by window start relies on, unless two offsets differ by a whole day |
| CoverageSweep.SeedHourlyIntervals | seed/tou-service.js:391-430 | the seed's loop from the start of a window to its end writes the hourly grid |
| CoverageSweep.GridRows | seed/tou-service.js:391-430 | each row of the grid is an hour, starts on the hour from the start, before the end, and has a value |
| CoverageSweep.GridTilesWholeHours | seed/tou-service.js:391-430 | the grid over any whole number of hours has no coverage problem |
| LocalDays.LocalMidnightIsMidnight | packages/api/src/lib/coverage-windows.ts:26-38 | with at most one offset change around the date the two passes find a local midnight whenever one exists; when the change skips it they miss by exactly the jump, on the side UTC midnight is on |
| LocalDays.MidnightBoundaryExact | packages/api/src/lib/coverage-windows.ts:26-43 | the instant found separates earlier local dates from later ones, for every instant, exactly when the change is clear of that midnight |
| LocalDays.FallBackOverMidnightExample | packages/api/src/lib/coverage-windows.ts:34-43 | clocks going back over midnight put half past midnight before its own date |
| LocalDays.WindowsToCheck | packages/api/src/lib/coverage-windows.ts:67-94 | exactly `lookbackDays` windows, those of consecutive local dates ending with the newest admissible one |
| LocalDays.WindowsAreConsecutive | packages/api/src/lib/coverage-windows.ts:67-94 | each window ends exactly where the next begins, and none is empty when no two offsets differ by a day |
| LocalDays.WindowEmptyExactly | packages/api/src/lib/coverage-windows.ts:34-38 | a window is non-empty exactly when the offset moves by less than a day across it |
| LocalDays.NewestWindowIsLatestAdmissible | packages/api/src/lib/coverage-windows.ts:67-94 | with changes clear of both midnights, the newest window ended at least `graceHours` ago and the next local day did not |
| GregorianMonths.MonthStartsFollow | seed/tou-service.js:62-72 | the closed form of a month's first day agrees with the table of month lengths, leap years and centuries included |
| GregorianMonths.EpochIsDayZero | seed/tou-service.js:62-72 | day 0 is 1 January 1970 |
| GregorianMonths.GregorianIsRegular | seed/tou-service.js:62-72 | the Gregorian calendar is an instance of the calendars the window results are proved over |
| GregorianMonths.DateRoundTrip | seed/tou-service.js:62-72 | month and day of month of a date built from the two are those two |
| BillingCalendar.CycleWindowIsLatest | seed/tou-service.js:62-96 | the window ends on the latest clamped bill date on or before today and starts the day after the bill date before it |
| BillingCalendar.CycleWindowsMeet | seed/tou-service.js:62-96 | a window ends by today, and the day before it starts ends that day's own window |
| BillingCalendar.CycleWindowsTile | seed/tou-service.js:62-96 | every day is in a window that some day returns, and any two windows returned that share a day are equal |
| BillingCalendar.ReadDateInsideExactly | seed/tou-service.js:62-96 | the read date is inside the window exactly when the read day is at most the bill day, or the bill day is clamped to the month's end |
| BillingCalendar.ReadDatesAgree | packages/shared/prisma/seed.ts:775-791 | the second implementation returns the same read date for every cycle and every day |
| BillingCalendar.BillPeriodAgrees | packages/api/src/services/bill.service.ts:162-226 | the production bill period is the seed's window cut at the account's creation |
| BillingCalendar.NextRunBillDateAgreesExactly | seed/delinquency-ladder.js:51-57 | the unclamped date is the window's end exactly when the bill day has passed, or today is not the month's last day and last month had the bill day |
| BillingCalendar.NextRunBillDateAgreesUpTo28 | seed/delinquency-ladder.js:51-57 | for bill days up to 28 the two always agree |
| BillingCalendar.NextRunBillDateDisagreesExample | seed/delinquency-ladder.js:51-57 | on 15 March 2026 a cycle on the 31st rolls past February into March |
| BillingCalendar.GridCoversEveryCycleWindow | seed/tou-service.js:391-430 | the hourly grid has no coverage problem over any window a cycle can return |
| LedgerEntries.ReconciledBalances | seed/delinquency-ladder.js:127-152 | when every open amount is its amount net of the applications settling it, the amounts and the open amounts have the same sum |
| LedgerEntries.BalanceFormulasAgreeExactly | seed/payment-plan.js:157-176 | the plan's balance over positive open amounts equals the ladder's exactly when no credit but a deposit is open, and is never below it |
| LedgerEntries.OpenCreditExample | seed/payment-plan.js:157-176 | a bill of ten and an open payment of four, where one formula says six and the other ten |
| LedgerEntries.OldestDueIs | seed/delinquency-ladder.js:259-270 | the cached due date is that of an open debit, and none is earlier |
| LedgerSeeds.CoveredDebtsAreOldest | seed/payment-plan.js:50-70 | the covered debts are distinct, overdue and oldest first, at most two; none exactly when nothing is overdue, and none left out is older |
| LadderRules.SortIsStable | seed/delinquency-ladder.js:110-112 | the charging rules are tried in tier order, rules of one tier in the order given |
| LadderRules.FiredIsWhatIsDue | seed/delinquency-ladder.js:110-165 | the filter, the sort and the loop charge each rule that charges a flat fee and whose days have passed, as often as it is given, and no other; by tier, in the order given within one |
| LadderRules.SurvivorsAreTheTail | seed/delinquency-ladder.js:189-191 | the rules whose fees survive are those that fired at or since the last replacing one |
| LedgerSeeds.Ledger.ReplaceLowerTierFees | seed/delinquency-ladder.js:127-152 | each fee is closed by a reversal of its amount that names it, both sides at zero; nothing else changes, reconciliation is kept and the balance falls by the fees |
| LedgerSeeds.Ledger.SeedDelinquencyLadder | seed/delinquency-ladder.js:67-280 | nothing is charged exactly when no bill charge is overdue, there is no room before the cycle's next run, or no rule is due; otherwise, on the oldest overdue bill charge, the rules due are charged: an action for each, never before its day; of what is written only the fees from the last replacing rule on are open, in full, dated by the rule's day or the window's end and due 30 days later; earlier entries are untouched and the caches equal the entries |
| LedgerSeeds.FeesPrintExactly | seed/delinquency-ladder.js:91-108 | every fee the ladder leaves open prints on the bill of the cycle's next run exactly when every surviving tier was reached after the account's latest bill and no fee is dated past the run, which for bill days up to 28 none is |
| LedgerSeeds.FeeBehindLatestBillExample | seed/delinquency-ladder.js:169-178 | for every calendar, bill day and day: a tier reached a week before the latest bill, whose fee is dated before that bill though there is room after it |
| LedgerSeeds.TermsAddUp | seed/payment-plan.js:75-81 | the down payment is a quarter of the total to the nearest cent, and with six installments it falls short of the total by at most five cents |
| LedgerSeeds.SharesCloseOldestFirst | seed/payment-plan.js:138-155 | no debt gets more than it owes, and one gets something only once every older one is closed |
| LedgerSeeds.SharesSumToPayment | seed/payment-plan.js:138-155 | the shares add up to the payment, or to the debts if those are less |
| LedgerSeeds.Ledger.PayDown | seed/payment-plan.js:118-176 | for any debts: the applications sum to the down payment and go to the oldest debts, each for its share; those debts fall by what was applied, nothing else moves, reconciliation is kept and the caches equal the entries |
| LedgerSeeds.Ledger.SeedPaymentPlan | seed/payment-plan.js:49-187 | skips exactly when nothing is overdue, and then changes nothing; otherwise records the plan over the oldest overdue debts with their total, a quarter down and six installments, posts that down payment and pays the debts down |
| NumberGenerator.ReadsBackWhatItRenders | packages/shared/src/lib/number-template.ts:128-235 | the pattern built from a template matches what the template renders and reads the same number back |
| NumberGenerator.GenerateNumber | packages/api/src/lib/number-generator.ts:84-101 | the loop over the batch yields the prefix, the next number spelled at the template's width, and the suffix, where the next number is the least that is `startAt` or more and above every one read |
| IssuedNumbers.RenderedExactly | packages/shared/src/lib/number-template.ts:128-160 | the identifier of a number is the prefix, the one digit string of that value that is no shorter than the width and no longer than it must be, and the suffix |
| IssuedNumbers.TokensExactly | packages/shared/src/lib/number-template.ts:133-157 | what each token renders to; `RendersInOrder` puts them together |
| IssuedNumbers.RendersInOrder | packages/shared/src/lib/number-template.ts:128-160 | a template renders part by part |
| IssuedNumbers.MatchesExactly | packages/shared/src/lib/number-template.ts:183-235 | the pattern matches digits of any width between prefix and suffix and nothing else, and reads their value |
| IssuedNumbers.DefaultTemplatesStart | packages/api/src/services/service-agreement.service.ts:131 | the first identifiers of the two default templates are SA-0001 and AC-00001 |
| NumberGenerator.InBatchExactly | packages/api/src/lib/number-generator.ts:70-80 | a matching identifier is among the rows read exactly when fewer than 50 matching ones are above it in string order |
| NumberGenerator.NextExceedsExactly | packages/api/src/lib/number-generator.ts:66-101 | the next number exceeds every existing one exactly when some identifier of the highest number has fewer than 50 matching ones above it in string order, or `startAt` exceeds them all |
| NumberGenerator.OneWidthIsFresh | packages/api/src/lib/number-generator.ts:66-101 | when all matching identifiers have one width the batch holds the highest number, so the candidate is above all of them and not in the table |
| IssuedNumbers.IssuedHasOneWidth | packages/api/src/lib/number-generator.ts:66-101 | identifiers the generator issues for numbers below ten to its width have one width |
| IssuedNumbers.IssuedInOrder | packages/api/src/lib/number-generator.ts:66-101 | from an empty start the generator issues every number in turn, each new, up to and including the first with one digit more |
| IssuedNumbers.IssuesUpToItsLimitExactly | packages/api/src/lib/number-generator.ts:66-143 | for a width of two or more, and fifty numbers to go: the k-th candidate is new exactly while it is at most ten to the width; from then on every candidate is that same number, which is taken |
| NumberGenerator.MixedWidthsCollideForever | packages/api/src/lib/number-generator.ts:66-143 | with 950 to 1000 unpadded the candidate is taken, and any number of retries collides with nobody else writing |
| NumberGenerator.MixedWidthsHideTheHighest | packages/api/src/lib/number-generator.ts:66-101 | because that table fails the exact condition: fifty identifiers sort above the highest |
| NumberGenerator.GenerateAndInsertWithRetry | packages/api/src/lib/number-generator.ts:110-143 | every attempt before the last collided; it gives up exactly after `maxAttempts` collisions, and any other failure or a success ends it at once |
| NumberGenerator.FailureWitnessesCommit | packages/api/src/lib/number-generator.ts:104-143 | when the table an attempt reads meets that condition, its failure is down to an identifier committed after the read, and no two to the same one |
| NumberGenerator.OneWidthFailuresWitnessCommits | packages/api/src/lib/number-generator.ts:104-143 | so with one digit width every failed attempt witnesses a commit of its own |
| NumberGenerator.ExhaustionNeedsContention | packages/api/src/lib/number-generator.ts:104-143 | when the tables of all n attempts meet the condition, giving up after n collisions means at least n identifiers were committed meanwhile |
| NumberGenerator.OneWidthExhaustionNeedsContention | packages/api/src/lib/number-generator.ts:104-143 | so with one digit width giving up always means that much contention |
| StabilizePdf.PinDatesExactly | packages/api/src/bill-generation/stabilize-pdf.ts:25-33 | the date rewrite keeps length, puts the fixed digits at every date and changes no other byte |
| PdfRewrites.DatesAreRewritten | packages/api/src/bill-generation/stabilize-pdf.ts:25-33 | `(D:` and fourteen digits become `(D:20000101000000`, and any character no such text starts at stays |
| StabilizePdf.MatchIdExactly | packages/api/src/bill-generation/stabilize-pdf.ts:36 | the scan finds a match exactly where the expression, read declaratively, has one |
| PdfRewrites.IdsAreRewritten | packages/api/src/bill-generation/stabilize-pdf.ts:34-38 | an id with any blanks, and hex digits of either case, becomes `/ID [<0...0> <0...0>]` with as many zeros as it had digits |
| PdfRewrites.NothingElseIsRewritten | packages/api/src/bill-generation/stabilize-pdf.ts:34-38 | any character no id starts at stays |
| StabilizePdf.StabilizeIsIdempotent | packages/api/src/bill-generation/stabilize-pdf.ts:27-41 | stabilizing twice is stabilizing once |
| StabilizePdf.SameButStampsSameBytes | packages/api/src/bill-generation/stabilize-pdf.ts:1-41 | files that differ only in date digits and in the hex digits of ids of the same lengths become the same bytes |
| StabilizePdf.IdKeepsLengthExactly | packages/api/src/bill-generation/stabilize-pdf.ts:34-38 | an id keeps its length exactly when its matched whitespace is two characters |
| StabilizePdf.BytesMoveByDrift | packages/api/src/bill-generation/stabilize-pdf.ts:18-41 | for every file, a byte outside its ids is written at its own offset plus the drift of the ids before it, two less their whitespace each, and as itself unless it is a date's digit |
| StabilizePdf.OffsetsKeptExactly | packages/api/src/bill-generation/stabilize-pdf.ts:18-22 | "keeps every offset valid" holds of the bytes outside the ids exactly when the drift before each of them is nothing (sections 7.5.4 and 14.4 of ISO 32000-1) |
| StabilizePdf.LengthChangesByDrift | packages/api/src/bill-generation/stabilize-pdf.ts:27-41 | the file's length changes by the drift before its end |
| StabilizePdf.CanonicalSpacingKeepsOffsets | packages/api/src/bill-generation/stabilize-pdf.ts:18-22 | in particular when every id's whitespace is two characters, the length and every byte outside the ids stay where they were |
| StabilizePdf.TightIdMovesWhatFollows | packages/api/src/bill-generation/stabilize-pdf.ts:18-22 | an id written without whitespace moves the byte after it by two |

## Left out

- Prisma, pg, Fastify, BullMQ, Redis and jose: only what the code relies on is modelled, that is exclusive checkout,
  destruction on `release(err)`, transaction-local settings, and that a reply ends the pipeline.
- The pool proxy's other members, such as `end`, and `assertRlsEnforced`: no effect on a statement's setting.
- Savepoints: a transaction-local value lasts until commit or rollback.
- An exception thrown inside a hook's continuation: the handler is taken to be reached or not.
- Two sweeps of one tenant running at the same time; a sweep against a decision is covered.
- Human-readable messages: a problem's sentence is its template and numbers, and its wording is not modelled.
- Time-zone data: a zone is any offset function; the results say what they need of it.
- Two-digit years in `Date.UTC`, which JavaScript reads as 19xx.
- Rounding: instants are minute-aligned where minutes are reported, and money is cents where the code uses floating
  point and rounds to cents.
- Billing-cycle frequencies other than monthly in `computeBillPeriod`.
- LedgerSeeds.Ledger.SeedDelinquencyLadder: takes the dates of the account's bills as a list, at least one when a debit exists (the source throws on an account with a bill charge but no bill); an entry's identifier is its position.
- LedgerSeeds.Ledger.SeedPaymentPlan: the plan's row holds what it covers and its amounts; its schedule and judgement terms are constants.
- Database collation: identifiers are compared character by character.
- Sequence numbers above 2 to the 53rd, which JavaScript rounds.
- NumberGenerator.ExhaustionNeedsContention: assumes identifiers are never deleted between attempts.
- Decoding of templates from text, and bytes that are not latin1: files are read as latin1, as the code does.
- Services and workers behind these parts (rating, roll-up, posting, bill layout), routes, web components,
  configuration and demo data: plumbing or finite tables.
