# The decision plane of authorize-svc, modelled and proved in Dafny

authorize-svc decides whether an agent may spend. This project models the parts of it
whose correctness spans several operations or whole runs, and proves what they promise:

- **Budgets.** A fast counter gates spend and a reservation ledger is the source of
  truth. Reserving raises the counter and then writes the ledger; voiding and expiring
  change the ledger and then lower the counter. `BudgetProtocol` is a transition system
  in which each counter call and each ledger call of any number of callers is one step,
  with the operations in flight, lost replies and lost operations kept explicitly;
  `BudgetTheorems` proves no oversell, conservation and exactly-once release over all
  runs, for the in-memory ledger and for the SQL ledger; `BudgetMoney` restates it for
  the amounts and limits as written, `BudgetRedis` carries it over to the Lua counter
  with its expiring keys, `BudgetRebuild`, `BudgetStranding` and `BudgetLoss` say exactly
  when a rebuild, the in-memory counter and a lost place reply are right, and
  `BudgetFailures` holds the runs in which something goes wrong. `Counter`,
  `RedisCounter`, `Holds`, `PostgresHolds` and `Reserver` are the stores and callers as
  classes; `ReserverSteps` shows that reserve, void, release-expired and rebuild are runs
  of the protocol. `Money` and `Windows` cover decimal amounts and calendar windows.
- **Decisions.** `Verdict`, `Predicates` and `Engine`: the verdict algebra, the local
  rules, and `Authorize` end to end over counter and ledger.
- **Policies.** `PolicyRules` (validation and compilation preserve meaning),
  `PolicyControl` (content-addressed versions through create, update, publish and
  rollback), `BundleCache` (the provider as a class) and `BundleProtocol` (loads,
  refreshes and publishes interleaved).
- **Audit.** `AuditChain` (the per-org hash chain and what its last hash commits to),
  `Pagination` (two implementations of one listing, and sessions over a growing log),
  `AuditWriter` and `AuditDrain` (the asynchronous writer under all interleavings, and
  what its callers can conclude).
- **Encodings and bounds.** `JsonText`, `CanonicalJson` and `Utf8` (canonical JSON is
  uniquely decodable, down to its bytes), `Ulid`, and `ReplayGuard` (skew check and nonce
  lifetime over whole runs).

Code that changes things step by step is modelled as classes and methods with their
whole new state in the contract; concurrent protocols are transition systems whose steps
are single store, lock or channel operations. Foreign code enters as function values with
the law it is used for: a collision-free digest, an encryptor that never misreads, time
parsing, the key and amount codecs. `dafny verify dfyconfig.toml` checks the whole
project.

Several promises hold only under a condition. For each there is a run or input on which
it fails, and a statement of exactly when it holds:

- No oversell needs amounts whose cents are not negative and, with the limit, below 2^63
  (`WrappedAmountOversells`, `WrappedAmountOversellsRedis`; `ReserveAlwaysKeepsIff`,
  `AmountInRangeIff`). A place that is written but reported as failed breaks it unless the
  counter had that much to spare (`LostPlaceOversells`; `LossCoversIff`,
  `LossOversellsIff`, and on the run's faults `LossHarmlessIff`).
- Looking at a hold of the in-memory ledger after its expiry marks it expired without
  releasing its cents (`InMemoryStrandsCents`; `InMemoryExactIff`); the SQL ledger does
  not.
- A counter rebuild that overlaps a reserve forgets it (`RebuildRaceOversells`;
  `RebuildCoversIff`, `RebuildKeepsIff`).
- `toCents` wraps above 2^63 (`LargeAmountTurnsNegative`; `ToCentsExactness`) and takes
  signs inside a number, which the endpoint does not let through
  (`SignedFractionIsAccepted`; `AcceptedPlainIff`, `AdmittedIsPlain`).
- Counter keys collide exactly through a colon in an id (`CounterKeyCollidesIff`).
- The deadline told to a caller and the expiry of its hold differ by the milliseconds of
  the clock (`BlankExpiriesDiffer`; `ExpiriesLineUpIff`).
- A bundle write lost after the policy write leaves the two disagreeing
  (`LostBundleWriteDesyncs`; `Designate`).
- A load in flight across a publish can put the replaced bundle back into the cache
  until the next refresh (`LateLoadServesReplacedBundle`; `ConvergesIff`).
- The documentation of `Close` promises a drained queue. For the call that closes it
  depends on `Start` (`CloseWithoutStartLosesQueue`; `CloseDrainsIff`). A second call
  returns nil at once (`RepeatedCloseReturnsEarly`): from what callers see, the queue is
  known to be drained exactly once the closing call has returned nil to a started writer
  (`KnownDrainedIff`).
- The configuration comment asks for nonceTTL >= 2 maxSkew; equality leaves one instant
  open (`TwoAttempts`; `NoReplayIff`, `FloorLeavesOneInstant`), and the guard in `New`
  wraps for skews of 2^62 nanoseconds (`FloorHoldsIff`). The skew check itself passes any
  timestamp 2^63 nanoseconds ahead (`SkewCheckIff`), so such a request is accepted again
  and again whatever the lifetime (`FarAheadReplays`; `NoReplayIff`, `ReplayIsFarAhead`).
- An outcome name the verdict algebra does not know is ignored
  (`UnknownOutcomeApproves`; `ApproveMeansAllSatisfiedIff`); the local rules never
  produce one (`LocalOutcomes`).
- The no-op encryptor cannot read back a value that carries the cipher prefix
  (`NopLosesMarkedValue`; `NopRoundTripsIff`), and the SQL listing also fails when the
  row after the page does not decrypt (`PagesDiffer`; `PagesAgreeIff`).

## Model

| member | source | states |
|---|---|---|
| Money.ToCentsExactness | services/authorize-svc/internal/budget/budget.go:71-95 | a plain decimal with at most two fraction digits is accepted iff its whole part fits an int64, and its cents are 100 times its rational value iff that product is below 2^63 |
| Money.ToCentsWraps | services/authorize-svc/internal/budget/budget.go:71-95 | for every plain two-place decimal the result is the exact cents reduced to int64, or a rejection |
| Money.ToCentsRejectsFraction | services/authorize-svc/internal/budget/budget.go:71-95 | a point followed by no digit or by more than two is never accepted |
| Money.AcceptedPlainIff | services/authorize-svc/internal/budget/budget.go:71-95 | an accepted string is a plain decimal iff it contains no sign |
| Money.SignedFractionIsAccepted | services/authorize-svc/internal/budget/budget.go:82-93 | an accepted string outside the plain decimals: "1.-5" is 95 cents |
| Money.AdmittedIsPlain | services/authorize-svc/internal/server/authorize.go:26 | every amount the endpoint admits and toCents accepts is a plain decimal with at most two places, so the exactness result covers it |
| Money.LargeAmountTurnsNegative | services/authorize-svc/internal/budget/budget.go:71-95 | the admitted amount "92233720368547758.08" is read as -2^63 cents |
| Money.LargeAmountTurnsSmall | services/authorize-svc/internal/budget/budget.go:71-95 | the admitted amount "184467440737095515" is read as -116 cents |
| Money.CentsCompareAsRationals | services/authorize-svc/internal/engine/predicate.go:74-77 | comparing cents agrees with comparing the rationals the limit rule uses, for all amounts in range |
| Money.CentsRoundTrip | services/authorize-svc/internal/budget/budget.go:98-107 | toCents(centsToStr(c)) == c for every c in [0, 2^63) |
| Counter.ReserveExactIff | services/authorize-svc/internal/budget/counter.go:33-42 | the check-and-add is exact for every prior in [0, limit] iff the amount is non-negative and limit + amount < 2^63 |
| Counter.MemCounter.Reserve | services/authorize-svc/internal/budget/counter.go:33-42 | new counter map and reply are the atomic check-and-add step in int64 arithmetic |
| Counter.MemCounter.Release | services/authorize-svc/internal/budget/counter.go:44-53 | the counter is lowered and floored at zero; no other key changes |
| Counter.MemCounter.Set | services/authorize-svc/internal/budget/counter.go:55-60 | exactly one key is overwritten |
| Counter.CounterKeyCollidesIff | services/authorize-svc/internal/budget/budget.go:29-31 | another (org, budget, window) has the same counter key iff one of the three parts contains a colon |
| Counter.CounterKeyInjective | services/authorize-svc/internal/budget/budget.go:29-31 | colon-free parts are recovered from the key, against every other triple |
| Counter.CounterKeyText | services/authorize-svc/internal/budget/budget.go:29-31 | an instance of the key format |
| Holds.MemStore.Place | services/authorize-svc/internal/hold/hold.go:123-139 | the new ledger is the old one plus the hold, unless its decision id is already there |
| Holds.MemStore.Resolve | services/authorize-svc/internal/hold/hold.go:143-152 | reading a held hold past its expiry writes expired into the stored row |
| Holds.MemStore.Capture | services/authorize-svc/internal/hold/hold.go:154-174 | a held hold that is not due becomes captured, stamped with now, and is returned; a captured one is returned again; voided, expired and due ones are conflicts; nothing else changes |
| Holds.CaptureCases | services/authorize-svc/internal/hold/hold.go:154-174 | the same, state by state, for the operation on ledger values the protocol is built on |
| Holds.VoidCases | services/authorize-svc/internal/hold/hold.go:176-200 | voiding, state by state: whose call releases, what is left, what conflicts |
| Holds.CaptureSticks | services/authorize-svc/internal/hold/hold.go:154-218 | after a capture no later capture, void, read or expiry changes the hold |
| Holds.PlaceMeans | services/authorize-svc/internal/hold/hold.go:123-139 | a hold is written once under its org and decision id, with its creation time, and never over another |
| Holds.DueIff | services/authorize-svc/internal/hold/hold.go:143-152 | due means held with an expiry at or before now; a captured hold never is |
| Holds.MemStore.Void | services/authorize-svc/internal/hold/hold.go:176-200 | reports released exactly when this call took the hold out of held; whole new ledger stated |
| Holds.MemStore.GetHold | services/authorize-svc/internal/hold/hold.go:235-244 | returns the resolved row, with the in-place expiry |
| Holds.MemStore.ExpireDue | services/authorize-svc/internal/hold/hold.go:203-218 | returns each hold it expired once, expires nothing else, respects the limit, and leaves no due hold when it stopped short of it |
| Holds.MemStore.ListActiveByWindow | services/authorize-svc/internal/hold/hold.go:221-233 | lists exactly the held and captured holds of the window, each once |
| Holds.AdvancesAlong | services/authorize-svc/internal/hold/hold.go:10-19 | along any chain of ledgers in which each step advances, holds are never removed, never re-enter held, and captured stays captured |
| Holds.MemKeyInjective | services/authorize-svc/internal/hold/hold.go:119 | the joined map key determines org and decision when decision ids contain no separator |
| PostgresHolds.PostgresStore.GetHold | services/authorize-svc/internal/hold/postgres.go:42-64 | the row as stored, or a copy that reads as expired; the row itself is not written |
| PostgresHolds.PostgresStore.UpdateIf | services/authorize-svc/internal/hold/postgres.go:66-125 | a conditional UPDATE takes effect iff the row is in the expected state at that moment, after arbitrary other transactions; a row it takes out of held is recorded as this session's exit, and nothing else is |
| PostgresHolds.PostgresStore.Capture | services/authorize-svc/internal/hold/postgres.go:66-91 | under arbitrary concurrent transactions the retry recursion ends after at most one retry; success means the row is captured, a conflict names the state that refuses |
| PostgresHolds.PostgresStore.VoidExpired | services/authorize-svc/internal/hold/postgres.go:104-110 | reports no release and takes no row out of held; a row that was expired becomes voided |
| PostgresHolds.PostgresStore.Void | services/authorize-svc/internal/hold/postgres.go:93-125 | at most one retry under interference; released is reported exactly when this call's own UPDATE took the row out of held, which happens once per row over all sessions |
| BudgetProtocol.StepKeeps | services/authorize-svc/internal/budget/reserver.go:39-109 | every counter call, ledger call, lost reply and lost operation, by any caller, keeps each counter at or above what is spent and in flight on it, at or below its limit, and every cent accounted for, given reserves within int64 and harmless place losses |
| BudgetProtocol.ReserveKeeps | services/authorize-svc/internal/budget/reserver.go:54-63 | a reserve, acknowledged or lost, whose sum does not wrap keeps balance and limit |
| BudgetProtocol.PlaceOkKeeps | services/authorize-svc/internal/budget/reserver.go:67-85 | placing the hold, with a fresh or a reused decision id, keeps the balance |
| BudgetProtocol.PlaceErrKeeps | services/authorize-svc/internal/budget/reserver.go:80-83 | a failed place hands the amount to an undo release and keeps the balance |
| BudgetProtocol.PlaceLostKeepsIff | services/authorize-svc/internal/budget/reserver.go:80-83 | a place whose reply is lost, and which is undone all the same, keeps the books iff nothing was placed or the counter exceeds what is spent and in flight by the cents of the hold |
| BudgetProtocol.ReleaseKeeps | services/authorize-svc/internal/budget/counter.go:44-53 | a due release is never clipped at zero and keeps the balance |
| BudgetProtocol.LedgerStepShape | services/authorize-svc/internal/hold/postgres.go:93-153 | each ledger step changes nothing, moves one hold along the lifecycle, or ends one held hold and hands out its release |
| BudgetProtocol.LedgerStepKeeps | services/authorize-svc/internal/hold/hold.go:143-218 | read, capture, void and expiry steps of both ledgers keep the balance |
| BudgetProtocol.RebuildKeeps | services/authorize-svc/internal/budget/reconcile.go:81-93 | a rebuild of a quiet window keeps the balance and every limit |
| BudgetTheorems.RunInvariant | services/authorize-svc/internal/budget/reserver.go:39-109 | the invariant holds at every moment of every run whose reserves stay within int64 and whose place losses are harmless |
| BudgetTheorems.NoOversell | services/authorize-svc/internal/budget/counter.go:33-53 | at every moment of every such run: held plus captured cents <= counter <= limit, zero when the limit reads as negative, and no due release is clipped by the floor |
| BudgetTheorems.ReserveKeepsIff | services/authorize-svc/internal/budget/counter.go:36-41 | a reserve from good books leaves good books iff its cents are not negative and their sum with the counter does not wrap, or a still more negative limit refuses it |
| BudgetTheorems.ReserveAlwaysKeepsIff | services/authorize-svc/internal/budget/counter.go:36-41 | it does so from all good books iff cents >= 0 and limit + cents < 2^63, or limit < cents < 0: a condition on the request alone |
| BudgetTheorems.AmountInRangeIff | services/authorize-svc/internal/budget/budget.go:71-95 | on the text of the amount: in range and counted exactly iff limit + 100 times the decimal is below 2^63 |
| BudgetMoney.NoOversellMoney | services/authorize-svc/internal/budget/reserver.go:46-63 | with the service parser, if every reserve names an amount that fits, the money held and captured never exceeds the decimal the policy states as limit, to the cent, even where that decimal wraps |
| BudgetMoney.HoldsHaveWhatReservesHave | services/authorize-svc/internal/budget/reserver.go:67-79 | every hold on the ledger or on its way there has an amount and counter some reserve of the run had |
| BudgetFailures.WrappedAmountOversells | services/authorize-svc/internal/budget/counter.go:36-41 | a fault-free run with such an amount, the service keys and parser, that ends with 2.16 spent under a limit of 1.00 |
| BudgetFailures.WrappedAmountOversellsRedis | services/authorize-svc/internal/budget/redis.go:25-73 | the same calls on the Lua counter, with the same end |
| BudgetLoss.SlackStep | services/authorize-svc/internal/budget/reserver.go:54-109 | what a counter says beyond spend and operations in flight grows by exactly the cents of a lost reserve, a reused decision id, a lost operation or a read past expiry, shrinks by those of a lost place, and is ended by a rebuild |
| BudgetLoss.SlackFlow | services/authorize-svc/internal/budget/reserver.go:54-109 | at every moment of every run a counter is spend plus cents in flight plus what such steps left on it since its last rebuild |
| BudgetLoss.LossHarmlessIff | services/authorize-svc/internal/budget/reserver.go:80-83 | in a run: a lost place leaves good books iff the decision id was known or its cents had strayed onto the counter since the last rebuild |
| BudgetLoss.LossCoversIff | services/authorize-svc/internal/budget/reserver.go:80-83 | after a lost place every continuation keeps spend <= counter <= limit iff the loss was harmless, a condition on the two stores and the operations in flight |
| BudgetLoss.LossOversellsIff | services/authorize-svc/internal/budget/reserver.go:80-83 | with the service parser and any limit below 2^63 - 1: after a lost place no continuation ever spends more than the limit iff the loss was harmless |
| BudgetRedis.Followed | services/authorize-svc/internal/budget/redis.go:25-80 | every execution over the Lua keys and the ledger, on calendar windows and one clock, has the ledger and operations of a run over TTL-free counters |
| BudgetRedis.NoOversellRedis | services/authorize-svc/internal/budget/redis.go:11-80 | so held plus captured cents stay within the limit, and while its window can still be reserved the live key covers them, although keys expire |
| BudgetFailures.LostPlaceOversells | services/authorize-svc/internal/budget/reserver.go:80-83 | a run in which a lost place reply lets a second hold of 1.00 under a limit of 1.00 |
| BudgetTheorems.NoFaultNoDrift | services/authorize-svc/internal/budget/reserver.go:54-109 | runs without lost replies, lost operations or reused decision ids accumulate no drift |
| BudgetTheorems.Conservation | services/authorize-svc/internal/hold/postgres.go:59-125 | at rest the counter equals held plus captured plus the holds expired in place, and with the SQL ledger there are none of the last |
| BudgetTheorems.CaptureStepMeans | services/authorize-svc/internal/hold/postgres.go:66-91 | the capture step of either ledger captures a held hold, stamped with now, and leaves ended ones and both counters alone |
| BudgetTheorems.VoidStepMeans | services/authorize-svc/internal/hold/postgres.go:93-125 | the void step of either ledger voids a held hold and owes its cents to the counter of its own window |
| BudgetTheorems.VoidExpiredStepMeans | services/authorize-svc/internal/hold/postgres.go:104-110 | voiding an expired hold voids it and owes nothing |
| BudgetTheorems.ExpireStepMeans | services/authorize-svc/internal/hold/hold.go:203-218 | expiring a due hold owes its cents to the counter of its own window |
| BudgetTheorems.CapturedForGood | services/authorize-svc/internal/hold/hold.go:10-19 | over any run a captured hold stays captured, counts as spent, and is never due |
| BudgetStranding.StrandStep | services/authorize-svc/internal/hold/hold.go:143-152 | one step strands a hold exactly by reading, capturing or voiding it past its expiry; only a rebuild frees it |
| BudgetStranding.StrandedIff | services/authorize-svc/internal/hold/hold.go:143-200 | the holds a counter carries for nothing are exactly those met past their expiry with no rebuild of the counter since |
| BudgetStranding.InMemoryExactIff | services/authorize-svc/internal/hold/hold.go:143-200 | the resting in-memory counter is exact iff every such encounter was with zero cents or has been rebuilt over |
| BudgetFailures.InMemoryStrandsCents | services/authorize-svc/internal/hold/hold.go:143-152 | a three-step run in which merely reading a hold after its expiry leaves cents on the counter for good |
| BudgetTheorems.EndedNeverDue | services/authorize-svc/internal/hold/hold.go:203-218 | a hold that has ended is never due again, so no later ExpireDue can return it |
| BudgetTheorems.HistoryAdvances | services/authorize-svc/internal/hold/hold.go:10-19 | over any stretch of any run the ledger only advances |
| BudgetTheorems.ExactlyOnceRelease | services/authorize-svc/internal/budget/reserver.go:96-109 | each hold is released by at most one step of a run, and a hold that is ever captured by none |
| BudgetRebuild.SpendFlow | services/authorize-svc/internal/hold/hold.go:123-218 | over any stretch of any run, spend at the end is spend at the start plus cents placed less cents ended |
| BudgetRebuild.RebuildRestores | services/authorize-svc/internal/budget/reconcile.go:81-93 | a rebuild of a quiet window makes its counter equal the ledger spend and changes no other counter |
| BudgetRebuild.RebuildCoversIff | services/authorize-svc/internal/budget/reconcile.go:81-93 | listing at i and setting at j covers what is spent and owed at j iff cents placed in between plus cents in flight at j do not exceed cents ended in between |
| BudgetRebuild.RebuildKeepsIff | services/authorize-svc/internal/budget/reconcile.go:81-93 | list-then-set leaves the books good under exactly that condition |
| BudgetFailures.RebuildRaceOversells | services/authorize-svc/internal/budget/reconcile.go:81-93 | a rebuild that lists before and sets after a whole reserve and place, with nothing in flight at either moment, ends with twice the limit spent |
| BudgetTheorems.ProductionKeyUnshared | services/authorize-svc/internal/budget/budget.go:29-31 | with colon-free ids no two windows share a counter |
| Windows.SameWindowWithinTTL | services/authorize-svc/internal/budget/budget.go:39-66 | two instants with the same day or month window key are closer together than the window TTL, by a whole day |
| Windows.WindowKeyIff | services/authorize-svc/internal/budget/budget.go:39-49 | two instants have the same window key iff they lie on the same day, in the same month, or anywhere for a rolling window |
| Windows.DateOf | services/authorize-svc/internal/budget/budget.go:39-49 | every instant of a Gregorian date has the keys YYYY-MM and YYYY-MM-DD of that date |
| Windows.YearStart | services/authorize-svc/internal/budget/budget.go:39-49 | the calendar has a leap day every fourth year, not every hundredth, but every four-hundredth |
| Windows.EpochDate | services/authorize-svc/internal/budget/budget.go:39-49 | instant 0 is 1970-01-01 |
| Windows.SameMonthText | services/authorize-svc/internal/budget/budget.go:39-49 | month keys are equal only for instants in the same calendar month, over all years |
| Windows.SameDayText | services/authorize-svc/internal/budget/budget.go:39-49 | day keys are equal only for instants on the same calendar day |
| RedisCounter.Redis.Reserve | services/authorize-svc/internal/budget/redis.go:25-55 | the reserve script: check, add, and set the TTL only when the key is new or the window is rolling |
| RedisCounter.Redis.Release | services/authorize-svc/internal/budget/redis.go:59-73 | the release script: no effect on a missing key, otherwise lowered, floored at zero, TTL kept |
| RedisCounter.Redis.Set | services/authorize-svc/internal/budget/redis.go:75-80 | one key overwritten with value and TTL |
| RedisCounter.ReserveLifetime | services/authorize-svc/internal/budget/redis.go:25-39 | a granted reserve dates a new or rolling key anew and leaves a sticky one alone; a refused one changes nothing |
| RedisCounter.RollingLifetime | services/authorize-svc/internal/budget/budget.go:54-66 | a rolling budget counts its spend for exactly thirty days after the last reserve |
| RedisCounter.StepAgrees | services/authorize-svc/internal/budget/redis.go:25-73 | one call answers the same on the TTL-bearing and the TTL-free counter and keeps them in agreement |
| RedisCounter.RedisRefinesMem | services/authorize-svc/internal/budget/redis.go:25-73 | every sequence of calls on calendar windows gets the same reserve answers from the Lua counter as from MemCounter, even when a script runs up to a day after its caller chose the window |
| RedisCounter.RedisRefinesMemFromEmpty | services/authorize-svc/internal/budget/redis.go:25-73 | the same, starting from two empty stores |
| Reserver.Reserver.constructor | services/authorize-svc/internal/budget/reserver.go:25-30 | a non-positive hold TTL becomes fifteen minutes |
| Reserver.Reserver.ReserveCents | services/authorize-svc/internal/budget/reserver.go:54-86 | counter first, then ledger, with the undo: each outcome and what both stores hold after it |
| Reserver.Reserver.Reserve | services/authorize-svc/internal/budget/reserver.go:39-86 | within limit: one row is added with the agent, amount, currency, budget, window, state and dates of this reservation, and the counter its release will lower rises by the cents its release will take off; otherwise neither store reads differently unless the undo was lost |
| Reserver.Reserver.ReserveThenVoid | services/authorize-svc/internal/budget/reserver.go:39-109 | without faults a reserve and a void leave every counter reading as before iff the void comes before the expiry or the amount is zero |
| Reserver.OneCounterPerPeriod | services/authorize-svc/internal/budget/reserver.go:40-54 | two instants reach the same counter of a budget iff they lie in the same period of its window |
| Reserver.Reserver.ReserveTwice | services/authorize-svc/internal/budget/reserver.go:39-86 | two reserves of one budget in one period draw on one cap |
| Reserver.Reserver.Void | services/authorize-svc/internal/budget/reserver.go:96-109 | the counter is lowered by the hold amount exactly when this call took the hold out of held |
| Reserver.Reserver.ReleaseExpired | services/authorize-svc/internal/budget/reconcile.go:62-77 | a batch of due holds, at most the batch size, is expired and each releases its cents once |
| Reserver.Reserver.RebuildWindow | services/authorize-svc/internal/budget/reconcile.go:81-93 | the counter becomes the (wrapped) sum of the listed holds, no matter in which order they are listed |
| Reserver.TotalIsListed | services/authorize-svc/internal/budget/reconcile.go:81-93 | summing the listed holds in any order is the sum over the ledger rows of the window |
| ReserverSteps.ReserveIsTwoSteps | services/authorize-svc/internal/budget/reserver.go:54-86 | a successful sequential reserve is the protocol run reserve, place |
| ReserverSteps.ExceededIsNoStep | services/authorize-svc/internal/budget/reserver.go:54-63 | a refused reserve leaves the protocol state as it is |
| ReserverSteps.UndoIsThreeSteps | services/authorize-svc/internal/budget/reserver.go:80-83 | what Reserve leaves after a failed place and its undo is the run reserve, failed place, release: both stores read as before |
| ReserverSteps.VoidIsSteps | services/authorize-svc/internal/budget/reserver.go:96-109 | a void is the void step, followed by a release exactly when it ended the hold |
| ReserverSteps.ReleaseExpiredIsSteps | services/authorize-svc/internal/budget/reconcile.go:62-77 | expiring and releasing a batch has the effect of a run that expires and releases its holds one by one |
| ReserverSteps.RebuildIsStep | services/authorize-svc/internal/budget/reconcile.go:81-93 | an uninterrupted rebuild of a quiet window is the rebuild step |
| Verdict.Combine | services/authorize-svc/internal/engine/verdict.go:110-157 | the short-circuiting loop computes the declarative precedence rule |
| Verdict.OrderIndependent | services/authorize-svc/internal/engine/verdict.go:110-135 | the verdict is the same for every permutation of the results |
| Verdict.ConcatIsSeverityJoin | services/authorize-svc/internal/engine/verdict.go:110-135 | concatenating non-empty result lists takes the more severe verdict, so added results never make it more permissive |
| Verdict.UnavailableNeverApproves | services/authorize-svc/internal/engine/verdict.go:141-157 | a result that is unavailable without FailOpen rules out approval |
| Verdict.OneResultDecides | services/authorize-svc/internal/engine/verdict.go:141-157 | a single result decides by its outcome, an unavailable one by its fail mode: deny, approve or review |
| Verdict.ApproveMeansAllSatisfiedIff | services/authorize-svc/internal/engine/verdict.go:110-157 | approval means all effective outcomes are satisfied iff no result has an unknown outcome name |
| Verdict.UnknownOutcomeApproves | services/authorize-svc/internal/engine/verdict.go:110-157 | a list whose only result has an unknown outcome name is approved |
| Predicates.EvalLocal | services/authorize-svc/internal/engine/engine.go:347-365 | the loop yields exactly the results of the rules in scope, in order, and their matched-rule entries |
| Predicates.OutOfScopeIgnored | services/authorize-svc/internal/engine/engine.go:347-365 | rules out of the agent scope never affect results or verdict |
| Predicates.LocalOutcomes | services/authorize-svc/internal/engine/predicates.go:29-214 | local predicates only ever satisfy, deny or flag |
| Predicates.WindowComplement | services/authorize-svc/internal/engine/predicates.go:165-174 | a time window and the window with its ends swapped partition the day unless the ends are equal |
| Predicates.WithinWindowIff | services/authorize-svc/internal/engine/predicates.go:163-174 | a window holds the minutes from its start to before its end, past midnight if need be, all day when they coincide |
| Predicates.ClockReads | services/authorize-svc/internal/engine/predicates.go:144-157 | minute of day and weekday of every second since the epoch, a Thursday |
| Predicates.ScopeMeans | services/authorize-svc/internal/engine/predicate.go:57-69 | no agents means every agent |
| Engine.SummaryNamesCause | services/authorize-svc/internal/engine/engine.go:415-449 | the summary names a rule that on its own forces the verdict |
| Engine.BudgetDecides | services/authorize-svc/internal/engine/engine.go:170-182 | on top of a local approval the budget outcome alone decides |
| Engine.ReservedMeans | services/authorize-svc/internal/engine/engine.go:268-283 | what the reserver promises becomes: one hold with the fields of the request and one raised counter, or nothing touched |
| Engine.Engine.Consult | services/authorize-svc/internal/engine/engine.go:268-283 | asking the reserver leaves the stores as the outcome says |
| Engine.Engine.Authorize | services/authorize-svc/internal/engine/engine.go:228-306 | an org with a bundle is judged by it, the boot policy stands in without a provider or without a published bundle if it has rules, otherwise there is no decision and nothing is touched |
| Engine.Engine.Decide | services/authorize-svc/internal/engine/engine.go:253-306 | judged by a policy: its version is cited and its rules and first applicable budget decide; an enforced approval under a budget adds one held hold of the request, raises the one counter it will be released from, and carries one obligation naming hold, amount and deadline; every other decision leaves both stores alone and carries none |
| Engine.BuildInputDescribes | services/authorize-svc/internal/engine/engine.go:381-406 | the rules see the fields of the request, its exact amount and the second of its instant, the first of year one if it has none |
| Engine.ExpiriesLineUpIff | services/authorize-svc/internal/engine/engine.go:312-332 | the deadline told and the expiry of the hold coincide iff: without an instant in the request, the reserver clock shows the second the decision started in; with one, it is a whole second |
| Engine.DeadlineNotAfterExpiry | services/authorize-svc/internal/engine/engine.go:312-332 | for requests as the server sends them the deadline told is never after the expiry of the hold |
| Engine.BlankExpiriesDiffer | services/authorize-svc/internal/server/authorize.go:73 | a decision started at 1.5 s: the caller is told half a second less than the hold lasts |
| PolicyRules.Parse | services/authorize-svc/internal/policy/policy.go:105-140 | the loader accepts exactly the loadable lists and builds predicate for rule |
| PolicyRules.LoadableOne | services/authorize-svc/internal/policy/policy.go:105-198 | which rules the loader takes: the fields each type needs, minutes and weekdays in range, an id, nothing of other types |
| PolicyRules.CompileRules | services/authorize-svc/internal/bundle/bundle.go:63-95 | rules are partitioned into predicates and budgets; accepted iff the local part loads; the version label is cited |
| PolicyRules.CountDuplicates | services/authorize-svc/internal/policyctl/validate.go:113-125 | no problem is reported iff non-empty rule ids are pairwise different |
| PolicyRules.Validate | services/authorize-svc/internal/policyctl/validate.go:96-174 | accepted iff the schema accepts, ids are unique and the engine loads the parity part |
| PolicyRules.BuildMeans | services/authorize-svc/internal/policy/policy.go:144-198 | a built predicate gives the outcome its rule describes, for every input |
| PolicyRules.CompiledResults | services/authorize-svc/internal/bundle/bundle.go:63-95 | the compiled policy gives the outcomes of interpreting the rules, in order, for every request |
| PolicyRules.CompiledBudget | services/authorize-svc/internal/bundle/bundle.go:63-95 | the first applicable compiled budget is the first applicable budget rule |
| PolicyRules.BudgetsDeclared | services/authorize-svc/internal/bundle/bundle.go:63-95 | the compiled budgets are the budget rules in order, with their id, agents, window, limit and currency |
| PolicyRules.NineTypesAre | services/authorize-svc/internal/bundle/bundle.go:36-62 | the nine rule types: six local, two dropped, one a budget |
| PolicyRules.ValidatedCompilesFaithfully | services/authorize-svc/internal/policyctl/validate.go:156-174 | whatever validation accepts also compiles, with the same outcomes and budget |
| PolicyRules.PublishAndCompile | services/authorize-svc/internal/bundle/bundle.go:55-95 | validate then compile, as publishing and serving do: no problems implies a faithful policy |
| PolicyControl.Service.constructor | services/authorize-svc/internal/policyctl/store.go:59-66 | the empty store satisfies the invariant |
| PolicyControl.Service.Create | services/authorize-svc/internal/policyctl/service.go:52-74 | adds one draft, or fails and changes nothing |
| PolicyControl.Service.Update | services/authorize-svc/internal/policyctl/service.go:90-105 | replaces the working copy; versions, active pointers and bundles stay |
| PolicyControl.Service.PutVersion | services/authorize-svc/internal/policyctl/store.go:120-134 | stores a version once per hash; an existing one is never changed |
| PolicyControl.Service.Mint | services/authorize-svc/internal/policyctl/service.go:120-158 | returns the stored version of the content, minted only if new, with its parent |
| PolicyControl.SameContentIff | services/authorize-svc/internal/policyctl/policyctl.go:144-196 | what is hashed of a policy and a version is equal iff their ids, name, agents and rules are, nil lists read as empty |
| PolicyControl.Service.Designate | services/authorize-svc/internal/policyctl/service.go:227-242 | policy and org bundle name the version; when the bundle write is lost after the policy write, they stay in sync iff the bundle did not serve another version of that policy |
| PolicyControl.Service.Publish | services/authorize-svc/internal/policyctl/service.go:112-166 | republishing content returns the same version; new content adds one version whose parent was active; the version has the name, agents and rules of the policy; whole state after each failing store call; invariant kept |
| PolicyControl.Service.Rollback | services/authorize-svc/internal/policyctl/service.go:194-218 | restores a stored version as working copy, active version and bundle and adds none; whole state after each failing store call |
| PolicyControl.Service.RollbackThenPublish | services/authorize-svc/internal/policyctl/service.go:194-218 | publishing right after a rollback to v returns v and adds no version, provided v still validates |
| PolicyControl.Service.Run | services/authorize-svc/internal/policyctl/service.go:52-242 | every run of operations, whatever store calls fail, keeps the invariant and every version ever stored; without a lost bundle write bundles stay in sync |
| PolicyControl.LostBundleWriteDesyncs | services/authorize-svc/internal/policyctl/service.go:158-164 | create, publish, update, and a publish that loses only its bundle write: policy and bundle then disagree |
| PolicyControl.HistoryGrows | services/authorize-svc/internal/policyctl/store.go:120-134 | adding a new version keeps hashes unique, content-addressed and parents earlier |
| PolicyControl.LineageAcyclic | services/authorize-svc/internal/policyctl/service.go:144-158 | along any chain of parent links versions are strictly older |
| BundleCache.CompileVersion | services/authorize-svc/internal/bundle/bundle.go:55-57 | compiling a published version cites its hash |
| BundleCache.CompiledSays | services/authorize-svc/internal/bundle/bundle.go:55-95 | a version compiles iff the loader takes its local rules, and then for every request to the outcomes and the budget of the version as authored |
| BundleCache.ServedSays | services/authorize-svc/internal/bundle/bundle.go:132-162 | so an org that is current is served what its published version says |
| BundleCache.Provider.Load | services/authorize-svc/internal/bundle/bundle.go:145-176 | success caches and serves the active bundle; any error leaves the cache as it was |
| BundleCache.Provider.Active | services/authorize-svc/internal/bundle/bundle.go:132-140 | a hot read changes nothing; a cold one loads; what is served cites its entry |
| BundleCache.Provider.Invalidate | services/authorize-svc/internal/bundle/bundle.go:181-184 | success makes the org current; failure keeps the cached bundle; other orgs are untouched |
| BundleCache.Provider.RefreshOrg | services/authorize-svc/internal/bundle/bundle.go:221-251 | the entry is replaced only by a successful recompile of a changed hash |
| BundleCache.Provider.RefreshAll | services/authorize-svc/internal/bundle/bundle.go:206-217 | nothing is evicted, and every org whose reads and compile succeed equals the active bundle afterwards |
| BundleCache.RefreshedIsCurrent | services/authorize-svc/internal/bundle/bundle.go:233-247 | keeping an entry because its hash did not change is keeping the active policy |
| BundleCache.ServiceIsAddressed | services/authorize-svc/internal/policyctl/store.go:120-178 | the control-plane invariant gives the content-addressed store the provider relies on |
| BundleProtocol.RunInvariant | services/authorize-svc/internal/bundle/bundle.go:132-251 | the cache invariant holds at every moment of every interleaving |
| BundleProtocol.CacheCoherent | services/authorize-svc/internal/bundle/bundle.go:132-251 | each cached policy is the compilation of the version its entry names, cites it, and that version was active at an earlier moment |
| BundleProtocol.NeverEvicted | services/authorize-svc/internal/bundle/bundle.go:219-251 | an org once cached stays cached, and only a completed load changes an entry |
| BundleProtocol.Converges | services/authorize-svc/internal/bundle/bundle.go:206-251 | once nothing is published for an org and its calls in flight are about the active hash, any load or refresh that completes makes it current, and it stays so |
| BundleProtocol.ConvergesIff | services/authorize-svc/internal/bundle/bundle.go:145-251 | that condition is exact: all continuations without a publish for the org end current iff every compilable call in flight for it holds the active hash |
| BundleProtocol.CallGetsThrough | services/authorize-svc/internal/bundle/bundle.go:145-176 | left to itself, a call whose version compiles puts its hash into the cache within three steps |
| BundleProtocol.LateLoadServesReplacedBundle | services/authorize-svc/internal/bundle/bundle.go:145-162 | a cold load in flight across a publish can overwrite the newer bundle |
| AuditChain.RecordHasherSound | services/authorize-svc/internal/audit/audit.go:156-198 | with a collision-free digest the prefixed hex hash is injective and never the genesis sentinel |
| AuditChain.ViewIff | services/authorize-svc/internal/audit/audit.go:132-189 | what is hashed of two records is equal iff predecessor, decision id, org, amount, target and every content field are, nil lists read as empty |
| AuditChain.TamperedFails | services/authorize-svc/internal/audit/audit.go:200-209 | under the hash of a verifying record another record verifies iff it has the same predecessor and agrees in all those fields |
| AuditChain.LastHashCommits | services/authorize-svc/internal/audit/audit.go:134-209 | two linked verifying logs with the same last hash have the same length and agree, record by record, on links, hashes and all those fields |
| AuditChain.DecryptedIsChain | services/authorize-svc/internal/audit/memory.go:33-68 | with a working encryptor the log that appends build decrypts to a linked, verifying chain that ends in the stored last hash |
| AuditChain.StoredLogsCommit | services/authorize-svc/internal/audit/memory.go:33-84 | two stores whose logs of an org end in the same hash show readers records that agree on links, hashes and all those fields, however each encrypts |
| AuditChain.PrefixIsChain | services/authorize-svc/internal/audit/audit.go:200-209 | every prefix of a verifying chain verifies, so the chain alone does not show truncation |
| AuditChain.NopRoundTripsIff | services/authorize-svc/internal/audit/crypto.go:28-43 | the no-op encryptor reads back exactly the values without the cipher prefix |
| AuditChain.NopLosesMarkedValue | services/authorize-svc/internal/audit/crypto.go:28-43 | a plaintext with the cipher prefix is stored and cannot be read back |
| AuditChain.UnsealSealed | services/authorize-svc/internal/audit/memory.go:159-187 | decrypting the sealed fields gives them back or fails, never anything else |
| AuditChain.MemStore.constructor | services/authorize-svc/internal/audit/memory.go:23-28 | the empty log satisfies the chain invariant |
| AuditChain.MemStore.Append | services/authorize-svc/internal/audit/memory.go:33-68 | appends one linked record with the next seq, or is a no-op on a known decision id, or fails; whole new state, invariant kept |
| AuditChain.MemStore.Get | services/authorize-svc/internal/audit/memory.go:71-84 | whatever is returned passes VerifyChainLink; with a working encryptor every logged decision is found |
| AuditChain.MemStore.AppendAll | services/authorize-svc/internal/audit/memory.go:33-68 | every run of appends keeps linear chains from genesis, unique ids and increasing seq, and only extends logs |
| Pagination.ClampLimit | services/authorize-svc/internal/audit/audit.go:250-259 | the requested page size when it lies in 1..200, 50 when it is not positive, 200 when it is larger |
| Pagination.ListInMemory | services/authorize-svc/internal/audit/memory.go:87-118 | the scan-ahead loop returns the decrypted specification page |
| Pagination.Scan | services/authorize-svc/internal/audit/memory.go:94-117 | the same for any log, filter and limit |
| Pagination.ListPostgres | services/authorize-svc/internal/audit/postgres.go:173-223 | the limit+1 form returns the decrypted specification page, failing also when the extra row does not decrypt |
| Pagination.FetchAndTrim | services/authorize-svc/internal/audit/postgres.go:197-222 | fetch one more, decrypt, trim: the specification page |
| Pagination.SortedIsReversed | services/authorize-svc/internal/audit/memory.go:94-97 | sorting a log by descending seq visits it backwards |
| Pagination.FiltersDifferIff | services/authorize-svc/internal/audit/postgres.go:269-274 | the two filters differ on a row iff its timestamp does not parse, a time bound is set, and the insertion time lies within it |
| Pagination.SameHits | services/authorize-svc/internal/audit/postgres.go:173-223 | both implementations select the same records when every evaluated_at parses |
| Pagination.PagesAgreeIff | services/authorize-svc/internal/audit/postgres.go:173-223 | when every evaluated_at parses the two listings answer alike iff no row follows the page, the next row decrypts, or the page itself does not |
| Pagination.PagesDiffer | services/authorize-svc/internal/audit/postgres.go:207-214 | two records on which the in-memory listing serves a page and the SQL one fails |
| Pagination.HitsAreKept | services/authorize-svc/internal/audit/memory.go:100-106 | the listing selects exactly the matching records |
| Pagination.ListedIff | services/authorize-svc/internal/audit/memory.go:100-110 | a record is listed iff it is in the log, below the cursor, of the agent and verdict asked for, and evaluated from the lower bound to before the upper one |
| Pagination.HitsNewestFirst | services/authorize-svc/internal/audit/memory.go:94-97 | each selected record once, newest first |
| Pagination.ResumeAt | services/authorize-svc/internal/audit/memory.go:101-110 | resuming at a hit gives exactly the hits after it |
| Pagination.AppendsInvisible | services/authorize-svc/internal/audit/memory.go:101-110 | records appended later do not appear on a resumed page |
| Pagination.SessionComplete | services/authorize-svc/internal/audit/memory.go:87-118 | following cursors yields every record that matched at the start once, newest first, despite appends, and ends |
| Pagination.ReadingComplete | services/authorize-svc/internal/audit/memory.go:87-118 | the same for the decrypted pages a reader is shown |
| AuditWriter.StepKeeps | services/authorize-svc/internal/audit/writer.go:50-112 | every lock, flag, channel and store step keeps the writer invariant |
| AuditWriter.RunInvariant | services/authorize-svc/internal/audit/writer.go:50-112 | the invariant holds at every moment of every interleaving |
| AuditWriter.NothingLostOrDoubled | services/authorize-svc/internal/audit/writer.go:77-86 | no send on a closed channel, no double close; sent = handed to the store + in hand + queued, in order and without repeats |
| AuditWriter.FlushMeansPersisted | services/authorize-svc/internal/audit/writer.go:88-90 | the wait group is zero iff nothing is between acceptance and persistence; then the store has everything sent, in order |
| AuditWriter.CloseDrainsIff | services/authorize-svc/internal/audit/writer.go:94-112 | when the closing call returns nil the store has everything sent iff the worker had been started or nothing was sent |
| AuditWriter.DrainedForGood | services/authorize-svc/internal/audit/writer.go:94-112 | after that, at every later moment and hence at every later Close, all that was sent is with the store |
| AuditDrain.KnownDrainedIff | services/authorize-svc/internal/audit/writer.go:92-112 | at every moment, also at the return of a repeated Close: all executions that look alike to Enqueue and Close callers are drained iff nothing was sent or a Close that found the worker started has returned nil |
| AuditWriter.BlockedSendProgresses | services/authorize-svc/internal/audit/writer.go:75-86 | a blocked send is never stuck behind a started worker |
| AuditWriter.WorkerCanFinish | services/authorize-svc/internal/audit/writer.go:50-59 | once the channel is closed the worker can by its own steps hand over everything and exit |
| AuditWriter.RepeatedCloseReturnsEarly | services/authorize-svc/internal/audit/writer.go:94-99 | a second Close returns nil while an accepted record is still queued |
| AuditWriter.CloseWithoutStartLosesQueue | services/authorize-svc/internal/audit/writer.go:104-108 | without Start, Close returns nil with the record still queued |
| JsonText.QuotedRoundTrip | sdks/ts/src/canonical.ts:61 | the quoted form of every string, lone surrogates included, is read back exactly |
| JsonText.EscapeLength | sdks/ts/src/canonical.ts:61 | printable characters stand for themselves, seven have two-character escapes, other controls and lone surrogates six-character ones |
| JsonText.ShortEscapesAre | sdks/ts/src/canonical.ts:61 | which letter escapes which of the seven |
| JsonText.NumberRoundTrip | sdks/ts/src/canonical.ts:63-68 | the decimal form of every integer is read back exactly |
| JsonText.NoLeadingZero | sdks/ts/src/canonical.ts:63-68 | integers are printed without leading zeros |
| CanonicalJson.SortedKeys | sdks/ts/src/canonical.ts:74 | the member names, all of them, strictly ascending by UTF-16 code unit |
| CanonicalJson.SortIsCanonical | sdks/ts/src/canonical.ts:74 | sorting the names gives this list whatever the insertion order |
| CanonicalJson.RoundTrip | sdks/ts/src/canonical.ts:58-78 | a reader recovers every supported value from its canonical text, whatever follows it |
| CanonicalJson.CanonicalIff | sdks/ts/src/canonical.ts:58-78 | two supported values print equally iff they are equal, objects compared without member order |
| CanonicalJson.JcsWellFormed | sdks/ts/src/canonical.ts:58-78 | the canonical text is well-formed UTF-16 whatever strings the value holds |
| Utf8.RoundTrip | sdks/ts/src/canonical.ts:95 | the UTF-8 bytes of well-formed text are decoded back to it |
| Utf8.LoneSurrogatesCollide | sdks/ts/src/canonical.ts:95 | without well-formedness the bytes do not determine the text |
| CanonicalJson.CanonicalBytesIff | sdks/ts/src/canonical.ts:58-96 | the bytes agree iff the values are equal |
| CanonicalJson.SelectSigned | sdks/ts/src/canonical.ts:86-94 | the loop selects the listed fields that are present and the normalised shadow flag |
| CanonicalJson.DecisionSigningBytes | sdks/ts/src/canonical.ts:86-96 | the UTF-8 bytes of the canonical text of the signed fields, or a throw on an unsupported value among them |
| CanonicalJson.MessagesAgreeIff | sdks/ts/src/canonical.ts:86-96 | for every field list containing the flag, the messages agree iff the listed fields agree |
| CanonicalJson.SigningBytesAgreeIff | sdks/ts/src/canonical.ts:86-96 | signing bytes agree iff all signed fields agree, an absent shadow being false |
| CanonicalJson.ChangeShows | sdks/ts/src/canonical.ts:86-96 | changing the decision id, verdict, policy version, explanation, obligations or instant of a decision changes its signing bytes |
| CanonicalJson.ShadowShows | sdks/ts/src/canonical.ts:86-96 | so does turning the shadow flag over |
| CanonicalJson.ChangeHidden | sdks/ts/src/canonical.ts:80-85 | changing latency, signature, record hash or the verification mark does not |
| CanonicalJson.FalsyAre | sdks/ts/src/canonical.ts:88-90 | which JSON values read as no shadow flag |
| CanonicalJson.JsonTokens | sdks/ts/src/canonical.ts:58-78 | the punctuation and the three words of JSON |
| Ulid.Encode | services/authorize-svc/internal/ulid/ulid.go:46-75 | the bit-packing encoder writes the 26-digit base-32 numeral of the 128-bit value |
| Ulid.SymbolsOf | services/authorize-svc/internal/ulid/ulid.go:50-57 | the masks and shifts cut five bytes into the eight five-bit symbols |
| Ulid.SymbolsValue | services/authorize-svc/internal/ulid/ulid.go:50-73 | cutting five bytes into eight symbols keeps the value, whatever precedes |
| Ulid.TextWellFormed | services/authorize-svc/internal/ulid/ulid.go:43-49 | 26 Crockford characters, the first at most 7 |
| Ulid.CrockfordCharacters | services/authorize-svc/internal/ulid/ulid.go:17-18 | the alphabet is the digits and the capital letters but I, L, O and U |
| Ulid.OrderPreserving | services/authorize-svc/internal/ulid/ulid.go:46-75 | texts sort as strings exactly as the bytes sort |
| Ulid.LeftInverse | services/authorize-svc/internal/ulid/ulid.go:46-75 | decoding the text gives the bytes back |
| Ulid.TextInjective | services/authorize-svc/internal/ulid/ulid.go:46-75 | different byte strings have different texts |
| Ulid.New | services/authorize-svc/internal/ulid/ulid.go:26-41 | the id of a millisecond stamp and ten entropy bytes |
| Ulid.TimeSortable | services/authorize-svc/internal/ulid/ulid.go:4-7 | ids of a later millisecond sort later, whatever the entropy, until the 48-bit clock wraps |
| ReplayGuard.SkewCheckIff | services/authorize-svc/internal/auth/auth.go:277-283 | the skew check is the intended bound exactly for timestamps less than 2^63 ns ahead of the clock |
| ReplayGuard.SignedIff | services/authorize-svc/internal/auth/auth.go:262-300 | the signature check passes iff the MAC is right, the nonce has 8 to 128 characters, and the timestamp is whole seconds within the skew or beyond the wrap |
| ReplayGuard.CompositeInjective | services/authorize-svc/internal/auth/memory.go:64 | NUL-free key ids make the composite nonce key injective |
| ReplayGuard.MemNonceStore.Remember | services/authorize-svc/internal/auth/memory.go:63-74 | fresh iff no unexpired entry; then exactly that entry is written |
| ReplayGuard.MemNonceStore.Serve | services/authorize-svc/internal/auth/memory.go:63-74 | over a whole run the store accepts exactly the attempts the run semantics accepts |
| ReplayGuard.Authenticator.constructor | services/authorize-svc/internal/auth/auth.go:183-195 | the nonce lifetime is raised to twice the skew, in int64 arithmetic |
| ReplayGuard.FloorHoldsIff | services/authorize-svc/internal/auth/auth.go:184-187 | the floor guarantees twice the skew for every configured lifetime iff the skew is below 2^62 ns |
| ReplayGuard.Authenticator.Authenticate | services/authorize-svc/internal/auth/auth.go:202-259 | the exact condition of each of the five outcomes; only an accepted request uses up a nonce |
| ReplayGuard.NoReplayIff | services/authorize-svc/internal/auth/auth.go:177-195 | no run whose timestamps lie less than b ahead accepts one (key, nonce, timestamp) twice iff nonceTTL > 2 maxSkew + d and b <= 2^63 ns, d bounding the delay from check to record |
| ReplayGuard.ReplayIsFarAhead | services/authorize-svc/internal/auth/auth.go:273-283 | above that lifetime, whatever is accepted twice was first stamped 2^63 ns or more ahead of the clock |
| ReplayGuard.FarAheadReplays | services/authorize-svc/internal/auth/auth.go:273-283 | for every skew and lifetime there is an int64 timestamp with which a request is accepted, and accepted again when its nonce lapses |
| ReplayGuard.FloorLeavesOneInstant | services/authorize-svc/internal/auth/auth.go:184-187 | with the floor nonceTTL == 2 maxSkew and no delay a double acceptance is at timestamp - maxSkew and timestamp + maxSkew, or of a timestamp 2^63 ns ahead |
| ReplayGuard.NewNonceAccepted | services/authorize-svc/internal/auth/memory.go:63-74 | an attempt that passes the skew check with a nonce that key has not used is accepted |

## Left out

- HTTP handlers, middleware, problem bodies, configuration, logging, metrics, command-line tools, the dashboard and the SDK transports: plumbing with single-branch facts.
- Ed25519, HMAC, SHA-256, AES-GCM, base64 and the Go canonicalisation library: foreign code, present only through the laws above. Record fields are taken as valid UTF-8 and latencies as exactly representable, where the JSON rendering before hashing is injective; error returns of the hash computation are not modelled.
- The JSON Schema validator: taken to accept only the nine rule types.
- `internal/ratelimit`: the same increment-and-compare as the counter with no second store.
- `internal/idempotency`: reused decision ids appear in the budget protocol as a fault instead.
- Keyring rendering, key administration and provisioning: short map updates.
- The SQL decision log's Append: it takes the same step as the in-memory one under a per-org advisory lock; transactions, row scanning and isolation levels are not modelled. Each SQL statement and each Lua script is one atomic step.
- A store call that fails is taken to have changed nothing, except where a lost reply is a step of its own (reserve, place and release in the budget protocol).
- RedisCounter.RedisRefinesMem: covers the sticky calendar windows on one clock with amounts below 2^53 and at most a day between choosing a window and reaching the counter; a rolling window's counter does expire between reserves, by design, and is not equated with MemCounter.
- BudgetRedis.NoOversellRedis: the same restrictions, with limits below 2^53 as well; beyond 2^53 Lua rounds, which is not modelled.
- BudgetLoss.LossOversellsIff: under a limit of 2^63 - 1 no reserve of a cent is in range, so only the covering form, LossCoversIff, speaks of it.
- BudgetTheorems.NoOversell: the limit of a window is fixed during a run; reserves outside int64 and harmful place losses are steps of the protocol that the hypothesis excludes, with the exact conditions in ReserveAlwaysKeepsIff, LossCoversIff and LossHarmlessIff; a rebuild is a step only on a window with nothing in flight, the general case being RebuildKeepsIff.
- Hold, policy and version maps are keyed by pairs instead of joined strings; MemKeyInjective says when that is the same.
- PostgresHolds.PostgresStore.Void: a held row that is past its expiry but not yet reconciled is reported as it reads, and the update that would void it matches no row, so it stays held until the reconciler expires it; the contract follows the code.
- The SQL ExpireDue statement and window listing are steps of the budget protocol, not methods of the PostgresStore class.
- AuditWriter.BlockedSendProgresses: no fairness is assumed, so it says that a step is enabled and not that it is eventually taken; waiting writers block new readers in Go and are allowed to be overtaken here, which only adds interleavings.
- Pagination.ListPostgres: the query without its LIMIT is the newest-first filter of the rows; the SQL planner is not modelled.
- CanonicalJson.RoundTrip: numbers are JavaScript's safe integers; larger integral doubles print rounded digits or an exponent. Negative zero prints as 0 and is identified with it.
- ReplayGuard.Authenticator.Authenticate: bearer parsing, key hashing and the MAC are inputs; the canonical request string is not modelled, nor is the wrap of time.Unix at the ends of the int64 seconds range.
- Ulid.Encode: the encoder's repeated eight-line pattern is one method applied to the three groups of five bytes.
- Human-readable detail and evidence strings, latencies, the Stub authorizer and slice aliasing: no property depends on them; rule and agent lists are values.
