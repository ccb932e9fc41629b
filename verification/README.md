# Verified model of the Emporion desk

This project models the parts of the desk whose correctness is hard to see from one function at
a time, and proves what they promise over every input, every run or every reachable state. It
stands beside the Python package `hedge_desk`; `dafny verify dfyconfig.toml` checks it.

Money, prices, rates and probabilities are exact reals. Instants are whole microseconds and
e-mail addresses are in lower case, as the stores reduce them. An exception is the `Err` or `None`
of a result. Digests, ISO timestamps and random tokens are function parameters or inputs, and
nothing assumes that a hash has no collisions: where that would matter, the conclusion is "or the
two entries that collide".

## What is modelled

* **Bonds** (`Bonds`, `BondValues`, `BondTheorems`, on `Sums` and `Powers`): the closed-form price
  against the discounting loop, and the inequalities between price, yield and duration.
* **Inference** (`Binomial`, `StatInference`, `Calibration`): the exact binomial tail against the
  listed outcome sequences, the Wilson interval as roots of a quadratic, the Brier bound.
* **Rate limits** (`RateLimiter`, `AuthRateLimits`): pruned and evicted deques against the full
  history of accepted events, per client and per address.
* **Membership** (`Membership`, `SqliteMembers`, `SupabaseMembers`, `MemberStores`,
  `MembershipTheorems`, `MembershipHistory`, `MembershipQueries`, `Otps`, on `QueryText`): the
  SQLite statements and the REST call sequences, down to the text of their queries, as two
  implementations of one access policy, the addresses for which they are that, and the exact places
  where they differ for those; who has which role and who is let in, told from the calls that were
  made.
* **Auth endpoints** (`AuthApp`, `AuthEffects`, `AuthQueries`, `AuthTheorems`, `CodeBudget`):
  requests as steps of a state machine over either store, with the rate limiters that a restart
  empties and the tables that outlive it; what each request writes and how it is answered; every
  role, seat, session and broker link is traced to the request entitled to create it.
* **Ledgers** (`HashChain`, `AuditChain`, `AuditAnswers`, `ReferenceAudit`, `AuditStore`,
  `MembershipAudit`, `Scheduler`): hash chains, the journal file, and at-most-once runs with
  recovery.
* **Metrics and stress** (`Metrics`, `PortfolioStress`): drawdown and expected shortfall, and the
  stress report's own capital path.
* **Single-flight refresh** (`MarketContext`): readers and refreshers interleaved section by section.
* **Selection and ranking** (`Dividends`, `DividendReasons`, `DividendTheorems`, `DividendCape`,
  `DividendCapeReasons`, `DividendCapeTheorems`, `Arbitrage`, `ArbitrageReasons`,
  `ArbitrageTheorems`, `OptionsSeed`, `OptionsSeedAnswers`, `OptionsSeedStore`, on `Sorting` and
  `Collections`): partitions, canonical order, independence of input order, exactly what gives each
  reason and what each figure is, and a producer that agrees with its validator.

Where the program changes an object in place the model is a class with the same fields
(`SlidingWindowLimiter`, `SqliteStore`, `SupabaseStore`, `MemberStore`, `OtpTable`, `AuthServer`,
`MembershipAuditLog`, `Journal`, `SeedFile`, `Service`), and each method is proved to make exactly
the step that a specification function describes; the theorems are about runs of those steps. What
a single step answers and writes is stated once more without the functions that define it, field by
field and with the periods and limits written out (`AuthEffects`, `MembershipHistory`,
`MembershipQueries`, the `...Reasons` and `...Answers` modules, and the lemmas named `...Means`,
`...Answers`, `...Writes` and `...ExactlyWhen`), so that a step that came to anything else would
contradict one of them.

## Where the code and its promises part

These are results, each with the exact condition under which the promise holds.

* With no coupon period left the price is the face value but the duration loop adds up to nothing
  (`BondValues.PriceIsPresentValue`).
* `remaining` creates a key, so it alone can push the limiter's map past `max_keys`
  (`RateLimiter.RemainingKeepsBound`).
* `supabase_membership.py` writes an address into the text of its queries without escaping it. The
  two stores agree on every table exactly for the addresses that hold nothing that means something
  there: printable ASCII without `#`, `&`, `+` and `%xx`
  (`MembershipTheorems.CallsAgreeExactlyWhenNamed`, `Otps.QueryIsExactWhenNamed`,
  `QueryText.NamedExactlyWhen`). So an address with a `+` is inserted and then not found:
  while no address holds a blank, nobody with such an address ever signs in
  (`AuthQueries.PlusNeverSignsIn`). An invite of an address that is not ASCII is answered as a
  conflict, and has taken a seat by then (`AuthQueries.RefusedInviteMaySeat`). Behind a
  `#` the query is cut: an invite seats two addresses
  (`MembershipTheorems.CutInviteTakesTwoSeats`), so that an address that nobody invited becomes an
  LP (`AuthTheorems.CutInviteSeatsAnother`), and a verification opens codes of the shorter
  address that are used or were issued for something else
  (`AuthTheorems.CutVerificationOpensAnyCode`). What is stated below for the Supabase store is
  stated for addresses that name themselves unless it says otherwise; SQLite needs no such condition.
* A seat taken on an existing row rewrites `created_at` and `subscribed` in Supabase, and an invite
  leaves the guest expiry there; SQLite does neither (`MembershipTheorems.DriftsExactlyWhen`). The
  docstring of `upsert_guest` reports the same effect for sign-in as a fixed fault.
* The Supabase store has no lock, and the server is threaded. Two verifications that both read
  before either writes accept one code twice (`Otps.InterleavedVerificationsShareACode`), as two
  invites pass the seat cap (`MembershipTheorems.InterleavedInvitesPassTheCap`).
* SQLite looks at the five newest unused codes only, Supabase at all of them. The stores agree on an
  address's codes exactly when no live code is hidden behind the five newest
  (`Otps.StoresAgreeExactlyWhen`), that is while at most five are live, if the codes are hashed
  differently (`Otps.StoresAgreeExactlyWhenFewAreLive`). The request limiter sees to that for
  sign-in codes as long as the server does not restart over a live one
  (`CodeBudget.CodesAgreeUnlessRestarted`): a restart forgets the limit but not the codes, and six
  requests around one can leave a code that opens in one store only
  (`CodeBudget.RestartSplitsTheStores`). Nothing limits broker codes.
* `rate_limit.py` promises that guessing a code is limited per address. The limiter counts the
  address as the request spells it, while Supabase reads the address before a `#`: up to ten
  thousand spellings each get attempts at one code (`CodeBudget.CutAttemptsAreNotLimited`). For an
  address that names itself, at most ten attempts in 900 seconds hold in every run in which the
  clock does not run back exactly with SQLite (`CodeBudget.AttemptsAreLimitedExactlyWithSqlite`),
  and with Supabase where the verifications name themselves too (`CodeBudget.AtMostTenAttempts`).
* Keys of one limiter are not independent: an event accepted for one key can take the last room of
  another, untracked one, and a reset can give it back (`RateLimiter.OtherKeysAnswer`).
* For such addresses a role falls in one way only: a GP row is given a seat (`MembershipTheorems.RoleFallsExactlyWhen`),
  which the GP can do by inviting the GP's own address. The 403 answers of sign-in cannot occur
  (`AuthTheorems.SignInIsNeverForbidden`).
* Deleting an entry of the membership audit log goes unnoticed exactly when it is the last one or
  lies beyond the 500 entries that `verify` reads (`MembershipAudit.DeletionIsReported`), and so does
  rewriting one with a recomputed digest, the 500th included
  (`MembershipAudit.AlterationIsReported`); the module docstring and `supabase/schema.sql` promise
  that any edit or deletion breaks the chain.
* Verification of the audit chain accepts an empty reason code that append refuses
  (`AuditChain.VerifiedMeansAppendable`). Building the reference audit fails exactly when a folded
  artifact identity is 64 zeros (`ReferenceAudit.BuildAudit`).
* The journal suppresses any event that carries the last event's hash, whatever else it says
  (`AuditStore.RepeatedHashIsSuppressed`).
* A recovery request that names an empty source makes a receipt that does not validate, after which
  nothing runs any more; nothing else does (`Scheduler.LedgerValidExactlyWhenNamed`,
  `Scheduler.InvalidLedgerFailsClosed`). A failed run can be recovered any number of times
  (`Scheduler.FailedRunStaysRecoverable`).
* In a stress scenario a later shock of a project overwrites an earlier one
  (`PortfolioStress.OverwrittenShocksAreLost`).
* Two different selectable quotes with equal delta distance, open interest and ask, anywhere in the
  list, make the seed selection fail with a type error, because the sort goes on to compare
  dictionaries (`OptionsSeed.SelectSeedPut`, `OptionsSeed.RefusalsAreExact`).

## Model

| member | source | states |
|---|---|---|
| Bonds.MacaulayDuration | hedge_desk/rates_futures.py:69-93 | the loop returns the mean payment time of the discounted payments in years, 0 for a worthless bond |
| BondValues.PriceIsPresentValue | hedge_desk/rates_futures.py:32-93 | the closed form, in the zero-yield and the annuity branch, equals the total of the discounted payments exactly when a payment is left or the face is zero |
| BondTheorems.PriceFallsAsYieldRises | hedge_desk/rates_futures.py:32-58 | a higher yield gives a strictly lower price |
| BondTheorems.ParExactlyAtCouponRate | hedge_desk/rates_futures.py:32-58 | price equals face exactly when yield equals coupon rate |
| BondTheorems.ConvexityTangent | hedge_desk/rates_futures.py:32-102 | any yield move changes the price by at least the first-order estimate with modified duration |
| BondTheorems.RawDurationCoversTheLoss | hedge_desk/rates_futures.py:32-102 | at non-negative yields raw Macaulay duration never understates the loss of a yield rise |
| BondTheorems.DurationWithinLife | hedge_desk/rates_futures.py:69-93 | duration lies between the first and last payment date, at the last exactly for a zero coupon or a single period |
| BondTheorems.DurationFallsAsYieldRises | hedge_desk/rates_futures.py:69-93 | a higher yield never lengthens duration, and shortens it exactly for a positive coupon and at least two periods |
| BondTheorems.PaymentsAre | hedge_desk/rates_futures.py:32-93 | each period pays its share of the yearly coupon, and the last one the face value with it |
| BondTheorems.PriceIsRefusedExactlyWhen | hedge_desk/rates_futures.py:32-58 | a price is refused for no period a year, for negative years, and where the growth of a period is zero |
| BondTheorems.DurationAnswers | hedge_desk/rates_futures.py:69-93 | the duration is refused only where it would divide by zero, is zero for discounted payments that add up to nothing, and otherwise weighs their times with them |
| Binomial.OutcomesComplete | hedge_desk/stat_inference.py:50-62 | the reference list of outcomes is every sequence of that length |
| Binomial.OutcomesDistinct | hedge_desk/stat_inference.py:50-62 | and lists none twice |
| Binomial.TailIsProbability | hedge_desk/stat_inference.py:50-62 | the tail sum is the total probability of all outcome sequences with at least that many hits |
| Binomial.TailFromZero | hedge_desk/stat_inference.py:50-62 | the tail from zero hits is 1 |
| Binomial.TailFallsWithHits | hedge_desk/stat_inference.py:50-62 | the tail lies in [0,1] and falls strictly with every required hit up to the sample size |
| Binomial.TailRisesWithChance | hedge_desk/stat_inference.py:50-62 | the tail never falls when the null rate rises |
| StatInference.ExcessSign | hedge_desk/stat_inference.py:65-78 | p lies between the unclamped endpoints exactly when the score test does not reject it |
| StatInference.WilsonInterval | hedge_desk/stat_inference.py:65-78 | the endpoints are the two roots of the score equation, enclose the hit rate, lie in [0,1] unclamped, and touch 0 or 1 exactly at no or all hits |
| StatInference.PValueIsNullProbability | hedge_desk/stat_inference.py:81-121 | a published p-value is the null chance of at least the observed hits, published exactly from the minimum sample size on |
| StatInference.InferenceDescribesTheSample | hedge_desk/stat_inference.py:81-121 | sample size, hits, observed rate, null rate, alpha and status are those of the outcomes and the policy, and below the minimum sample nothing more is published |
| StatInference.PublishedVerdict | hedge_desk/stat_inference.py:65-121 | from the minimum sample on the verdict is significant exactly when the null chance of at least the observed hits is at most alpha, and the interval ends at the only two rates that lie 1.96 of their own standard errors from the observed one |
| StatInference.SignificanceIsMonotone | hedge_desk/stat_inference.py:106-121 | at one sample size, more hits, an easier null or a looser alpha never undo a significant verdict |
| Calibration.FiguresMean | hedge_desk/stat_evaluation.py:66-96 | refuses exactly an empty list and repeated identities; otherwise the mean forecast carries the forecasts' total, the event rate is the share of events, and the score the total of the squared misses, so that it is zero exactly for forecasts that were certain and right |
| Calibration.BrierCoversTheBias | hedge_desk/stat_evaluation.py:74-96 | the Brier score is at least the squared gap between mean forecast and event rate, equal to it exactly when all forecasts miss by the same amount, and at most 1 |
| RateLimiter.SlidingWindowLimiter.Allow | hedge_desk/rate_limit.py:68-85 | the step of the limiter's map, with eviction before refusal |
| RateLimiter.SlidingWindowLimiter.EvictExpired | hedge_desk/rate_limit.py:56-66 | drops exactly the keys without an event inside the window |
| RateLimiter.SlidingWindowLimiter.Prune | hedge_desk/rate_limit.py:50-54 | drops the events at or before the cutoff from the front |
| RateLimiter.SlidingWindowLimiter.Remaining | hedge_desk/rate_limit.py:87-91 | the unused allowance, creating the key |
| RateLimiter.SlidingWindowLimiter.Reset | hedge_desk/rate_limit.py:93-95 | forgets the key |
| RateLimiter.AllowAnswersByFullHistory | hedge_desk/rate_limit.py:50-85 | over every run each answer is the full-history rule, except for an untracked key when all tracked keys are live |
| RateLimiter.RemainingCountsByFullHistory | hedge_desk/rate_limit.py:87-91 | the number reported is the limit less the accepted events in the window |
| RateLimiter.NoWindowOverLimit | hedge_desk/rate_limit.py:68-85 | no interval of the window's length holds more than the limit of accepted events of one key |
| RateLimiter.OtherKeysAnswer | hedge_desk/rate_limit.py:56-95 | over every run, a call on one key takes another key's acceptance exactly when an allow takes its last room, gives it back exactly when a reset makes room, and never touches a key with an event in the window |
| RateLimiter.MapStaysBounded | hedge_desk/rate_limit.py:56-85 | over runs of allow and reset the map never exceeds max_keys |
| RateLimiter.KeyIsDroppedExactlyWhen | hedge_desk/rate_limit.py:56-85 | another key is dropped exactly when a new one finds the map full and it has no event inside the window, and is otherwise left alone |
| RateLimiter.RemainingKeepsBound | hedge_desk/rate_limit.py:87-91 | remaining keeps the bound exactly when its key is tracked or there is room |
| AuthRateLimits.AuthRateLimits.AllowRequest | hedge_desk/rate_limit.py:108-119 | asks the address limiter only after the IP limiter accepted |
| AuthRateLimits.RefusedIpSpendsNoAddressBudget | hedge_desk/rate_limit.py:108-119 | the address limiter ends as if only the requests the IP limiter accepted had been made |
| AuthRateLimits.AtMostFiveCodesPerAddress | hedge_desk/rate_limit.py:98-119 | an address is granted at most 5 codes in any 900 seconds, whoever asks |
| AuthRateLimits.ClientAnswer | hedge_desk/rate_limit.py:98-119 | over every run whose clocks do not run back, a request passes the IP limiter exactly when fewer than 20 of the same client passed in the 900 seconds before and there is a bucket for it; requests without a client share one |
| AuthRateLimits.AtMostTwentyPerClient | hedge_desk/rate_limit.py:98-119 | so no client passes more than 20 times in any 900 seconds |
| AuthRateLimits.GrantAnswer | hedge_desk/rate_limit.py:108-119 | a request that passes is granted exactly when fewer than 5 codes were granted to its address in the 900 seconds before and there is a bucket for it |
| AuthRateLimits.VerifyAnswer | hedge_desk/rate_limit.py:106-122 | a verification passes exactly when fewer than 10 of its address passed in the 900 seconds before and there is a bucket for it |
| SqliteMembers.SqliteStore.UpsertGuest | hedge_desk/membership.py:175-189 | inserts a guest or moves only the expiry |
| SqliteMembers.SqliteStore.EnsureGp | hedge_desk/membership.py:191-211 | inserts the GP or raises the row, nothing for an empty address |
| SqliteMembers.SqliteStore.SetSubscribed | hedge_desk/membership.py:213-231 | inserts a member or raises a guest, never lowers |
| SqliteMembers.SqliteStore.PromoteToLp | hedge_desk/membership.py:233-250 | gives a seat under the cap and clears expiry and invite |
| SqliteMembers.SqliteStore.SetLpFee | hedge_desk/membership.py:252-266 | changes the fee of an LP row only |
| SqliteMembers.SqliteStore.LpCount | hedge_desk/membership.py:268-272 | the number of LP rows |
| SqliteMembers.SqliteStore.IssueLpInvite | hedge_desk/membership.py:294-319 | gives a seat with an invite, or the cap error |
| SqliteMembers.SqliteStore.AccessFor | hedge_desk/membership.py:393-412 | this store's own case analysis is the shared access decision |
| QueryText.NamedExactlyWhen | hedge_desk/supabase_membership.py:86-101 | the query asks for the address itself exactly when the address is printable ASCII without `#`, `&`, `+` and `%xx` |
| QueryText.CutAddress | hedge_desk/supabase_membership.py:86-101 | behind a `#` an address may go on, and the query asks for what stands before |
| QueryText.ConditionAddress | hedge_desk/supabase_membership.py:86-101 | behind a `&` it brings a condition along, and the query asks for what stands before |
| QueryText.DecodedMeans | hedge_desk/supabase_membership.py:86-101 | an escape asks for the character of that code, a `+` for a blank, everything else for itself |
| SupabaseMembers.SupabaseStore.GetMember | hedge_desk/supabase_membership.py:119-137 | the row that the text of the query selects, or the failure of the call |
| SupabaseMembers.SupabaseStore.Patch | hedge_desk/supabase_membership.py:169-176 | changes only the columns sent, of the row that the text selects, whose filter on the role is lost behind a `#` |
| SupabaseMembers.SupabaseStore.UpsertGuest | hedge_desk/supabase_membership.py:139-179 | the GET, the POST or PATCH and the final lookup make exactly the specified step: a conflict and a row that is not found again raise |
| SupabaseMembers.SupabaseStore.EnsureGp | hedge_desk/supabase_membership.py:181-215 | the call sequence makes exactly the specified step, nothing for an empty address |
| SupabaseMembers.SupabaseStore.SetSubscribed | hedge_desk/supabase_membership.py:217-243 | the call sequence makes exactly the specified step: a merging POST when no row is found, a filtered PATCH for a guest |
| SupabaseMembers.SupabaseStore.PromoteToLp | hedge_desk/supabase_membership.py:245-276 | a merging POST of the address and a PATCH of the row that the query finds, the POST kept if the PATCH fails |
| SupabaseMembers.SupabaseStore.SetLpFee | hedge_desk/supabase_membership.py:278-287 | changes the fee of the row that the filtered query finds, and fails if the lookup finds none |
| SupabaseMembers.SupabaseStore.IssueLpInvite | hedge_desk/supabase_membership.py:310-342 | a merging POST of the address and a PATCH of the row that the query finds, the guest expiry kept |
| MembershipTheorems.NamedStep | hedge_desk/supabase_membership.py:139-342 | for an address that names itself the calls of an operation come to one change of its row |
| MembershipTheorems.StoresAgreeOverEveryRun | hedge_desk/membership_base.py:47-61 | driven alike from empty tables with addresses that name themselves, the stores keep coupled rows, give the same outcomes and decide access alike for every such address at every time |
| MembershipTheorems.CallsAgreeExactlyWhenNamed | hedge_desk/supabase_membership.py:119-342 | that condition is exact: for every operation, the stores agree on all tables exactly when the address names itself |
| MembershipTheorems.DriftsExactlyWhen | hedge_desk/supabase_membership.py:245-342 | from equal tables one call for an address that names itself leaves equal tables exactly when it does not seat a row the merge alters |
| MembershipTheorems.TablesStayEqualExactlyWhen | hedge_desk/supabase_membership.py:139-342 | over a run of such calls the tables are equal throughout exactly when no call drifts |
| MembershipTheorems.InvitingAGuestDrifts | hedge_desk/supabase_membership.py:310-342 | an invited guest keeps a different creation time and expiry in Supabase |
| MembershipTheorems.SeatsNeverExceedTheCap | hedge_desk/membership.py:233-319 | after every run SQLite holds at most 99 LP rows, and Supabase after every run with addresses that name themselves |
| MembershipTheorems.SeatsTaken | hedge_desk/supabase_membership.py:310-342 | a Supabase invite seats exactly its address and the one that its query finds |
| MembershipTheorems.CutInviteTakesTwoSeats | hedge_desk/supabase_membership.py:310-342 | so one invite of an address with a `#` can take two seats |
| MembershipTheorems.InterleavedInvitesPassTheCap | hedge_desk/supabase_membership.py:310-342 | two Supabase invites that both read the count first can leave 100 seats |
| MembershipTheorems.RoleFallsExactlyWhen | hedge_desk/membership.py:175-319 | no call removes a row, and exactly when a role falls: in SQLite and for addresses that name themselves, when a GP row is given a seat; in Supabase also when another address reaches the GP row or a subscription does not find its own |
| MembershipTheorems.SignInTouchesOnlyTheExpiry | hedge_desk/supabase_membership.py:139-179 | sign-in changes no role, seat or other column than an expiry, in either store: of its address, or in Supabase of the one that its query finds |
| MembershipTheorems.GuestAccessComesFromASignIn | hedge_desk/membership_base.py:47-61 | after any run only four reasons occur, and a live guest signed in at most 31 days before; the Supabase store decides the same for addresses that name themselves |
| MembershipHistory.AccessExactlyWhen | hedge_desk/membership_base.py:47-61 | after any run exactly those are admitted who were ever seated, made the GP or subscribed, and a guest for 31 days from the last sign-in; each reason and each role is given exactly to those whose calls earn it, in both stores for addresses that name themselves |
| MembershipHistory.SignInWrites | hedge_desk/membership.py:175-189 | in either store a sign-in inserts a guest of 31 days or moves that expiry, and changes nothing else |
| MembershipHistory.OperatorWrites | hedge_desk/membership.py:191-211 | the operator's row becomes the GP's and loses a guest expiry, and one that is the GP's stays as it is |
| MembershipHistory.SubscriptionWrites | hedge_desk/membership.py:213-231 | an absent or a guest's row becomes a subscribed member's without an expiry, any other stays as it is |
| MembershipHistory.PromotionWrites | hedge_desk/membership.py:233-250 | below 99 seats the row gets a seat and loses invite and expiry, beyond nothing is written; Supabase also rewrites the two columns of its payload |
| MembershipHistory.FeeWrites | hedge_desk/membership.py:252-266 | the fee of an LP's row is written, of no other, and a missing row is an error |
| MembershipHistory.InviteWrites | hedge_desk/membership.py:294-319 | below 99 seats the row gets a seat, the token and its expiry, beyond nothing is written; SQLite alone clears a guest expiry |
| MembershipQueries.LookupAnswers | hedge_desk/supabase_membership.py:119-137 | for any address: the row of the address that the query asks for, if it passes what is brought along, or how the call fails |
| MembershipQueries.FailedQueryWrites | hedge_desk/supabase_membership.py:139-342 | for an address whose query fails nothing is written but a seat, which is posted before |
| MembershipQueries.AnotherRowIsWritten | hedge_desk/supabase_membership.py:139-287 | for an address whose query finds another's row, that row is the one each operation writes |
| MembershipQueries.NothingIsFound | hedge_desk/supabase_membership.py:139-287 | for an address whose query finds nothing the row is inserted and not found again, nor inserted twice |
| MembershipQueries.SeatIsPosted | hedge_desk/supabase_membership.py:245-342 | and a seat is posted under the address and given to the row found as well |
| Otps.OtpTable.Verify | hedge_desk/membership.py:337-356 | uses up the first selected row that is live and matches, and succeeds exactly then |
| Otps.OtpTable.Issue | hedge_desk/membership.py:323-335 | appends one unused row living 600 seconds |
| Otps.QueryIsExactWhenNamed | hedge_desk/supabase_membership.py:364-370 | the code query selects the unused codes of the address and purpose, on every table, exactly for the addresses that name themselves |
| Otps.StoresAgreeExactlyWhen | hedge_desk/supabase_membership.py:364-381 | for such an address the stores accept the same codes exactly when no live code hides behind the five newest |
| Otps.FewCodesKeepTheStoresTogether | hedge_desk/membership.py:337-356 | at most five codes in 900 seconds are enough for that |
| Otps.StoresAgreeExactlyWhenFewAreLive | hedge_desk/supabase_membership.py:364-381 | for such an address: up to five live codes the stores agree on every code; beyond five, all hashed differently, they do not |
| Otps.SixCodesSplitTheStores | hedge_desk/membership.py:337-356 | of six codes of one purpose, such as broker codes, the first opens in one store only |
| Otps.InterleavedVerificationsShareACode | hedge_desk/supabase_membership.py:364-381 | two verifications that both read before either writes accept one code twice; one after the other the second is refused |
| CodeBudget.LimitersSawThose | hedge_desk/auth_app.py:176-180 | in every reachable state the limiters are where the code requests since the last start alone would have taken them |
| CodeBudget.AtMostFiveLiveCodes | hedge_desk/auth_app.py:338-352 | in every reachable state an address has at most five live sign-in codes unless the server restarted over one of them |
| CodeBudget.CodesAgreeUnlessRestarted | hedge_desk/membership.py:337-356 | hence, for an address that names itself, the two stores' queries then accept the same sign-in codes; restarted or not, codes hashed differently are accepted alike exactly while at most five are live |
| CodeBudget.AtMostTenAttemptsPerSpelling | hedge_desk/rate_limit.py:106-122 | over every run, at most ten attempts under one spelling of an address are let through in any 900 seconds of one process |
| CodeBudget.AtMostTenAttempts | hedge_desk/auth_app.py:371-382 | over every run in which verifications name addresses that the store takes for themselves (any, with SQLite), an address's codes are tried at most ten times in any 900 seconds of one process, however the attempts spell it |
| CodeBudget.CutAttemptsAreNotLimited | hedge_desk/auth_app.py:371-382 | with Supabase one code is tried in a single instant as often as there are spellings behind a `#`, up to the limiter's ten thousand keys |
| CodeBudget.AttemptsAreLimitedExactlyWithSqlite | hedge_desk/rate_limit.py:1-17 | so for addresses that name themselves that limit holds in every ordered run exactly with SQLite |
| CodeBudget.RestartSplitsTheStores | hedge_desk/auth_app.py:176-180 | five requests, a restart and a sixth, all within the limits, leave a code that opens in one store only |
| AuthApp.AuthServer.Dispatch | hedge_desk/auth_app.py:308-394 | a sign-in, code request, verification or logout, as every other request that can change something, makes exactly the specified step on either store, limiters, failing store calls and answer included |
| AuthApp.AuthServer.LookupSession | hedge_desk/membership.py:374-385 | the address of a present, unexpired session |
| AuthApp.AuthServer.SignIn | hedge_desk/auth_app.py:383-388 | checks access, then opens a session of 45 days under a new hash |
| AuthApp.AuthServer.DispatchSocial | hedge_desk/auth_app.py:315-335 | the social sign-in step |
| AuthApp.AuthServer.DispatchRequestCode | hedge_desk/auth_app.py:338-368 | the code request step: a refusal by the limiters leaves no trace but in them, a failed mail leaves the code |
| AuthApp.AuthServer.DispatchVerify | hedge_desk/auth_app.py:371-388 | the code verification step: every attempt counts against the address, the rows are those that the store's query selects, an accepted code is used up before access is checked |
| AuthApp.AuthServer.DispatchInvite | hedge_desk/auth_app.py:473-483 | the invite step |
| AuthApp.AuthServer.DispatchLink | hedge_desk/auth_app.py:260-305 | the broker link step, which uses up its code before the exchange |
| AuthApp.AuthServer.DispatchAuthorize | hedge_desk/auth_app.py:579-589 | the broker authorize step |
| AuthEffects.SubscribeAnswers | hedge_desk/auth_app.py:486-494 | the caller's own address alone can be subscribed, and then an absent or guest's row becomes a subscribed member's and the answer says so |
| AuthEffects.InviteAnswers | hedge_desk/auth_app.py:473-483 | the configured GP alone invites, any address: a seat and an invite of 14 days below 99 seats, a conflict and no change beyond |
| AuthEffects.AuthorizeAnswers | hedge_desk/auth_app.py:579-589 | a broker code of 600 seconds is added exactly for the operator with the broker configured, each refusal exactly for its cause |
| AuthEffects.LinkAnswers | hedge_desk/auth_app.py:260-305 | the first code that fits is used up whatever becomes of the exchange, and the operator is linked exactly when the exchange was granted and saved; each refusal comes before that |
| AuthEffects.UnlinkAnswers | hedge_desk/auth_app.py:624-629 | whoever is recognised loses their own link and no other changes |
| AuthEffects.MeAnswers | hedge_desk/auth_app.py:410-424 | the answer shows the role and whether and why the row that is found admits, and nothing changes |
| AuthEffects.LogoutAnswers | hedge_desk/auth_app.py:391-394 | exactly the session of the cookie is removed |
| AuthEffects.RestartAnswers | hedge_desk/auth_app.py:155-233 | a start empties the limiters, makes the operator's row the GP's and keeps every other table |
| AuthEffects.SocialAnswers | hedge_desk/auth_app.py:315-335 | each refusal exactly for its cause, otherwise the vouched address is signed into its row and gets a session of 45 days if that row admits it |
| AuthEffects.RequestCodeAnswers | hedge_desk/auth_app.py:338-368 | each answer exactly for its cause; a granted request leaves the row of a sign-in and a code of 600 seconds, mailed or not |
| AuthEffects.VerifyAnswers | hedge_desk/auth_app.py:371-388 | each answer exactly for its cause; the first code that fits is used up even where the row then refuses, and a session of 45 days follows exactly when it admits |
| AuthEffects.RowsAre | hedge_desk/membership.py:337-345 | the rows a verification sees: all unused codes of the address and purpose, with SQLite the five newest of them |
| AuthEffects.CodeRequestsAreLimitedExactlyWhen | hedge_desk/auth_app.py:338-352 | over every run a code request is answered 429 exactly when, since the last start, 20 of its client passed or 5 of its address were granted in the 900 seconds before, or there is no bucket for it |
| AuthEffects.AttemptsAreLimitedExactlyWhen | hedge_desk/auth_app.py:371-382 | and a verification exactly when 10 under its spelling passed in the 900 seconds before, or there is no bucket for it |
| AuthTheorems.EveryRoleIsEarned | hedge_desk/auth_app.py:473-494 | in every state reached with addresses that the store takes for themselves (any, with SQLite) a GP row is the configured address, an LP row was invited from a live GP session, a MEMBER row subscribed from a session of its own |
| AuthTheorems.SeatsAndLinksAreBounded | hedge_desk/auth_app.py:473-621 | under the same condition at most 99 LP rows, and always no broker link but the operator's |
| AuthTheorems.CutInviteSeatsAnother | hedge_desk/auth_app.py:473-483 | without it, on Supabase, two sign-ins and the GP's invite of an address that goes on behind a `#` make an LP of the address before it, which nobody invited |
| AuthTheorems.RolesAreEarnedExactlyWithSqlite | hedge_desk/auth_app.py:473-494 | hence, where the GP can sign in through the identity provider under an address that names itself, every role is earned in every run exactly with SQLite |
| AuthTheorems.SessionsAreSignIns | hedge_desk/membership.py:360-389 | a session row is there exactly when a sign-in made it and no logout of its token followed |
| AuthTheorems.RecognisedExactlyWhen | hedge_desk/auth_app.py:308-312 | a cookie is recognised exactly when that address signed in with its token at most 45 days ago and it was not logged out |
| AuthTheorems.EveryCodeWasIssued | hedge_desk/auth_app.py:338-368 | every code row was issued by a granted code request or by the signed-in operator |
| AuthTheorems.EachCodeOpensOnce | hedge_desk/membership.py:337-356 | requests taken one at a time, no row of the code table opens for two of them, unless the later one's address holds a `#` and the store is Supabase |
| AuthTheorems.CutVerificationOpensAnyCode | hedge_desk/supabase_membership.py:364-381 | and then it does, used or not and whatever its purpose, until it expires |
| AuthTheorems.EverySignInProvedTheAddress | hedge_desk/auth_app.py:315-388 | every sign-in was vouched for or opened a code issued at most 600 s before for the address that the store's query asks for |
| AuthTheorems.DirectProof | hedge_desk/auth_app.py:371-388 | for an address that the store takes for itself that was a sign-in code of the very address, unused until then; a broker code only completes the operator's link |
| AuthTheorems.RoleShown | hedge_desk/auth_app.py:235-244 | the operator is shown as GP whatever the row says, everyone else by the row that the store finds |
| AuthTheorems.SignInIsNeverForbidden | hedge_desk/auth_app.py:329-385 | with a clock that does not run back and addresses that the store takes for themselves, sign-in is never answered 403 |
| AuthTheorems.GpCanInviteThemself | hedge_desk/auth_app.py:473-483 | a GP who invites the GP address is an LP until the next start |
| AuthQueries.EveryQueryHasAnAnswer | hedge_desk/membership.py:337-356 | every query for codes has an answer, so the run theorems speak of every request |
| AuthQueries.RefusedInviteMaySeat | hedge_desk/auth_app.py:473-483 | an invite answered 409 changes nothing at the cap, and below it has given a seat to an address that is not ASCII |
| AuthQueries.PlusNeverSignsIn | hedge_desk/supabase_membership.py:139-179 | with Supabase, over every run in which no address holds a blank, nobody signs in whose address holds a `+` and nothing else that a query reads |
| HashChain.HeadDeterminesChain | hedge_desk/membership_audit.py:66-80 | linked chains with one head are equal or collide |
| HashChain.RemovalDetectedBeforeTheEnd | hedge_desk/membership_audit.py:66-80 | removing any link but the last breaks the chain, up to collisions |
| HashChain.RewriteDetectedBeforeTheEnd | hedge_desk/membership_audit.py:66-80 | so does rewriting any link but the last |
| HashChain.RewriteUnnoticedExactlyWhen | hedge_desk/membership_audit.py:66-80 | a rewritten link goes unnoticed exactly when it fits its place and nothing follows or the digest is the old one |
| AuditChain.VerifyAuditChain | hedge_desk/audit.py:153-219 | reports a reason exactly when some event gives it |
| AuditAnswers.ReasonIsReportedExactlyWhen | hedge_desk/audit.py:153-219 | what each reason means of the fields of an event and its predecessors, and that it is reported exactly when some event is its cause |
| AuditChain.AppendAuditEvent | hedge_desk/audit.py:69-150 | succeeds exactly on an intact chain and a well-formed continuation, adding one sealed event, and else names the first check that objects |
| AuditAnswers.AppendsUnlessObjected | hedge_desk/audit.py:69-150 | an append succeeds exactly when no check objects |
| AuditAnswers.FirstObjectionMeans | hedge_desk/audit.py:82-150 | and the error of a refused one is the first in the order of the checks |
| AuditAnswers.AddedEventIs | hedge_desk/audit.py:69-150 | the event that is added holds the entry's fields, the next number, its codes in canonical form, the last digest and its own digest |
| AuditChain.IntactPrefix | hedge_desk/audit.py:153-219 | every prefix of a verifying chain verifies |
| AuditChain.AppendKeepsIntact | hedge_desk/audit.py:69-219 | appending to a verifying chain gives a verifying chain |
| AuditChain.HeadHashDeterminesAuditChain | hedge_desk/audit.py:153-219 | two verifying chains with one head hash are equal or collide |
| AuditChain.VerifiedMeansAppendable | hedge_desk/audit.py:69-219 | verification accepts exactly what append could have built, apart from empty reason codes |
| ReferenceAudit.BuildAudit | hedge_desk/audit.py:222-268 | over an accepted replay the fold fails exactly when a folded artifact identity is zero, for its hash, and otherwise yields an intact chain that records the named stages one by one |
| ReferenceAudit.ReplayReasonsAre | hedge_desk/replay.py:58-82 | the replay gate gives each reason exactly for what it names: the stages and their order, repeated stages, time zones, the order of the times, missing artifacts |
| AuditStore.EventRoundTrip | hedge_desk/audit_store.py:24-59 | parsing a written event gives the event |
| AuditStore.ChainRoundTrip | hedge_desk/audit_store.py:62-85 | parsing a written chain gives the chain |
| AuditStore.Journal.ReadJournal | hedge_desk/audit_store.py:62-73 | returns a parsed, non-empty, verifying chain or the matching error |
| AuditStore.Journal.Initialize | hedge_desk/audit_store.py:76-97 | creates the file only for a verifying chain and only once |
| AuditStore.Journal.Append | hedge_desk/audit_store.py:100-119 | the append step with its five outcomes |
| AuditStore.ReadAnswers | hedge_desk/audit_store.py:62-73 | a journal reads as a chain exactly when its lines parse to a non-empty verifying one, and each error is given exactly for its cause |
| AuditStore.InitializeAnswers | hedge_desk/audit_store.py:76-97 | a file is created exactly for a non-empty verifying chain where there is none and it can be written, one object a line; otherwise every reason that applies is given |
| AuditStore.AppendAnswers | hedge_desk/audit_store.py:100-119 | a line is added exactly for a new digest that continues the held chain and can be written; counts, heads and every reason of the other outcomes |
| AuditStore.JournalIsAlwaysGood | hedge_desk/audit_store.py:62-119 | after any operations the file is absent or holds a verifying chain that reads back exactly |
| AuditStore.JournalOnlyGrows | hedge_desk/audit_store.py:76-119 | an earlier journal is a prefix of every later one |
| AuditStore.JournalHoldsWhatItTook | hedge_desk/audit_store.py:62-119 | after any operations the journal holds exactly what its answers say it took, in that order |
| AuditStore.AppendsExactlyWhen | hedge_desk/audit_store.py:100-119 | an event is appended exactly when it can be written, its hash is new and the longer chain verifies |
| AuditStore.RepeatedHashIsSuppressed | hedge_desk/audit_store.py:105-106 | after an append every event with the same hash is suppressed without a trace |
| AuditStore.HeadHashDeterminesTheJournal | hedge_desk/audit_store.py:62-73 | two readable journals with one head record the same events or collide |
| AuditStore.LineReadsAsExactlyWhen | hedge_desk/audit_store.py:42-59 | a line reads as an event exactly when it has its fields and no other and each reads as the event's |
| AuditStore.NumbersReadAsText | hedge_desk/audit_store.py:42-59 | in every field read as text a value of another type reads like its text, so two different files can hold one chain |
| AuditStore.ReasonCodesReadAsText | hedge_desk/audit_store.py:56-57 | and a list of reason codes reads as the event's exactly when its items do, one by one |
| MembershipAudit.VerifyChain | hedge_desk/membership_audit.py:66-80 | the loop lists every mismatch of every entry in order |
| MembershipAudit.BreakIsReportedExactlyWhen | hedge_desk/membership_audit.py:66-80 | an entry is listed exactly when it does not carry its predecessor's digest (64 zeros for the first) or its own is not recomputed, in the order of the entries |
| MembershipAudit.NothingReportedExactlyWhenLinked | hedge_desk/membership_audit.py:66-80 | nothing is listed exactly for the linked chains |
| MembershipAudit.MembershipAuditLog.Record | hedge_desk/membership_audit.py:99-116 | appends one entry linked to the last |
| MembershipAudit.MembershipAuditLog.Verify | hedge_desk/membership_audit.py:130-131 | checks the first 500 entries |
| MembershipAudit.LaterEntriesAreNotChecked | hedge_desk/membership_audit.py:118-131 | whatever comes after the first 500 entries does not change the answer |
| MembershipAudit.DeletionIsReported | hedge_desk/membership_audit.py:66-131 | a deletion goes unreported only for the last entry or one beyond the limit, and then always, up to collisions |
| MembershipAudit.AlterationIsReported | hedge_desk/membership_audit.py:66-131 | rewriting an entry goes unreported exactly beyond the limit, or with a recomputed digest at the last entry or the 500th, up to collisions |
| MembershipAudit.HeadHashDeterminesLog | hedge_desk/membership_audit.py:48-80 | the head hash pins down the log, up to collisions |
| Scheduler.ValidReceiptMeans | hedge_desk/scheduler.py:72-120 | a receipt validates exactly when its fields satisfy the listed conditions |
| Scheduler.BuilderRunsAtMostOncePerKey | hedge_desk/scheduler.py:151-253 | over any requests and any starting ledger the builder runs at most once per key and only in paper |
| Scheduler.EveryCallLeavesItsReceipt | hedge_desk/scheduler.py:151-253 | each refusal exactly for its cause, else one more receipt: of the first check that forbids the build, or of what the builder came to, with the request's fields, its codes and its digest |
| Scheduler.CallMoves | hedge_desk/scheduler.py:151-253 | so a refused call moves nothing, and the report is built exactly where no check forbids it |
| Scheduler.AppendedValidExactlyWhenNamed | hedge_desk/scheduler.py:42-69 | an accepted request appends one receipt, valid exactly when it does not name an empty recovery source, whatever the builder returned |
| Scheduler.LedgerValidExactlyWhenNamed | hedge_desk/scheduler.py:151-253 | a ledger grown from nothing validates exactly when no accepted request named an empty recovery source |
| Scheduler.InvalidLedgerFailsClosed | hedge_desk/scheduler.py:151-253 | after an invalid receipt nothing is built and every accepted call fails closed |
| Scheduler.ValidLedgerIsWellShaped | hedge_desk/scheduler.py:151-253 | every key has at most one run and every completed recovery points to one earlier failed run of the same time |
| Scheduler.FailedRunStaysRecoverable | hedge_desk/scheduler.py:151-253 | a recovery does not use up the failure it recovers, under another key or on a valid ledger under any |
| Scheduler.CompleteMeansTrueDigest | hedge_desk/reporting.py:46-50 | a run is recorded as complete only with the recomputed digest of its report |
| Scheduler.CompleteExactlyWhenPublishable | hedge_desk/scheduler.py:222-253 | a run is complete exactly when the builder returned a report without other reasons under its own digest; otherwise it fails closed with precisely the report's reasons, the digest's first, or the one for what raised |
| Metrics.EvaluatePnlSeries | hedge_desk/metrics.py:30-78 | returns exactly the described figures, or the error for no data or a confidence outside (0,1) |
| Metrics.FiguresMean | hedge_desk/metrics.py:22-78 | what each figure is: total, mean, the median by the counts below and above it, the share of gains, gains over losses, the largest fall, the average of the least tail the confidence leaves |
| Metrics.MaximumDrawdown | hedge_desk/metrics.py:55-61 | the one-pass result is the largest fall between any two running totals and is attained |
| Metrics.TailCountInRange | hedge_desk/metrics.py:63-64 | the tail holds between 1 and all observations |
| Metrics.SortedPrefixIsLeast | hedge_desk/metrics.py:65-66 | no choice of k observations sums to less than the first k sorted |
| Metrics.ShortfallIsTheWorstAverage | hedge_desk/metrics.py:63-66 | expected shortfall is at most the average of every choice of as many observations, hence at most the mean |
| Metrics.ShortfallFallsWithConfidence | hedge_desk/metrics.py:63-66 | more confidence never raises the expected shortfall |
| Metrics.FactorAgreesWithTotal | hedge_desk/metrics.py:47-53 | the profit factor exceeds one exactly when the total is positive, and wins are a share |
| Metrics.DrawdownCoversLosses | hedge_desk/metrics.py:55-66 | the drawdown covers the final loss, every single loss and the expected shortfall |
| Metrics.OnlyDrawdownNeedsTheOrder | hedge_desk/metrics.py:30-78 | reordering the observations changes nothing but the drawdown |
| PortfolioStress.OverwrittenShocksAreLost | hedge_desk/portfolio_stress.py:111-114 | a scenario's result is the total of its shocks less those a later shock of the same project overwrites |
| PortfolioStress.ScenarioPnlMeans | hedge_desk/portfolio_stress.py:108-114 | so it is the gross result less the costs of the last shock of every project |
| PortfolioStress.CheckMeans | hedge_desk/portfolio_stress.py:84-100 | each refusal exactly for its cause, in the order of the checks |
| PortfolioStress.CapitalPath | hedge_desk/portfolio_stress.py:106-131 | each line's capital is start plus all results so far, its drawdown the distance from the peak |
| PortfolioStress.BuildReport | hedge_desk/portfolio_stress.py:84-150 | the report's lines and metrics, or the first applicable error |
| PortfolioStress.ReportMeans | hedge_desk/portfolio_stress.py:106-150 | line by line: the capital after the scenario, the fall from the highest so far, frozen exactly where that exceeds the fraction of the start, and metrics that leave a fifth to the tail |
| PortfolioStress.CircuitBreaker | hedge_desk/portfolio_stress.py:153-168 | a report of scenarios under its own digest is never refused and freezes new risk exactly when some scenario of it is frozen; under another digest it is refused |
| PortfolioStress.PathsAgree | hedge_desk/portfolio_stress.py:107-132 | the metrics' maximum drawdown is the largest of the separately tracked path, which ends at start plus all results |
| PortfolioStress.BreakerFreezesExactlyWhenALineDoes | hedge_desk/backoffice/portfolio.py:69-102 | the breaker accepts every report and freezes exactly when some scenario is frozen |
| MarketContext.Service.GetSnapshot | hedge_desk/market_context_service.py:82-95 | answers the current snapshot and raises the flag exactly when it starts a refresh |
| MarketContext.Service.TakeStoreTurn | hedge_desk/market_context_service.py:48-50 | only the first refresher is sent to the store |
| MarketContext.Service.UseStored | hedge_desk/market_context_service.py:54-57 | a stored snapshot fills only an empty slot |
| MarketContext.Service.Install | hedge_desk/market_context_service.py:63-65 | a fresh snapshot replaces whatever is there |
| MarketContext.Service.Fail | hedge_desk/market_context_service.py:68-76 | a failure fills only an empty slot |
| MarketContext.Service.Finish | hedge_desk/market_context_service.py:77-79 | the flag goes down |
| MarketContext.AtMostOneRefresh | hedge_desk/market_context_service.py:45-95 | over every interleaving at most one refresher is under way and the flag is up exactly then |
| MarketContext.ReaderStartsExactlyWhen | hedge_desk/market_context_service.py:85-92 | a reader starts a refresh exactly when the snapshot is absent or stale and no refresher is under way |
| MarketContext.OnlyFreshReplaces | hedge_desk/market_context_service.py:54-76 | an existing snapshot changes only by the installation of a fresh one |
| MarketContext.FreshStaysFresh | hedge_desk/market_context_service.py:45-95 | a snapshot never disappears, and after the first fresh one only fresh ones are served |
| MarketContext.StoreIsConsultedOnce | hedge_desk/market_context_service.py:48-52 | however many refreshers run, one at most goes to the store |
| MarketContext.SomeoneWentToTheStore | hedge_desk/market_context_service.py:48-52 | and the first one does: over every run the mark is set exactly when some refresher went there |
| MarketContext.SnapshotsAreGenuine | hedge_desk/market_context_service.py:51-75 | every snapshot was loaded, built or is the explicit BLOCKED status |
| MarketContext.EveryRefreshEnds | hedge_desk/market_context_service.py:45-79 | in every interleaving, whatever store, providers, readers and other refreshers do, at most six of its own steps end a refresh: at some point it is done with the flag down and a snapshot to serve |
| MarketContext.RefreshLeaves | hedge_desk/market_context_service.py:45-79 | an undisturbed refresh leaves the built snapshot, else what was there, else the stored one on the first trip, else BLOCKED, and renews the age exactly if it put something there |
| MarketContext.FailureIsRetriedAtOnce | hedge_desk/market_context_service.py:66-95 | a failed refresh does not renew the age of a stale snapshot, so the next reader starts another |
| MarketContext.BlockedWaitsTheFullAge | hedge_desk/market_context_service.py:69-92 | a BLOCKED snapshot is retried exactly after the full age |
| Dividends.SplitCompanies | hedge_desk/dividends.py:216-243 | the loop keeps exactly the companies without reasons, in symbol order |
| Dividends.EvaluateUniverse | hedge_desk/dividends.py:205-274 | the evaluation, or the first applicable error |
| DividendReasons.RefusedExactlyWhen | hedge_desk/dividends.py:127-215 | each refusal exactly for its cause: no company, unnamed or repeated symbols, a decision time without a zone |
| DividendReasons.HistoryAnswers | hedge_desk/dividends.py:127-202 | a history gives each reason exactly for what it names of the observations, and without any the ten-year averages and the number of falls |
| DividendReasons.ReasonIsGivenExactlyWhen | hedge_desk/dividends.py:205-243 | a company is given a reason exactly when that keeps it out: what its history gives, or if that is nothing what of its averages misses the policy |
| DividendReasons.CandidateShowsAverages | hedge_desk/dividends.py:244-268 | a candidate shows the averages of a company that nothing keeps out and their quotient |
| DividendReasons.RejectionsFollowSymbols | hedge_desk/dividends.py:216-243 | the rejections are listed by symbol |
| DividendTheorems.AdmissibleMeans | hedge_desk/dividends.py:150-183 | a history is admissible exactly when it is ten consecutive fiscal years of trusted observations |
| DividendTheorems.NoCutsMeansNeverLess | hedge_desk/dividends.py:176-180 | no cuts are counted exactly when a later year never pays less |
| DividendTheorems.YieldStaysWithinTheYears | hedge_desk/dividends.py:184-187 | the average yield stays within every bound that each year's dividend over price satisfies |
| DividendTheorems.PayoutStaysWithinTheYears | hedge_desk/dividends.py:188-191 | the same for dividend over earnings |
| DividendTheorems.BuybacksRaiseTheNetYield | hedge_desk/dividends.py:192-199 | net yield is above or below dividend yield as buybacks outweigh issuance or not |
| DividendTheorems.UniverseIsAPartition | hedge_desk/dividends.py:216-243 | every company is a candidate exactly without reasons and rejected with precisely its reasons otherwise, each once |
| DividendTheorems.RanksFollowScores | hedge_desk/dividends.py:244-268 | ranks run from 1 in the order of efficiency, net yield, symbol |
| DividendTheorems.CandidatesMeetThePolicy | hedge_desk/dividends.py:225-238 | every candidate meets the policy and has a positive efficiency |
| DividendTheorems.OrderOfCompaniesIsIrrelevant | hedge_desk/dividends.py:205-274 | permuting the companies changes nothing |
| DividendTheorems.OrderOfObservationsIsIrrelevant | hedge_desk/dividends.py:127-202 | permuting the observations inside histories changes nothing |
| DividendCape.Judge | hedge_desk/dividends.py:300-329 | an input's reasons are those of both gates, the inadmissible-history branch adding none |
| DividendCape.JudgeAll | hedge_desk/dividends.py:299-329 | the loop rejects exactly the inputs with reasons |
| DividendCape.EvaluateCapeUniverse | hedge_desk/dividends.py:277-340 | the CAPE evaluation, or the first applicable error |
| DividendCapeReasons.CapeReasonIsGivenExactlyWhen | hedge_desk/dividends.py:299-322 | an input is given a reason exactly when that keeps its company out of the first universe or its own observation gives it |
| DividendCapeReasons.CapeCandidateShowsScore | hedge_desk/dividends.py:323-334 | a candidate shows the score of an input that nothing keeps out |
| DividendCapeTheorems.HistoryNotAdmissibleIsNeverGiven | hedge_desk/dividends.py:317-318 | that code appears in no rejection |
| DividendCapeTheorems.CapeUniverseIsAPartition | hedge_desk/dividends.py:299-340 | every input is a candidate exactly when neither gate objects, else rejected with all reasons, each once |
| DividendCapeTheorems.CapeCandidatesPassedTheFirstGate | hedge_desk/dividends.py:323-329 | CAPE candidates are dividend candidates, scored by that efficiency over a positive CAPE |
| DividendCapeTheorems.CapeRanksFollowScores | hedge_desk/dividends.py:330-334 | ranks run from 1 in score order |
| DividendCapeTheorems.OrderOfInputsIsIrrelevant | hedge_desk/dividends.py:277-340 | permuting the inputs changes nothing |
| Arbitrage.EvaluateUniverse | hedge_desk/arbitrage.py:145-186 | the evaluation, or the error of the first malformed package in id order |
| ArbitrageReasons.MalformedExactlyWhen | hedge_desk/arbitrage.py:75-104 | which packages are malformed, and how, in the order of the checks |
| ArbitrageReasons.RefusedExactlyWhen | hedge_desk/arbitrage.py:145-153 | each refusal of the universe exactly for its cause, the last for the first malformed package by name |
| ArbitrageReasons.ReasonIsGivenExactlyWhen | hedge_desk/arbitrage.py:105-186 | a package is given a reason exactly for what it names of the legs or of the edge after costs, and without any is a candidate that shows its cash, edge and sources |
| ArbitrageReasons.RejectionsFollowNames | hedge_desk/arbitrage.py:153-169 | the rejections are listed by name |
| ArbitrageTheorems.EdgeIsGuaranteed | hedge_desk/arbitrage.py:121-134 | whatever the fills between bid and ask, an admitted package pays at least its buffer after costs |
| ArbitrageTheorems.AdmittedPackagesAreTradable | hedge_desk/arbitrage.py:106-120 | an admitted package is deep, synchronous and settles on one day, and the worst case is itself a fill |
| ArbitrageTheorems.UniverseIsAPartition | hedge_desk/arbitrage.py:153-169 | the packages are split, each once, by having reasons |
| ArbitrageTheorems.RanksFollowEdges | hedge_desk/arbitrage.py:170-180 | ranks run from 1 by falling edge, then id |
| ArbitrageTheorems.OrderOfPackagesIsIrrelevant | hedge_desk/arbitrage.py:145-186 | permuting the packages changes nothing about the answer, be it the evaluation, the refusal of repeated ids or the malformed package that is named |
| ArbitrageTheorems.OrderOfLegsIsIrrelevant | hedge_desk/arbitrage.py:75-180 | nor does permuting the legs inside packages |
| OptionsSeed.ChooseExpiry | hedge_desk/options_seed.py:119-140 | the latest put expiry more than 7 and at most 30 days out, if there is one |
| OptionsSeed.SelectSeedPut | hedge_desk/options_seed.py:97-193 | the seed of the unbeaten quote on that expiry, or the first check that refuses |
| OptionsSeedAnswers.SelectsExactlyWhen | hedge_desk/options_seed.py:97-193 | of the quotes alone: a seed describes the put nearest to delta -0.30, then of the larger open interest, then of the lower ask, among the fit ones of the latest expiry in scope |
| OptionsSeedAnswers.RefusalMeans | hedge_desk/options_seed.py:97-193 | the refusal given holds of the quotes, and none that is checked before it does |
| OptionsSeed.SelectionIsUnique | hedge_desk/options_seed.py:142-165 | a chain yields one seed only |
| OptionsSeed.RefusalsAreExact | hedge_desk/options_seed.py:97-193 | no refusal applies to a chain that yields a seed, ties anywhere among the selectable quotes included |
| OptionsSeed.PickedContract | hedge_desk/options_seed.py:131-193 | the picked contract is an executable out-of-the-money put of 8 to 30 days marked at the middle |
| OptionsSeedStore.ValidateSeed | hedge_desk/options_seed.py:271-319 | accepts exactly the valid dictionaries, and else names the first field that fails |
| OptionsSeedAnswers.ValidMeans | hedge_desk/options_seed.py:271-319 | what validity asks of every field |
| OptionsSeedAnswers.GreekErrorMeans | hedge_desk/options_seed.py:297-319 | the error of the Greeks is that of the first one, in the order of the loop, that is neither given nor declared |
| OptionsSeedAnswers.DictSays | hedge_desk/options_seed.py:196-246 | every field of a dictionary made of a selection, constants included |
| OptionsSeedStore.ProducedSeedsAreValid | hedge_desk/options_seed.py:196-246 | every dictionary made of a selection passes the validation |
| OptionsSeedStore.SeedFile.Refresh | hedge_desk/options_seed_refresh.py:58-90 | replaces the file on success, else changes only its refresh block, else fails with exit code 1 |
| OptionsSeedAnswers.RefreshMeans | hedge_desk/options_seed_refresh.py:58-90 | a refresh stores the day's selection of SPY if there is one, and otherwise keeps what was stored and says why, or fails with exit code 1 |
| OptionsSeedStore.StoredSeedIsTheLastGood | hedge_desk/options_seed_refresh.py:41-90 | after any history the stored contract is the last success's, or the one that was there before |
| OptionsSeedStore.StoredSeedIsAlwaysValid | hedge_desk/options_seed_refresh.py:58-90 | starting without a file what is stored is valid, and exit code 1 means nothing was ever picked |

## Left out

* Decimal precision, quantising and `money()` rounding, and values that are not finite: everything is exact real arithmetic.
* Python's lenient hexadecimal (`int(value, 16)` with a sign, prefix, underscores or blanks): a hash is 64 hex digits.
* JSON text, and the offset a timestamp is written with: digests are taken over the fields, and timestamps compare by their instant.
* Case folding and trimming of addresses and symbols: inputs are in the form the code reduces them to.
* SQLite, PostgREST and file systems: tables are maps and sequences with atomic row updates, a write happens as a whole or not at all.
* Threads: every section under a lock is one step; failing to start a thread is not modelled.
* Requests served at the same time, by one server's threads or by several servers: the run theorems take requests one after the other, and for Supabase the seat cap and the single use of codes need that (`MembershipTheorems.InterleavedInvitesPassTheCap`, `Otps.InterleavedVerificationsShareACode`).
* What a server makes of a query beyond splitting it at `&` and decoding `+` and `%xx`: what an address brings along behind an `&` is answered by a parameter as a condition on each row, which leaves out the parameters that are none (`limit`, `offset`, `columns`), an escape is taken as one character, and a second `#`, which urllib leaves in, as itself. Network failures and what PostgreSQL refuses to store are not modelled.
* A clock that runs backwards: the run theorems of the limiter and of sign-in assume it does not.
* The membership audit entries that the endpoints write on the side, market-data routes, tiers and the roster listing.
* The second, Supabase-backed membership audit log, which repeats the first over HTTP.
* `json_value` and the contents of scheduled reports: of the checks of `validate_report` only the one of the report's digest is modelled, the others are an input.
* The serialised forms of receipts and evaluations and their reference fixtures.
* Dispositions and notes that are constants or only say whether a candidate list is empty.
* `reporting.py` beyond the digest check, `wargames.py`, `overnight.py`, `features.py`, `earnings.py`, `futures_events.py`, `release.py`, `strategic_allocation.py`, `artifacts.py`, `paper_log.py`, `yellow_sheet.py`, `position_sizing.py`, `jobs.py`: fixed fixtures, floating-point features, or shapes already covered.
* `broker_link.py` and `supabase_auth.py`: their cryptography is not part of this model.
- RateLimiter.MapStaysBounded: speaks of allow and reset only, because `remaining` creates keys; the exact condition for `remaining` is a row of its own.
- OptionsSeedStore.ProducedSeedsAreValid: assumes that an option symbol that parses is not empty, which the symbol pattern guarantees.
- AuditStore.JournalIsAlwaysGood: assumes that reading an ISO timestamp undoes writing it.
- AuthApp.AuthServer.Dispatch: the read-only routes (roster, cap, audit, tier, providers, broker status, market data) change nothing the model holds and are absent; one reading of the wall clock serves a whole request.
- CodeBudget.AtMostFiveLiveCodes: assumes that within one process the monotonic clock does not run back nor half as fast again as the wall clock.
- CodeBudget.AtMostTenAttempts: assumes that within one process the monotonic clock does not run back, and with Supabase that verifications name addresses that name themselves, without which it fails (`CodeBudget.AttemptsAreLimitedExactlyWithSqlite`).
- MembershipTheorems.StoresAgreeOverEveryRun: speaks of addresses that name themselves, because for every other address some call disagrees (`MembershipTheorems.CallsAgreeExactlyWhenNamed`); the same goes for the Supabase side of the other run theorems.
