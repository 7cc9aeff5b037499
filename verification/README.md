# Verified model of the ERP's ledger, tenancy and documents

A Dafny model of the parts of a multi-tenant double-entry ERP where an error would be
silent: rounding and apportioning money, posting and correcting journal entries, serving
the account ledger in pages, retried and concurrent requests, tenant isolation on two
layers, derived hierarchies, document totals, leave, lockout, and redaction.

Amounts are whole micro-units (the stored precision is six decimals) and shares are exact
fractions. Functions on values say what an operation does; classes and loops carry the
operations out step by step, as the services do, and are proved equal to those functions;
lemmas state what holds over all inputs, runs and interleavings. Where the code keeps less
than its own documentation says, a lemma gives a concrete input and another states exactly
when the promise holds.

| files | what they are about |
|---|---|
| `Scaled`, `Sums` | products, quotients and finite sums |
| `Money`, `Allocation`, `AllocationLaws` | rounding to a currency, largest-remainder apportionment |
| `Ledger`, `LedgerInvariants`, `LedgerBalances`, `LedgerLaws`, `LedgerService` | posting, voiding, reversing; the service run in place |
| `LedgerAdmission`, `LedgerDrafts`, `LedgerHistory` | what posting asks and every column it writes; stored drafts; what never changes once written |
| `LedgerCommit`, `LedgerBase`, `LedgerArchive`, `LedgerRuns` | what the database refuses at commit, base currency and the nightly check, archived accounts, runs that break a promise |
| `LedgerPages` | running balances over pages |
| `Numbering` | document numbers |
| `PostRequests`, `PostVerdict`, `Idempotency` | concurrent posting requests and what the ledger says to them; replayed requests and the cache |
| `Tenancy`, `TenancyBypass`, `TenancyStatements`, `TenantSweep` | tenant context on the ORM and the session; the bypass; single statements and blocks; the per-tenant sweep |
| `Departments` | path index over the hierarchy |
| `Chart`, `ChartCollision`, `ChartTree`, `ChartOrder` | account codes, the account tree, its order and its search |
| `Bills` | bill lines and header |
| `Leave`, `LeaveSteps`, `LeaveApproval`, `LeaveCalendar`, `LeaveRace`, `LeaveDesk` | leave balances, what each step asks, who decides, overlap, concurrent submission, working days |
| `Lockout`, `Scrubbing` | login lockout, redaction of error events |

Where the code and its documentation differ, the model follows the code:

- `allocate` promises `sum(result) == total` (backend/apps/core/fields.py:160-163). It holds
  exactly when the total is whole minor units and truncation does not overshoot it
  (`SumEqualsTotalIff`): 0.005 over one weight comes back as 0.01 (`HalfCentGrows`), and -1.00
  over three as -0.99 (`NegativeTotalLeaks`). Non-negative shares keep it for exactly the
  totals in whole minor units.
- Largest remainders are optimal exactly while no share left at its truncation has a remainder
  larger than another's by more than a unit (`AllocationIsOptimalIff`): always for shares of one
  sign, not always for mixed ones (`MixedSignsAreNotOptimal`).
- The account ledger is said to close at `cached_balance` (backend/apps/accounting/viewsets.py:149-152).
  It does exactly when the account's reversed originals net to zero (`ClosingEqualsCacheIff`); one
  reversal parts the two (`ReversalPartsLedgerFromCache`).
- The nightly check is said to fail only on data loaded from outside
  (backend/apps/accounting/services/posting.py:478-480). One foreign posting is enough
  (`ForeignRunFailsNightly`). A posting keeps the check exactly when its converted debits and
  credits have equal sums, a void when the entry had no gap, a reversal when the mirror's gap is
  the original's (`PostKeepsNightlyIff`, `VoidKeepsNightlyIff`, `ReverseKeepsNightlyIff`).
- A draft the service accepts is still undone by the database exactly when a line rounds to
  nothing or the rounded lines do not add up to the rounded totals (`UndoneIff`,
  `SubCentRunIsUndone`); drafts at currency precision never are (`PreciseDraftPassesTheTrigger`).
- A reversal is a no-op on balances when a client has already spent the key `reversal:{id}`
  (`TakenReversalKeyMovesNothing`, `SpentKeyReversalIsReachable`); the original is still marked
  reversed. Likewise a stored draft posted under a spent key is voided and nothing is posted for
  it (`DraftIsPostedIff`).
- The normal side of an account can be edited after posting; the cached balance stays right
  exactly when it is zero (`SideEditKeepsCacheIff`, `SideEditBreaksCache`).
- An account is archived only without a balance (backend/apps/accounting/viewsets.py:282-288), but
  voiding an entry posted before puts one back, unless the entry nets to nothing there
  (`VoidKeepsArchivedIff`, `VoidRefillsArchived`).
- Cached balances add document amounts; the reports add base amounts. The two agree on an account
  exactly when its live foreign entries' differences cancel (`CacheIsBaseNetIff`), and the reports'
  trial balance is out by exactly the nightly gap (`ReportedTrialBalanceIffNightly`).
- Under interleaving a draft is posted at most once exactly when no two requests carry different
  fresh keys (`PostsAtMostOnceIff`, `TwoClientKeysCanPostTwice`). A result is remembered before
  the request's transaction commits: a retry can be answered with a posting that never stood
  exactly when the draft is one the commit-time trigger undoes (`RetryNamesNothingIff`,
  `UndonePostingIsReplayed`). The remembered key does not name the row acted on: replays answer for
  their own row exactly when no client key is used for two rows of one action (`AlwaysOwnIff`).
- A nested `tenant_context` leaves its tenant on the session and ends an enclosing bypass
  (`NestedContextHidesOuterRows`, `NestedContextEndsBypass`). Reads stay safe; they go empty.
- `for_each_tenant` reports the jobs that raise. A job that catches a refused statement is undone
  all the same and not counted: the count is the number of turns undone exactly when no job does
  that (`CountIsUndoneIff`, `SwallowedFailureIsNotCounted`).
- Packed account codes are unique over the whole chart exactly while root segments stay at or
  below 99, though the slot admits 9999 (`CodesUniqueExactlyTo99`); a run reaches a refusal under a
  parent with numbers left (`CollisionIsReached`). The tree sorts dotted codes as strings and
  leaves the order of the numbers at the tenth sibling (`ListedByNumberIff`). The cycle check
  misses cycles that close twelve or more steps up (`RefusesExactlyTheCycles`, `MissedCycle`). Those
  take a chart deeper than the coder makes; on its charts the check is exact (`CodedCheckIsExact`),
  and an update drops the parent anyway (backend/apps/accounting/serializers.py:152-157).
- Department codes may hold a slash; a code keeps the prefix query exact exactly when it does not
  (`CodeIsSafeIff`).
- A bill whose currency changes without its lines can disagree with them
  (`CurrencyChangeAgreesIff`, `YenChangeDisagrees`).
- The leave exclusion constraint is described (backend/apps/hr/models.py:1115-1146), but the migration named
  there is not among backend/apps/hr/migrations. Without it the service keeps absences apart in every serial
  run without edits, and an edit of the dates can break it (`ServiceKeepsDisjoint`,
  `EditedDatesOverlap`). An edit can also move a live request away from the balance row that
  holds its days (`EditKeepsSoundIff`), two submissions can pass the check before either writes
  (`RaceCollidesIff`), and a manual adjustment changes the entitlement without the availability
  that is stored beside it (`AdjustKeepsSoundIff`).
- The status table's way into the blocking leave statuses is DRAFT to SUBMITTED, but submission
  writes PENDING_MANAGER or PENDING_HR directly; the model does as the service does.

## Model

| member | source | states |
|---|---|---|
| `Money.MinorUnit` | backend/apps/core/fields.py:116-119 | the minor unit of every currency is positive and divides one unit evenly |
| `Money.RoundHalfUpIsNearest` | backend/apps/core/fields.py:149-153 | an integer is the rounding of n/d if and only if it is nearest, ties going away from zero |
| `Money.QuantizeError` | backend/apps/core/fields.py:149-153 | rounding to a currency moves an amount by at most half a minor unit |
| `Money.QuantizeFixesWholeUnits` | backend/apps/core/fields.py:149-153 | an amount is left alone if and only if it is already whole minor units |
| `Money.QuantizeIsMonotone` | backend/apps/core/fields.py:149-153 | rounding never reverses the order of two amounts |
| `Money.PrecisionOfCurrency` | backend/apps/core/fields.py:116-119 | thousandths survive rounding in the three-decimal currencies alone, hundredths in all but the ones without decimals, whole units in every one |
| `Money.HalfUnitsRoundUp` | backend/apps/core/fields.py:149-153 | 0.0005 dinars, 0.005 pounds and 0.5 yen round up, -0.5 yen down, in upper and lower case |
| `Allocation.ResidualIsSmall` | backend/apps/core/fields.py:172-182 | there is never more than one leftover unit per weight, so the hand-out reaches no index twice, whatever the signs |
| `AllocationLaws.Allocate` | backend/apps/core/fields.py:156-183 | refuses exactly the zero weight total; otherwise the in-place hand-out over the sorted order yields the allocation function's parts |
| `AllocationLaws.HandOut` | backend/apps/core/fields.py:178-182 | the loop raises exactly the first `count` places of the order by one unit and terminates |
| `AllocationLaws.UnitsAreLargestRemainder` | backend/apps/core/fields.py:170-182 | a list is the allocation if and only if every part is its truncated share or one unit more, as many as the residual, and whoever gets one precedes whoever does not |
| `AllocationLaws.LargestRemainderIsUnique` | backend/apps/core/fields.py:174-182 | no two lists meet that description |
| `AllocationLaws.ConservedIffNoOvershoot` | backend/apps/core/fields.py:156-183 | for every input the parts add up to the rounded total if and only if truncation did not overshoot it |
| `AllocationLaws.SumEqualsTotalIff` | backend/apps/core/fields.py:160-163 | the parts sum to the total itself if and only if the total is whole minor units and truncation did not overshoot it |
| `AllocationLaws.NonNegativeSumEqualsTotalIff` | backend/apps/core/fields.py:160-163 | for non-negative shares that is exactly the totals in whole minor units |
| `AllocationLaws.HalfCentGrows` | backend/apps/core/fields.py:173 | 0.005 over one weight at two decimals comes back as 0.01 |
| `AllocationLaws.NonNegativeSharesConserve` | backend/apps/core/fields.py:170-182 | non-negative shares always add up to the rounded total |
| `AllocationLaws.NonPositiveSharesConserveIff` | backend/apps/core/fields.py:171-179 | non-positive shares add up to the rounded total if and only if the dropped fractions are below half a unit together |
| `AllocationLaws.NegativeWholeTotalConservesIff` | backend/apps/core/fields.py:171-179 | a negative total in whole units is conserved if and only if every share comes out whole |
| `AllocationLaws.NegativeTotalLeaks` | backend/apps/core/fields.py:160-179 | -1.00 over three equal weights gives -0.99 |
| `AllocationLaws.OptimalIffNoExchangeHelps` | backend/apps/core/fields.py:170-182 | any list of whole units is optimal for its sum if and only if no exchange of one unit helps |
| `AllocationLaws.AllocationIsOptimalIff` | backend/apps/core/fields.py:170-182 | for every total and weights the result is optimal if and only if no share left at its truncation has a remainder exceeding another's by more than a unit |
| `AllocationLaws.MixedSignsAreNotOptimal` | backend/apps/core/fields.py:170-182 | 0.01 over weights -9 and 19 gives [0, 1], which deviates nine times as much as [-1, 2] |
| `AllocationLaws.AllocationIsOptimal` | backend/apps/core/fields.py:170-182 | for shares of one sign no list of whole units with the same sum has a smaller total deviation from the exact shares |
| `AllocationLaws.LargerShareNeverGetsLess` | backend/apps/core/fields.py:174-182 | whatever the signs, a larger share never gets less; equal shares differ by at most one unit, the earlier favoured |
| `AllocationLaws.WholeSharesUntouched` | backend/apps/core/fields.py:170-182 | whatever the signs, a share that is already whole is handed out unchanged |
| `AllocationLaws.ScaleInvariant` | backend/apps/core/fields.py:170 | multiplying all weights by a positive factor changes nothing |
| `LedgerInvariants.NewEntryStands` | backend/apps/accounting/services/posting.py:208-318 | when posting writes a row, it is one row whose lines balance to its control totals and whose key was unused |
| `LedgerInvariants.PostKeepsInv` | backend/apps/accounting/services/posting.py:208-318 | posting, accepted or refused at any point, keeps exact balances, balanced entries, unique keys and gapless numbers |
| `LedgerInvariants.VoidKeepsInv` | backend/apps/accounting/services/posting.py:379-411 | so does voiding |
| `LedgerInvariants.ReverseKeepsInv` | backend/apps/accounting/services/posting.py:414-468 | so does reversing |
| `LedgerInvariants.PostDraftKeepsInv` | backend/apps/accounting/viewsets.py:565-626 | so does posting a stored draft and retiring it |
| `LedgerInvariants.RunKeepsInv` | scripts/verify_core_invariants.py:110-196 | over every run from empty books, cached balances equal the signed lines of POSTED and REVERSED entries, numbered entries balance, keys are unique, numbers run 1, 2, 3, ... |
| `LedgerBalances.BalanceIsDebitsAgainstCredits` | backend/apps/accounting/services/posting.py:344-372 | on every run a debit-side account stands at its live debits less its live credits, a credit-side account the other way round |
| `LedgerAdmission.PeriodFoundIff` | backend/apps/accounting/services/posting.py:186-201 | the lookup answers with the first period that covers the day, and with nothing if and only if none does |
| `LedgerAdmission.PostWritesIff` | backend/apps/accounting/services/posting.py:144-318 | for every draft a row is written if and only if lines, accounts and totals are in order, the key is unspent, the day lies in an open period of an open year, the journal is active, there is a rate, and rounding keeps every line and the totals |
| `LedgerAdmission.NothingPostedUnlessOpen` | backend/apps/accounting/services/posting.py:233-242 | on a day whose period is missing or not open nothing is written, and only an earlier entry under the key is ever answered |
| `LedgerAdmission.PeriodRefusalIff` | backend/apps/accounting/services/posting.py:186-242 | a draft in order is refused for a closed period if and only if the period of its day is not open, and for a missing one if and only if no period covers the day |
| `LedgerAdmission.PostedRow` | backend/apps/accounting/services/posting.py:260-315 | the row written carries the draft column by column; each line its account, its own sides at currency precision and their conversion at base precision, at the rate supplied, on file, or one |
| `LedgerAdmission.PostTouchesNothingElse` | backend/apps/accounting/services/posting.py:321-372 | but for balances and the one counter its number came from, the other tables and rows stay as they were |
| `LedgerAdmission.VoidsIff` | backend/apps/accounting/services/posting.py:379-411 | an entry is voided if and only if it is a draft or posted, a reason is given and its day lies in an open period; its row changes in status only |
| `LedgerLaws.PostThenVoidRestores` | backend/apps/accounting/services/posting.py:379-411 | posting then voiding restores every account and keeps the number and the counter |
| `LedgerLaws.VoidNetsOut` | backend/apps/accounting/services/posting.py:379-411 | whenever it happens, a void leaves every account as without the entry, and keeps the number |
| `LedgerLaws.VoidForgetsTheEntry` | backend/apps/accounting/services/posting.py:399-402 | after a void, however late, each balance is the signed sum of the other live entries |
| `LedgerLaws.MirrorSwapsSides` | backend/apps/accounting/services/posting.py:434-459 | the mirror row carries the original lines with sides swapped and the same totals |
| `LedgerLaws.ReversePostsMirror` | backend/apps/accounting/services/posting.py:461-466 | a reversal's balances are those of posting its mirror, and the original is marked reversed |
| `LedgerLaws.ReversalNeverFailsOnAmounts` | backend/apps/accounting/services/posting.py:414-468 | a posted entry's mirror is never refused for its lines or amounts |
| `LedgerLaws.ReverseNetsOutIff` | backend/apps/accounting/services/posting.py:414-468 | a successful reversal leaves an account as without the entry if and only if the derived key was unused or the entry never moved the account |
| `LedgerLaws.TakenReversalKeyMovesNothing` | backend/apps/accounting/services/posting.py:443-466 | with the derived key spent, a reversal moves no balance and adds no row |
| `LedgerHistory.ReversesIff` | backend/apps/accounting/services/posting.py:427-430 | a reversal succeeds if and only if the entry is posted, no row names it as reversed, and its mirror is posted or answered for |
| `LedgerHistory.ReversedIffNamedOnce` | backend/apps/accounting/models.py:423-425 | on every run an entry is reversed if and only if a row names it, then exactly one does, under the derived key |
| `LedgerHistory.RunKeepsHistory` | backend/apps/accounting/migrations/0004_ledger_guards.py:106-158 | from any books on, whatever is done, no row is removed or moved, nothing but a draft's header is rewritten, statuses only move forward and voided and reversed are final |
| `LedgerHistory.TableAllows` | backend/apps/accounting/models.py:373-378 | the transition table allows these moves and posting a draft, no others |
| `LedgerLaws.RepostIsANoOp` | backend/apps/accounting/services/posting.py:223-231 | a second posting under a used key answers with the first entry and changes nothing |
| `LedgerLaws.DraftIsPostedIff` | backend/apps/accounting/viewsets.py:586-624 | posting a stored draft retires it either way and writes a posting if and only if its key was unused |
| `LedgerDrafts.DraftPostsItsLines` | backend/apps/accounting/viewsets.py:586-624 | a stored draft is posted with its journal, date, currency and accounts, debits as debits and credits as credits at currency precision; the draft alone is marked voided |
| `LedgerDrafts.PreciseDraftMovesItsNets` | backend/apps/accounting/viewsets.py:586-624 | a stored draft at currency precision moves every balance by the signed net of its stored lines |
| `LedgerDrafts.SavedDraftComesBack` | backend/apps/accounting/viewsets.py:586-611 | what is saved as a draft is what is handed to the posting service later, but for the key |
| `LedgerDrafts.SavingFirstChangesNothing` | backend/apps/accounting/viewsets.py:565-626 | under an unspent key, saving a draft and posting it comes to posting it at once: same refusals, balances and numbers |
| `LedgerDrafts.SavedDraftPostsWhatWasSent` | backend/apps/accounting/viewsets.py:586-611 | the row posted for a saved draft carries the lines submitted, sides included |
| `LedgerDrafts.SavesIff` | backend/apps/accounting/serializers.py:644-733 | a draft is saved if and only if it has lines of one side each on existing accounts, a journal, a rate and a period for its day, open or not; the row carries the lines as given and nothing else moves |
| `LedgerDrafts.EditsIff` | backend/apps/accounting/serializers.py:661-680 | an edit without lines goes through if and only if the row is a draft and a new day has a period; the header changes and nothing else |
| `LedgerLaws.PostedOnlyGap` | backend/apps/accounting/viewsets.py:170-173 | POSTED-only sums differ from the cached balance by exactly the reversed originals |
| `LedgerLaws.SideEditKeepsCacheIff` | backend/apps/accounting/models.py:184-189 | flipping an account's normal side keeps the cache exact if and only if the balance is zero |
| `LedgerLaws.NetOverAllAccounts` | backend/apps/accounting/services/posting.py:344-372 | adding an entry up over accounts equals adding it up over lines |
| `LedgerLaws.TrialBalanceHolds` | backend/apps/accounting/models.py:451-460 | on every run the cached balances, in document amounts, cancel: debit-side balances equal credit-side ones |
| `LedgerLaws.AcceptedTotalsAreClose` | backend/apps/accounting/serializers.py:832-864 | accepted raw totals differ by less than one minor unit and round to the same positive amount |
| `LedgerLaws.PreciseAcceptanceIsBalance` | backend/apps/accounting/services/posting.py:151-160 | with lines at currency precision the amount checks accept if and only if debits equal credits above zero |
| `LedgerBase.SingleCurrencyPassesNightly` | backend/apps/accounting/services/posting.py:475-493 | books whose posted entries are all in the base currency pass the nightly check |
| `LedgerBase.CacheIsBaseNetIff` | backend/apps/accounting/services/posting.py:344-372 | a cached balance is the account's base net if and only if the document-minus-base nets of its live foreign entries sum to zero |
| `LedgerBase.ReportedTrialBalanceIffNightly` | backend/apps/reporting/generators/financial.py:166-182 | on every run the reports' trial balance over POSTED base columns is out by exactly the nightly gap, and balances if and only if the nightly check passes |
| `LedgerBase.ForeignGapBound` | backend/apps/accounting/services/posting.py:298-305 | a foreign entry's base columns differ by at most half a base unit per line plus the converted difference of the raw totals; where those agree, by one unit for every two lines |
| `LedgerBase.PostKeepsNightlyIff` | backend/apps/accounting/services/posting.py:475-493 | a posting keeps the nightly check if and only if its converted debits and credits have equal sums |
| `LedgerBase.VoidKeepsNightlyIff` | backend/apps/accounting/services/posting.py:379-411 | a void keeps it if and only if the entry was a draft or had no gap |
| `LedgerBase.ReverseKeepsNightlyIff` | backend/apps/accounting/services/posting.py:414-468 | a reversal keeps it if and only if the mirror's converted gap is the original's, or the original had none when no mirror is written |
| `LedgerBase.ForeignPostingFailsNightly` | backend/apps/accounting/services/posting.py:475-493 | USD 0.01 + 0.01 against 0.02 at a rate of 0.5 fails the check |
| `LedgerBase.AcceptedDraftUndoneAtCommit` | backend/apps/accounting/migrations/0004_ledger_guards.py:325-335 | a draft validation accepts is undone at commit because its rounded lines disagree with its total |
| `LedgerCommit.AdmittedStandsIff` | backend/apps/accounting/migrations/0004_ledger_guards.py:289-335 | a draft the service admits is posted if and only if no line vanishes and the rounded lines add up to the rounded totals |
| `LedgerCommit.UndoneIff` | backend/apps/accounting/migrations/0004_ledger_guards.py:325-335 | for every draft, exactly when the database refuses a line, and exactly when it undoes the posting at commit |
| `LedgerArchive.VoidKeepsArchivedIff` | backend/apps/accounting/viewsets.py:282-288 | a void keeps archived accounts without balance if and only if the entry was a draft or nets to nothing on each of them |
| `LedgerArchive.PostKeepsArchived` | backend/apps/accounting/services/posting.py:176-183 | a posting always does |
| `LedgerArchive.ApplyKeepsArchivedIff` | backend/apps/accounting/viewsets.py:252-300 | of all operations only such a void does not |
| `LedgerCommit.PreciseDraftSettles` | backend/apps/accounting/services/posting.py:289-315 | lines at currency precision meet both conditions |
| `LedgerCommit.PreciseDraftPassesTheTrigger` | backend/apps/accounting/migrations/0004_ledger_guards.py:289-335 | a draft at currency precision is never undone by the database |
| `LedgerRuns.ReversalPartsLedgerFromCache` | backend/apps/accounting/viewsets.py:149-173 | on a run that posts and reverses, the newest ledger page does not close at the cached balance |
| `LedgerRuns.SideEditBreaksCache` | backend/apps/accounting/models.py:184-189 | on a run that posts, flipping the side leaves a wrong balance |
| `LedgerRuns.VoidRefillsArchived` | backend/apps/accounting/viewsets.py:282-288 | a run empties and archives an account, and a later void gives it a balance again |
| `LedgerRuns.SpentKeyReversalIsReachable` | backend/apps/accounting/services/posting.py:443-466 | a run spends the derived key first; the reversal then succeeds and moves nothing |
| `LedgerRuns.ForeignRunFailsNightly` | backend/apps/accounting/services/posting.py:475-493 | a run from empty books with one foreign posting fails the check |
| `LedgerRuns.SubCentRunIsUndone` | backend/apps/accounting/migrations/0004_ledger_guards.py:325-335 | a run reaches books on which an accepted draft is undone at commit |
| `LedgerService.GeneralLedger.GatherDeltas` | backend/apps/accounting/services/posting.py:352-366 | the loop collects, for each touched account, its signed net movement, once |
| `LedgerService.GeneralLedger.ApplyToCachedBalances` | backend/apps/accounting/services/posting.py:344-372 | every account moves by its signed net, untouched ones stay |
| `LedgerService.GeneralLedger.AllocateNumber` | backend/apps/accounting/services/posting.py:321-341 | hands out the counter's next value and advances that counter alone |
| `LedgerService.GeneralLedger.CommitEntry` | backend/apps/accounting/services/posting.py:260-318 | the writes of one posting, undone together when the database refuses one |
| `LedgerService.GeneralLedger.PostEntry` | backend/apps/accounting/services/posting.py:208-318 | the service in place does what the posting function says, outcome and tables, and writes only into an open period |
| `LedgerService.GeneralLedger.VoidEntry` | backend/apps/accounting/services/posting.py:379-411 | likewise voiding, and only in an open period |
| `LedgerService.GeneralLedger.ReverseEntry` | backend/apps/accounting/services/posting.py:414-468 | likewise reversing |
| `LedgerService.GeneralLedger.PostStoredDraft` | backend/apps/accounting/viewsets.py:565-624 | likewise posting a stored draft; whatever row it adds carries the stored lines |
| `LedgerPages.Walk` | backend/apps/accounting/viewsets.py:194-199 | the loop records the balance after every row and ends at the closing balance |
| `LedgerPages.AccountLedger` | backend/apps/accounting/viewsets.py:188-218 | whatever history the page is a slice of, opening, every running balance and closing are the balances of that whole history |
| `LedgerPages.OlderIsTheRowOrder` | backend/apps/accounting/viewsets.py:234-247 | rows are ordered by date, then creation, then id, strictly, and any two rows are comparable |
| `LedgerPages.OpeningIsPrefix` | backend/apps/accounting/viewsets.py:234-247 | a page's opening equals the balance just before its oldest row, however the table is stored |
| `LedgerPages.PageBalancesAreGlobal` | backend/apps/accounting/viewsets.py:154-203 | every balance on every contiguous page is the prefix sum over the whole filtered history |
| `LedgerPages.PagesChain` | backend/apps/core/pagination.py:67-90 | however the history is cut, the oldest page opens at zero, each page opens where the older one closed, the newest closes at the total |
| `LedgerPages.FilteredOpeningIsRelative` | backend/apps/accounting/viewsets.py:181-186 | under a date filter every opening is short by the balance carried into the range |
| `LedgerPages.ClosingEqualsCacheIff` | backend/apps/accounting/viewsets.py:149-173 | the newest page closes at the cached balance if and only if the reversed originals net to zero |
| `Numbering.ParseUndoesFormat` | backend/apps/accounting/models_sequence.py:43-44 | reading from the right recovers prefix, year and value for every padding |
| `Numbering.FormatIsInjective` | backend/apps/accounting/models_sequence.py:43-44 | different values print differently |
| `Numbering.SortsExactlyBelow` | backend/apps/accounting/models_sequence.py:29-44 | string order equals numeric order below a bound if and only if the bound is at most ten to the padding |
| `Numbering.DocumentSequence.Allocate` | backend/apps/accounting/services/sequences.py:51-66 | takes the first value at or after the counter whose number is free and leaves the counter one past it |
| `Numbering.CommittedIsGapless` | backend/apps/accounting/models_sequence.py:4-11 | over any mix of committing, rolled-back and waiting transactions the committed values are exactly 1 .. next-1 |
| `Numbering.TransactionRunsAlone` | backend/apps/accounting/models_sequence.py:4-11 | a transaction that finds the row free takes the next values in order whatever others try meanwhile; a commit adds exactly those, a rollback leaves the row as found |
| `PostRequests.OnePostingPerKey` | backend/apps/accounting/models.py:446-450 | under any interleaving no two committed postings of a draft share a key |
| `PostRequests.PostsAtMostOnceIff` | backend/apps/accounting/viewsets.py:569-626 | on every schedule a draft is posted at most once if and only if no two requests carry different keys that no row and no remembered result holds |
| `PostRequests.KeylessRequestsPostOnce` | backend/apps/accounting/viewsets.py:569-626 | under any interleaving of requests without a key a draft is posted at most once |
| `PostRequests.TwoClientKeysCanPostTwice` | backend/apps/accounting/viewsets.py:569-626 | with two client keys over empty books an interleaving posts the draft twice |
| `PostRequests.SerialRequestsPostOnce` | backend/apps/accounting/viewsets.py:569-626 | served one at a time, any mix of keys posts the draft at most once |
| `PostRequests.RetiredIffSettled` | backend/apps/accounting/viewsets.py:612-624 | on every schedule the draft has been retired if and only if some request has posted it or found its posting |
| `PostRequests.CanNameNothingIff` | backend/apps/core/viewsets.py:555-570 | some schedule answers a request with a posting that never stood if and only if the ledger undoes the draft at commit and a new key is retried |
| `PostVerdict.VerdictIsThePosting` | backend/apps/accounting/services/posting.py:208-318 | the verdict a schedule runs under is what posting the draft under an unused key comes to |
| `PostVerdict.RetryNamesNothingIff` | backend/apps/core/viewsets.py:555-570 | a retry can be answered with nothing if and only if the draft is admitted, its lines survive rounding, and they do not add up to the rounded totals |
| `PostVerdict.PreciseRetriesAreTrue` | backend/apps/core/viewsets.py:555-570 | a draft at currency precision is never replayed as something it is not |
| `PostRequests.UndonePostingIsReplayed` | backend/apps/core/viewsets.py:555-570 | two requests under one key: the second is answered with a posting that was undone, and the draft is still a draft |
| `Idempotency.SplitAtColon` | backend/apps/core/cache.py:36-51 | a colon-free first field is determined by the joined string |
| `Idempotency.IdempotencyKeysAreNeverGlobal` | backend/apps/core/cache.py:27-47 | no idempotency key falls into the un-namespaced global keys |
| `Idempotency.TenantsShareIffGlobal` | backend/apps/core/cache.py:27-51 | two tenants share a cache entry if and only if its key begins with one of the global prefixes |
| `Idempotency.FlatKeysAreInjective` | backend/apps/core/viewsets.py:331-335 | two flat keys are equal only for the same tenant, resource, transition and client key, colons included |
| `Idempotency.FlatRefinesMemory` | backend/apps/core/viewsets.py:528-570 | on every request sequence the shared cache gives the answers and effects of one memory per slot |
| `Idempotency.KeyedOperationCommitsOnce` | backend/apps/core/viewsets.py:528-570 | a keyed operation commits at most once on every serial run |
| `Idempotency.LaterRequestsReplay` | backend/apps/core/viewsets.py:539-553 | after a keyed success every later request in its slot gets the first result and changes nothing |
| `Idempotency.AlwaysOwnIff` | backend/apps/core/viewsets.py:331-335 | on every run replays answer for their own row if and only if no client key is used for two rows of one action |
| `Idempotency.TwoRowsShareAnAnswer` | backend/apps/core/viewsets.py:331-335 | one key on two rows: the second is answered with the first |
| `Idempotency.IdempotentActions.RunIdempotent` | backend/apps/core/viewsets.py:528-570 | the step-by-step method does what the flat step says; failures record nothing |
| `Tenancy.ContextIsRestored` | backend/apps/core/tenancy_context.py:60-161 | after any program, with exceptions anywhere, the ContextVars are those on entry |
| `Tenancy.EveryReadIsSafe` | backend/apps/core/models.py:48-55 | every manager read in every program returns only the ContextVar's tenant, none when unset; the bypass is on only inside an open bypass block |
| `Tenancy.RowsKeepTheirOwners` | backend/apps/core/tenancy_context.py:78-93 | no row is removed or changes owner, none changes where nothing is updated, and a raising context manager leaves rows and session as found |
| `Tenancy.OutermostBlockRestoresSession` | backend/apps/core/tenancy_context.py:44-57 | a block entered outside a transaction leaves the session variables as found |
| `Tenancy.LayersAgree` | backend/apps/core/tenancy_context.py:60-94 | without nesting another tenant both layers name the same tenant at every query |
| `Tenancy.ReadIsCompleteIff` | backend/apps/core/rls.py:57-60 | a manager read is complete if and only if the layers agree, the bypass is on or there is nothing to read; otherwise it is empty |
| `Tenancy.NestedBlockLeavesSession` | backend/apps/core/tenancy_context.py:78-93 | an inner block that exits normally leaves its tenant on the session |
| `Tenancy.NestedContextHidesOuterRows` | backend/apps/core/tenancy_context.py:60-94 | afterwards the outer block reads all its rows if and only if the tenants are the same or it has none |
| `Tenancy.NestedContextEndsBypass` | backend/apps/core/tenancy_context.py:97-121 | a context manager inside a bypass block ends the bypass early |
| `Tenancy.OnlyOwnRowsWritten` | backend/apps/core/models.py:184-192 | work bound to one tenant without a bypass adds and changes only that tenant's rows |
| `TenancyBypass.BypassSeesEverything` | backend/apps/core/tenancy_context.py:97-161 | in every state that is not failed, with or without a tenant, an all-tenants read in either bypass block sees every row |
| `TenancyBypass.BlockSettings` | backend/apps/core/tenancy_context.py:44-161 | in a block that opens no other, every query has the bypass if and only if the block is one of the two that lift row-level security, and runs on the block's tenant on both layers |
| `TenancyBypass.BypassReadsAreFull` | backend/apps/core/tenancy_context.py:97-161 | whatever such a bypass block reads, writes and decides, each query sees all of the table as it stands, manager reads all of the tenant's rows |
| `TenancyBypass.BypassLastsIff` | backend/apps/core/tenancy_context.py:112-161 | within a transaction the bypass outlasts what has run if and only if no block was left standing in between |
| `TenancyBypass.RestHasBypassIff` | backend/apps/core/tenancy_context.py:112-161 | the rest of a bypass block runs with the bypass under exactly that condition |
| `TenancyBypass.SaveGoesThroughIff` | backend/apps/core/rls.py:57-75 | a row is stored if and only if it has an owner and the session is on that tenant or has the bypass |
| `TenancyStatements.StatementRaisesIff` | backend/apps/core/models.py:48-55 | a statement raises if and only if it is an exception, asks the database after a failure, stores without an owner, or is refused by the policy; a refusal marks the transaction |
| `TenancyStatements.StatementWrites` | backend/apps/core/models.py:184-192 | a statement that goes through stores its one row last, changes the visible rows of its tenant where they stand, or writes nothing |
| `TenancyStatements.SequenceIsAssociative` | backend/apps/core/tenancy_context.py:60-161 | how statements are grouped into sequences does not matter, exceptions included |
| `TenancyStatements.BlockRaisesIff` | backend/apps/core/tenancy_context.py:78-161 | a block raises if and only if the transaction had failed, its body raises, or a bypass is taken off a failed transaction; the body's writes are kept if and only if nothing in it raised out or was refused |
| `TenantSweep.Worker.Run` | backend/apps/core/tenancy_context.py:60-161 | the context managers executed on fields agree with the evaluator |
| `TenantSweep.Worker.ForEachTenant` | backend/apps/core/tenancy_tasks.py:41-57 | the loop with its failure counter computes the sweep and both counts |
| `TenantSweep.EffectIsIsolated` | backend/apps/core/tenancy_tasks.py:41-57 | a program bound to a tenant, whatever it decides, computes or updates from what it reads, has the same outcome, the same reads and the same own rows on any two tables that agree on that tenant's rows |
| `TenantSweep.SweepKeepsSettings` | backend/apps/core/tenancy_tasks.py:41-57 | whatever the jobs do, the caller's context and session are handed back |
| `TenantSweep.SweepIsFoldOfSuccesses` | backend/apps/core/tenancy_tasks.py:41-57 | for every failure pattern each tenant ends with what its own succeeding turns make of its own rows, tenants outside keep theirs, and the count is the number of turns that raise |
| `TenantSweep.CountIsUndoneIff` | backend/apps/core/tenancy_tasks.py:41-57 | the failure count is the number of turns undone if and only if no turn swallows a refused statement |
| `TenantSweep.SwallowedFailureIsNotCounted` | backend/apps/core/tenancy_tasks.py:41-57 | a job that saves a foreign row and catches the refusal is undone and reported as no failure |
| `TenantSweep.JobSeesItsOwnTenant` | backend/apps/core/tenancy_tasks.py:41-57 | each bound job runs with both layers on its own tenant and changes only that tenant's rows |
| `TenantSweep.GuardedTurnIsRetrySafe` | backend/apps/hr/services/leave.py:636-639 | work guarded by a read that the work turns off changes nothing when swept again |
| `TenantSweep.MonthlyGrantIsRetrySafe` | backend/apps/hr/services/leave.py:636-665 | bringing every stale month marker up to date, however the rows stand, is done once |
| `Departments.PrefixIffAncestor` | backend/apps/hr/models.py:50-64 | in every forest with unique slash-free codes a path is a prefix if and only if its department is above or equal |
| `Departments.SlashInCodeLeaksIntoSubtree` | backend/apps/hr/models.py:50-64 | whatever x and y, a root coded x/y falls into the subtree of the root coded x |
| `Departments.CodeIsSafeIff` | backend/apps/hr/models.py:107 | a code keeps every prefix query exact, among any unique slash-free codes, if and only if it holds no slash |
| `Departments.ParentFirstPassRepairs` | backend/apps/hr/models.py:123-130 | one parent-first pass reaches the unique right paths from any stale column |
| `Departments.SubtreeQueryIsExact` | backend/apps/hr/models.py:133-135 | after one such pass the query on the stored column returns exactly the subtree |
| `Departments.FindsItselfIff` | backend/apps/hr/models.py:133-135 | over any stored column a department's query finds it if and only if its path is stored; without one it asks below the parent's path |
| `Departments.EveryPassRepairsOneLevel` | backend/apps/hr/models.py:123-130 | in any order n full passes make every department above depth n right |
| `Departments.ChildFirstFilesChildAsRoot` | backend/apps/hr/models.py:129-130 | child first over a blank column files the child as a root |
| `Chart.RunIsCoded` | backend/apps/accounting/services/coding.py:114-178 | every run of allocations leaves a forest, one level per step, siblings numbered apart, exactly the leaves of level 5 postable |
| `Chart.SiblingsRunFromOne` | backend/apps/accounting/services/coding.py:102-111 | on every run the numbers under one parent are 1, 2, 3, ... in the order given |
| `Chart.FormatSegments` | backend/apps/accounting/services/coding.py:66-77 | the loop peels off the segments the code displays at its level |
| `Chart.UnpackUndoesPack` | backend/apps/accounting/services/coding.py:47-77 | unpacking a packed position gives the position back |
| `Chart.CodeIsPosition` | backend/apps/accounting/services/coding.py:47-77 | on every chart made by the coder a code packs, and displays, its account's own position |
| `Chart.SameLevelCodesDiffer` | backend/apps/accounting/services/coding.py:102-111 | on one level the packed code identifies the account |
| `Chart.SortsLikeTheTree` | backend/apps/accounting/services/coding.py:47-53 | codes of one level sort if and only if their positions do |
| `Chart.TallAndWideCollide` | backend/apps/accounting/services/coding.py:38-53 | two valid positions on different levels pack to 1000100101 |
| `ChartCollision.CollisionIsReached` | backend/apps/accounting/models.py:159-163 | a run of 303 allocations after which the next is refused for its code although its parent has numbers left |
| `Chart.CodesUniqueExactlyTo99` | backend/apps/accounting/services/coding.py:38-63 | codes are unique over all levels if and only if root segments stay at or below 99 |
| `Chart.NoCodeTakenWithin99` | backend/apps/accounting/models.py:159-163 | while roots are below 99 the unique constraint refuses no allocation |
| `ChartTree.Picker.Walk` | frontend/app.js:2269-2275 | the walk pushes exactly the preorder of the tree |
| `ChartTree.ListedExactlyOnce` | backend/apps/accounting/serializers.py:219-228 | over any parent column, cycles included, an account is listed once if it is within the depth bound below a root and otherwise never |
| `ChartTree.CodedChartIsListed` | backend/apps/accounting/serializers.py:219-228 | every account of every chart made by the coder is listed exactly once |
| `ChartTree.ChildrenInCodeOrder` | backend/apps/accounting/serializers.py:225-228 | the children of an account are listed once each, in the string order of their codes |
| `ChartOrder.ListedByNumberIff` | backend/apps/accounting/serializers.py:225-228 | on every chart made by the coder children are listed by number if and only if there are at most nine |
| `ChartTree.ValidateParent` | backend/apps/accounting/serializers.py:159-182 | the loop refuses if and only if the account is met within the first twelve climbing from the parent |
| `ChartTree.RefusesExactlyTheCycles` | backend/apps/accounting/serializers.py:159-182 | the check refuses only cycles, all of them while the new parent lies above the bound, and misses exactly those that close twelve or more steps up |
| `ChartTree.CodedCheckIsExact` | backend/apps/accounting/serializers.py:159-182 | on every chart made by the coder the check refuses exactly the cycles |
| `ChartTree.MoveIsCyclicIff` | backend/apps/accounting/serializers.py:159-167 | a move makes the account climb for ever if and only if the new parent descends from it at any depth, or did already |
| `ChartTree.MissedCycle` | backend/apps/accounting/serializers.py:170-181 | on a chain of thirteen, deeper than the coder makes, the first moves under the last unnoticed |
| `ChartTree.ShownIffHit` | frontend/app.js:2332-2340 | a rendered subtree is non-empty if and only if it holds a match |
| `ChartTree.SearchShowsHitsAndAncestors` | frontend/app.js:2332-2365 | the search view is the full view with exactly the matches and their ancestors kept, in order |
| `Bills.Bill.WriteLines` | backend/apps/expenses/serializers.py:410-440 | the loop appends one priced line per submitted line, numbered from 1, zero and absent quantities as one |
| `Bills.Bill.RecalculateTotals` | backend/apps/expenses/serializers.py:443-469 | the header becomes the rounded sums of the stored lines |
| `Bills.Bill.Update` | backend/apps/expenses/serializers.py:395-408 | fields, then wholesale lines, then header; an empty list of lines, and whatever the table refuses, leave the bill as it was |
| `Bills.LinesAreWhole` | backend/apps/expenses/serializers.py:410-440 | line n is the n-th input priced, numbered n, in whole minor units with total = subtotal + tax |
| `Bills.CreatedIsGood` | backend/apps/expenses/serializers.py:379-393 | a new bill's header agrees with its lines |
| `Bills.EditedIsGood` | backend/apps/expenses/serializers.py:395-469 | through any updates that send lines when the precision changes: header = sums of lines, total = line totals less rounded withholding, due = total less paid, lines 1..n |
| `Bills.CurrencyChangeAgreesIff` | backend/apps/expenses/serializers.py:395-469 | without lines, a currency change leaves header sums equal to the lines if and only if both sums are whole in the new currency, and is off by at most one unit |
| `Bills.YenChangeDisagrees` | backend/apps/expenses/serializers.py:395-469 | 0.50 moved to yen without its line leaves a header of 1 |
| `Bills.TotalsAreClose` | backend/apps/expenses/serializers.py:416-431 | for rates in [0,1] the lines total within one and a half minor units per line of exact arithmetic |
| `Bills.LineMeansItsFields` | backend/apps/expenses/serializers.py:413-431 | a stored line's amounts are within half a unit of its own quantity, price and rate; what was submitted non-zero is stored, and no line counts none |
| `Bills.UpdateTouchesWhatItNames` | backend/apps/expenses/serializers.py:395-408 | an update changes what it names and leaves every other field but the derived header |
| `Bills.UpdateIsRepeatable` | backend/apps/expenses/serializers.py:395-408 | the same update twice is the update once |
| `Bills.UpdateAcceptedIff` | backend/apps/expenses/models.py:599-616 | with no negative figure an update is accepted if and only if it has lines and what is paid and withheld does not exceed what they come to |
| `Bills.AnyUpdateAcceptedIff` | backend/apps/expenses/models.py:599-616 | whatever the signs, an update is accepted if and only if it writes no negative line or header figure and covers what is paid and withheld; lines it does not write are not looked at |
| `Bills.AcceptedIsNonNegative` | backend/apps/expenses/models.py:599-616 | what an accepted update leaves behind has no negative figure and is not paid beyond its total |
| `Bills.WithholdingIsCapped` | backend/apps/expenses/models.py:604-611 | withholding more than the bill comes to is refused |
| `Leave.OnlySubmissionBlocks` | backend/apps/hr/models.py:1171-1188 | the table's only way into the blocking statuses is DRAFT to SUBMITTED |
| `Leave.TransitionsClimb` | backend/apps/hr/models.py:1171-1188 | the table lets a status be left only for a later one: drafts are sent or withdrawn, approvals only withdrawn, rejected and cancelled are final |
| `Leave.SubmitKeepsSound` | backend/apps/hr/services/leave.py:241-339 | submission keeps every balance row in agreement with the requests behind it |
| `Leave.ApprovalNeverOverdraws` | backend/apps/hr/services/leave.py:368-459 | an accepted request is never refused approval for want of days, and the row stays in agreement |
| `Leave.ApprovalStandsIff` | backend/apps/hr/services/leave.py:428-445 | whatever the policy has become since, the last approval goes through if and only if the type may go negative or the days are still there |
| `Leave.PolicyEditKeepsSoundIff` | backend/apps/hr/services/leave.py:301-308 | editing which types may go negative keeps a book sound if and only if every row of a type that no longer may is covered |
| `Leave.RejectKeepsSound` | backend/apps/hr/services/leave.py:498-534 | rejection returns exactly the held days |
| `Leave.CancelKeepsSound` | backend/apps/hr/services/leave.py:537-585 | cancellation returns exactly the held or taken days |
| `Leave.AccrualIsRetrySafe` | backend/apps/hr/services/leave.py:636-665 | a retried month changes nothing and accrual never lifts a balance above its cap |
| `Leave.AccrualFillsToCap` | backend/apps/hr/services/leave.py:640-665 | a month's grant lands in full or fills exactly to the cap; a balance above the cap stays |
| `Leave.CorrectionsFindTheirRow` | backend/apps/hr/services/leave.py:498-585 | on a sound book cancelling and rejecting are refused only for status, date, reason or author: the row is never missing |
| `Leave.ApprovalsNeeded` | backend/apps/hr/services/leave.py:240-426 | after submission exactly two approvals are needed with a manager and an HR step, else exactly one |
| `LeaveApproval.NoAuthorityNoDecision` | backend/apps/hr/services/leave.py:397-405 | without authority every approval and every rejection is refused |
| `LeaveApproval.ApprovalStepIff` | backend/apps/hr/services/leave.py:387-459 | an approval goes through if and only if someone who may decide passes a request that awaits a decision and, unless HR still follows, the days are there or may go negative; it changes that one request |
| `LeaveApproval.ApprovedWasPassed` | backend/apps/hr/services/leave.py:368-426 | on every run an approved request was passed by exactly as many deciding approvals since its submission as its chain asks, one or two |
| `LeaveApproval.NothingApprovedWithoutAuthority` | backend/apps/hr/services/leave.py:397-405 | on a run in which nobody with authority approves, no request is approved and no balance has a day taken |
| `LeaveSteps.SubmissionIff` | backend/apps/hr/services/leave.py:241-339 | a submission goes through if and only if the request is a draft, its employee eligible, something is charged, no live request of theirs shares a day with it and the days not yet held cover it or may go negative; it holds those days and changes nothing else |
| `LeaveSteps.RejectionIff` | backend/apps/hr/services/leave.py:498-534 | a rejection goes through if and only if someone who may decide gives a reason for a request awaiting a decision that has its balance row; held days go back |
| `LeaveSteps.CancellationIff` | backend/apps/hr/services/leave.py:537-585 | a withdrawal goes through if and only if the request is not final, an approved one has not begun and its balance row is there; approved days become available, held days free |
| `LeaveSteps.EditIff` | backend/apps/hr/serializers.py:425-439 | an edit goes through if and only if its dates are in order, and leaves status, days and every other row alone |
| `LeaveSteps.AdjustmentMovesOneFigure` | backend/apps/hr/serializers.py:390-394 | an adjustment moves the entitlement of its own row by as much and no other figure |
| `Leave.SubmitThenCancelRestores` | backend/apps/hr/services/leave.py:537-585 | submitting and withdrawing puts every balance back |
| `Leave.EditKeepsSoundIff` | backend/apps/hr/serializers.py:425-439 | an edit keeps agreement if and only if the request is not live or stays on its balance row |
| `Leave.AdjustKeepsSoundIff` | backend/apps/hr/serializers.py:390-394 | an adjustment through the balance endpoint keeps the stored availability in agreement if and only if it changes nothing |
| `LeaveCalendar.ServiceKeepsDisjoint` | backend/apps/hr/services/leave.py:188-210 | without the constraint every action but an edit keeps live requests of an employee disjoint |
| `LeaveCalendar.EditKeepsDisjointIff` | backend/apps/hr/serializers.py:425-439 | an edit keeps them disjoint if and only if the request is not live or the new dates are free |
| `LeaveCalendar.RunIsDisjoint` | backend/apps/hr/models.py:1115-1146 | on every run under the constraint, edits included, and on every run without edits otherwise, live requests are pairwise disjoint |
| `LeaveCalendar.ConstraintOnlyMeetsEdits` | backend/apps/hr/models.py:1131-1146 | from disjoint requests the constraint changes the outcome of no action but an edit |
| `LeaveCalendar.PreCheckMatchesConstraint` | backend/apps/hr/services/leave.py:188-210 | a submission that passes everything else is accepted if and only if making it live violates no exclusion |
| `LeaveCalendar.PerformKeepsSoundIff` | backend/apps/hr/models.py:1050-1053 | an action breaks the agreement if and only if it moves a live request to another row or adjusts by something |
| `LeaveCalendar.RunIsSound` | backend/apps/hr/models.py:1050-1053 | on every run whose edits leave live requests on their own balance row and whose adjustments change nothing, pending, taken and available equal what the requests say, and no more is held than is left |
| `LeaveCalendar.RunDaysFit` | backend/apps/hr/models.py:1115-1146 | on every run under the constraint an employee's live requests cover no more days of a window than it has |
| `LeaveCalendar.EditedDatesOverlap` | backend/apps/hr/models.py:1118-1146 | without the constraint a run with one edit ends in an overlap |
| `LeaveRace.CheckThenWriteIsSubmit` | backend/apps/hr/services/leave.py:240-339 | with nobody between check and write the two halves are submission |
| `LeaveRace.RaceCollidesIff` | backend/apps/hr/services/leave.py:188-210 | two submissions that both check before either writes end in a collision if and only if they share a day of one employee |
| `LeaveRace.SerialSecondIsRefused` | backend/apps/hr/services/leave.py:188-210 | in turn instead, the second is refused |
| `LeaveDesk.WorkingHalves` | backend/apps/hr/services/leave.py:87-139 | the loop counts the working dates, less the half days at worked ends |
| `LeaveDesk.ChargedIffWorking` | backend/apps/hr/services/leave.py:128-139 | the count is positive if and only if a working day is covered, so it is never clipped |
| `LeaveDesk.ChargeIsCoveredHalves` | backend/apps/hr/services/leave.py:122-139 | the charge is the number of worked half days the request covers: from noon with a half-day start, to noon with a half-day end, one half within a single day |
| `LeaveDesk.WeekHoldsTheNamedDays` | backend/apps/hr/services/leave.py:107-126 | any seven days in a row hold as many working days as the schedule names weekdays, five when it names none, holidays apart |
| `LeaveDesk.HolidayTakesOneDayOff` | backend/apps/hr/services/leave.py:112-126 | a holiday takes exactly itself off, and only when it would have been worked |
| `LeaveDesk.Desk.SubmitRequest` | backend/apps/hr/services/leave.py:240-339 | the method in place does what submission says, with the fresh count of working days |
| `LeaveDesk.Desk.Approve` | backend/apps/hr/services/leave.py:368-459 | likewise one approval step; it succeeds only for someone who may decide |
| `LeaveDesk.Desk.CancelRequest` | backend/apps/hr/services/leave.py:537-585 | likewise cancellation |
| `Lockout.User.Authenticate` | backend/apps/iam/backends.py:58-98 | says who gets in from lock, password and standing alone, and does what one attempt does to counter and lock |
| `Lockout.VerdictIff` | backend/apps/iam/backends.py:58-70 | the user gets in if and only if no lock runs, the password is right and the account is active; the other three answers likewise |
| `Lockout.InactiveNeverGetsIn` | backend/apps/iam/backends.py:66-67 | over any run a deactivated user never gets in, every wrong password counts, and no lock is lifted or shortened |
| `Lockout.QuietMinutesAreEnough` | backend/apps/iam/backends.py:29-30 | whatever came before, after fifteen quiet minutes exactly an active user with the right password gets in, and is forgiven |
| `Lockout.FailuresTakeTime` | backend/apps/iam/backends.py:73-83 | k failed checks with no login between them span at least (k-8) times fifteen minutes, from any earlier state |
| `Lockout.AtMostEightAndOnePerLockout` | backend/apps/iam/backends.py:29-30 | a window of length T sees at most 8 + floor(T / 15 minutes) failed checks |
| `Lockout.BoundIsReached` | backend/apps/iam/models.py:107-109 | for every T some run has exactly that many |
| `Lockout.LoginForgives` | backend/apps/iam/backends.py:86-92 | after a login fewer than eight failures never lock |
| `Lockout.LockHolds` | backend/apps/iam/backends.py:58-60 | until it expires a lock refuses every attempt, changes nothing and is lifted by nothing |
| `Scrubbing.ScrubsEqualIffAlike` | backend/apps/core/observability.py:33-45 | two values scrub to the same result if and only if they are the same up to sensitive values within the depth bound |
| `Scrubbing.ScrubbedIsClean` | backend/apps/core/observability.py:33-45 | after scrubbing every sensitive key within the bound holds the mark |
| `Scrubbing.UnchangedIffClean` | backend/apps/core/observability.py:33-45 | a value comes back unchanged if and only if it is already clean |
| `Scrubbing.ScrubIsIdempotent` | backend/apps/core/observability.py:33-45 | scrubbing twice is scrubbing once |
| `Scrubbing.ScrubIsAlike` | backend/apps/core/observability.py:33-45 | only values under sensitive keys are touched: kinds, keys, lengths and order stay |
| `Scrubbing.SensitiveIff` | backend/apps/core/observability.py:29-30 | a key is sensitive if and only if it is text in which one of the listed words stands anywhere, in any case |
| `Scrubbing.ListedWordIsRedacted` | backend/apps/core/observability.py:33-42 | a value under such a key is replaced by the mark, whatever it is |
| `Scrubbing.ListsHideFromThirteen` | backend/apps/core/observability.py:36-37 | what lies under lists is left alone if and only if there are thirteen or more or it is clean |

## Left out

- The 38-digit decimal context: amounts are exact integers, so results that would not fit are not modelled; bill lines multiply in the interpreter's default context, taken as exact.
- `to_money` and its refusal of floats and non-finite input; validation of input types in general.
- Exchange-rate lookup: a rate on file is a parameter, taken at its stored precision; the lookup of inverse pairs and earlier dates is not modelled.
- Which account a refused posting names, entry memos, void reasons, line descriptions and dimensions; archive checks for system accounts, children and balances.
- Period locking: a posting reads the period status once; concurrent closing of a period is not modelled. In `PostRequests` the ledger's verdict may differ from step to step, except where a result speaks of one verdict throughout.
- `LedgerService.GeneralLedger.AllocateNumber`: postings print their own six-digit padding and ignore the counter's `padding`; the number is kept as prefix, year and value.
- `Numbering.CommittedIsGapless`: the skip over taken numbers is in `DocumentSequence.Allocate`; with skips the values are increasing rather than gapless.
- `Idempotency.FlatRefinesMemory`: entries live for ever; expiry, cache outage and a service that returns nothing are not modelled.
- `PostRequests.CanNameNothingIff`: a request that finds an earlier entry under its key always retires the draft; that this step too can be refused in a closed period is not modelled.
- `Tenancy.EveryReadIsSafe`: one worker and one connection; rows are a tenant and a number, reads feed decisions, new rows and in-place updates; raw SQL that bypasses row-level security and connection pooling are not modelled.
- `TenantSweep.EffectIsIsolated`: for jobs that bind no other tenant and no bypass, as the scheduled jobs do; a job that does either is covered by `SweepKeepsSettings` only.
- `Departments.PrefixIffAncestor`: assumes unique slash-free codes; the code enforces uniqueness only (`CodeIsSafeIff` says what a slash does). Moves of a department are seen through the rebuild.
- `Departments.SubtreeQueryIsExact`: likewise for slash-free codes.
- `Chart.RunIsCoded`: legacy accounts without a level or a packed code are not part of the chart; the dotted string is represented by its segments; names, types and archiving are not modelled.
- `ChartTree.ListedExactlyOnce`: roots are sorted like children, by code point; the database's collation and queries that filter the roots are not modelled.
- `ChartTree.SearchShowsHitsAndAncestors`: the match on code and name is a set of accounts; markup, collapsing and selection are not modelled.
- `Bills.EditedIsGood`: status rules, dates, exchange rates, duplicate vendor references and payments are not modelled; `paid` stays as it was found. Vendor credits and journal drafts follow the same pattern; the draft line replacement at backend/apps/accounting/serializers.py:675 raises, because bulk delete is disabled (backend/apps/core/models.py:35-38), and is not modelled.
- `Leave.SubmitKeepsSound`: the policy gates of a leave type are one yes or no; carry-over between years and moving a balance row to another employee, type or year through its endpoint are not modelled; approvers and dates are not kept. Drafts are created with a positive day count, as the table's check demands; a draft left at the default of zero is refused by that check.
- `LeaveCalendar.ServiceKeepsDisjoint`: actions run one after another; two submissions at once are `LeaveRace`. One request submitted twice at once is refused by the unique approval step and not modelled.
- `LeaveCalendar.RunIsSound`: which leave types may go negative is fixed for a run; `Leave.PolicyEditKeepsSoundIff` says what an edit of that switch does.
- `LeaveDesk.Desk.SubmitRequest`: days are counted in halves and stored as such. Rejection and accrual are modelled as functions only.
- `Lockout.FailuresTakeTime`: attempts run one after another; two failures that read the counter together can lose a count. Unknown addresses, timing and the address log are left out, and so is the counter's 16-bit width.
- `Scrubbing.ScrubsEqualIffAlike`: dict entries are compared in order; case folding is ASCII; named tuples, subclasses, self-references and the error fallback are not modelled.
- Reconciliation, stock, payroll, overtime, sales, projects, permissions and reports.
