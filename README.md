# Personal finance tracker: goals, transactions, recurring purchases, dashboard

This project models the logic of a small personal-finance web application in
Dafny. Users record deposits and withdrawals, keep savings goals, and look at
a dashboard and a recurring-purchases page. The model covers six parts:

- **The savings-goal ledger on the server** (`GoalLedger`). A goal's
  `current_amount` and the user's spendable `balance` hold the same money.
  - Funding a goal (PATCH `/goals/:id`) checks, then moves a signed amount
    between the two pockets inside one database transaction.
  - Create, list, delete (payments first, then the goal), scheduling a
    recurring payment and reading the balance sit around it.
  - `GoalStore` is the database as a class. Each method is one request and is
    proved equal to a pure specification function over `Tables`.
  - A `fault` parameter says which database step fails, if any.
- **The older goal routes** (`LegacyGoals`). Same rows, but adding money is a
  bare `current_amount + amount`, with no balance check and no floor at zero.
- **The transaction server** (`TransactionServer`):
  - validation of POST and PUT `/api/transactions`;
  - the table of transactions as a class;
  - the balance rule: deposits add, everything else subtracts;
  - the category listing, ordered and de-duplicated by name;
  - the required-field checks of sign-up and category creation.
- **The recurring-purchases page** (`RecurringPurchases`):
  - the next occurrence of a repeating transaction (a loop that steps a date
    until it is after today);
  - the text describing a repetition;
  - the upcoming and previous lists;
  - the month-by-month balance projection.
- **The dashboard** (`Dashboard`):
  - the running-balance chart series;
  - the category rankings, built as a loop that fills a dictionary;
  - the rank-change badges.
- **The goals page's client logic** (`GoalClient`):
  - the progress of a goal card and the split of its `emoji|name` category;
  - the decision of the add-money form: refuse, schedule or send a signed
    amount;
  - the message it shows;
  - a proved composition of that decision with the ledger.

Three support modules hold what the others share:

- `Text`: JavaScript's `split` and `join`, capitalisation, and `parseInt`
  with its inverse.
- `Calendar`: proleptic Gregorian dates, plus the day-overflow behaviour of
  `setDate`, `setMonth` and `setFullYear`.
- `Sorting`: a stable insertion sort, standing in for `Array.prototype.sort`.

Money is a mathematical `real`.
JavaScript's NaN and infinities appear only in the projection. They are one
value there, `Num.NonFinite`, which every later sum keeps.

## Model

| member | source | states |
|---|---|---|
| Text.Split | src/js/Rpurchases.js:97 | `split` always yields at least one piece |
| Text.SplitPiecesHaveNoSeparator | src/js/Rpurchases.js:165 | no piece of a split contains the separator |
| Text.SplitWithoutSeparator | src/js/goals.js:108 | a string without the separator splits into itself alone |
| Text.SplitAtSeparator | src/js/goals.js:140 | a string containing the separator splits into at least two pieces |
| Text.SplitAtFirst | src/js/goals.js:108 | splitting `a + sep + b`, with no separator in `a`, gives `a` followed by the pieces of `b` |
| Text.JoinSplit | src/js/Rpurchases.js:168-170 | joining the pieces of a split restores the string |
| Text.SplitJoin | src/js/Rpurchases.js:168-170 | splitting a join of separator-free pieces restores the pieces |
| Text.Join | src/js/Rpurchases.js:168-170 | no contract; stated by `JoinSplit` and `SplitJoin` |
| Text.Capitalize | src/js/Rpurchases.js:168-170 | keeps the length and every character after the first; the first is upper-cased (`a`-`z` only) |
| Text.CapitalizeKeepsSeparatorsOut | src/js/Rpurchases.js:168-170 | capitalising a word does not introduce a separator that is not a capital letter |
| Text.DigitsValueOfNatToString | src/js/Rpurchases.js:99 | the digits of a number's decimal text read back as the number |
| Text.DigitPrefixOfDigits | src/js/Rpurchases.js:99 | a decimal numeral is its own leading-digit run |
| Text.ParseIntNatToString | src/js/Rpurchases.js:99 | `parseInt` of a number's decimal text is that number (round trip) |
| Text.ParseInt | src/js/Rpurchases.js:99 | `NaN` exactly when the string does not start with a digit; its value is stated by `ParseIntNatToString` and `ParseIntStopsAtNonDigit` |
| Text.ParseIntStopsAtNonDigit | src/js/Rpurchases.js:99 | `parseInt` stops at the first non-digit, and gives NaN when there is no leading digit |
| Text.PrefixOfDigitsThenStop | src/js/Rpurchases.js:99 | the leading-digit run of digits followed by a non-digit is those digits |
| Calendar.FirstOfMonth | src/js/Rpurchases.js:337-338 | the first day of the k-th month since year 0 is a valid date with that month index |
| Calendar.FirstOfOwnMonth | src/js/Rpurchases.js:337-338 | the first of a date's own month has its year and month and day 1 |
| Calendar.BeforeOrdinal | src/js/Rpurchases.js:118 | the date comparison `<=`/`>` agrees with comparing day numbers |
| Calendar.BeforeTotal | src/js/Rpurchases.js:118 | any two distinct valid dates are ordered one way or the other |
| Calendar.BeforeTransitive | src/js/Rpurchases.js:39 | the date order is transitive |
| Calendar.AddDays | src/js/Rpurchases.js:81-82 | `setDate(getDate() + n)` gives a valid date, the same one for 0, a later one for n > 0 |
| Calendar.AddDaysWithinMonth | src/js/Rpurchases.js:81-82 | from the first of a month, adding fewer days than the month has stays in the month |
| Calendar.AddDaysIntoNextMonth | src/js/Rpurchases.js:81-82 | from the first of a month, an overflow past the month's end carries into the next month by the excess |
| Calendar.AddDaysDayNumber | src/js/Rpurchases.js:81-82 | adding n days adds exactly n to the day number |
| Calendar.AddMonthsDay | src/js/Rpurchases.js:89-90 | `setMonth(getMonth() + n)` keeps the day when the target month has it, otherwise it overflows into the following month |
| Calendar.AddMonths | src/js/Rpurchases.js:89-90 | the result is a valid date; its day and month are stated by `AddMonthsDay` and `AddMonthsAdvances` |
| Calendar.AddMonthsAdvances | src/js/Rpurchases.js:89-90 | adding no months keeps the date; one or more give a later date |
| Calendar.AddYearsIsTwelveMonths | src/js/Rpurchases.js:92-93 | `setFullYear(getFullYear() + n)` is adding 12n months |
| Calendar.AddYears | src/js/Rpurchases.js:92-93 | the result is a valid date; stated further by `AddYearsIsTwelveMonths` and `AddYearsAdvances` |
| Calendar.AddYearsAdvances | src/js/Rpurchases.js:92-93 | adding no years keeps the date; one or more give a later date |
| Calendar.NextMonthDayNumber | src/js/Rpurchases.js:89-90 | the first of the next month is the current month's length further on |
| Sorting.SortBy | src/js/dashboard.js:177-179 | the sort returns a permutation of its input (same multiset and members) that is sorted by the given total preorder |
| Sorting.SortBySorted | src/js/dashboard.js:96 | sorting an already sorted list by the same order leaves it unchanged |
| Sorting.SortByStable | src/js/dashboard.js:177-179 | the sort is stable: of two input elements that compare equal, the earlier one occurs before the later one in the output |
| Sorting.DistinctMultiplicity | src/js/dashboard.js:177-178 | a list without repetitions holds each member exactly once |
| Sorting.DistinctPermutation | src/js/dashboard.js:177-179 | a permutation of a list without repetitions has none either |
| TransactionServer.CreateRejection | src/server/index.js:234-236 | creation is refused with "All fields are required" exactly when a field is missing or falsy |
| TransactionServer.UpdateRejection | src/server/index.js:330-340 | update is refused exactly when a field is missing, the amount is not positive or the type is not Deposit/Withdrawal, each with its own message, in that order |
| TransactionServer.UpdateIsStricterThanCreate | src/server/index.js:330-340 | every request the update accepts, creation accepts too |
| TransactionServer.CreateAcceptsWhatUpdateRefuses | src/server/index.js:234-236 | creation stores a negative amount of an unknown type that an update would refuse |
| TransactionServer.StoredRecurring | src/server/index.js:250 | `recurring` is stored as given, or as `'one-time'` when absent |
| TransactionServer.FindRow | src/server/index.js:355 | the row found matches both id and owner, and no earlier row does |
| TransactionServer.TransactionTable.constructor | src/server/index.js:65-79 | the table starts empty, with ids starting at 1 |
| TransactionServer.TransactionTable.Create | src/server/index.js:230-266 | a refused request changes nothing; an accepted one appends the row under the next id |
| TransactionServer.TransactionTable.Update | src/server/index.js:324-382 | a refusal or a missing row changes nothing (404 with its message); otherwise exactly that row is replaced, keeping id and owner |
| TransactionServer.Balance | src/server/index.js:204-208 | the balance of no rows is 0 |
| TransactionServer.UserRows | src/server/index.js:204-208 | the rows summed are exactly the user's own |
| TransactionServer.BalanceIsDepositsMinusOthers | src/server/index.js:204-208 | the balance is the sum of deposits minus the sum of all other rows |
| TransactionServer.UserBalance | src/server/index.js:204-208 | no contract; stated by `BalanceIsDepositsMinusOthers`, `BalanceAppend` and `BalancePermutation` on the caller's rows |
| TransactionServer.BalanceAppend | src/server/index.js:204-208 | the balance of two row sets together is the sum of their balances |
| TransactionServer.BalancePermutation | src/server/index.js:204-208 | the balance does not depend on the order of the rows |
| TransactionServer.StrLeTotal | src/server/index.js:275-277 | name order compares any two names |
| TransactionServer.StrLeTransitive | src/server/index.js:275-277 | name order is transitive |
| TransactionServer.CategoryOrder | src/server/index.js:275-277 | "defaults first, then by name" is a total preorder |
| TransactionServer.Visible | src/server/index.js:272-274 | exactly the default categories and the caller's own are selected |
| TransactionServer.VisibleCategories | src/server/index.js:270-278 | the query returns the visible rows, defaults first and then by name |
| TransactionServer.LastIndexOfName | src/server/index.js:287-289 | the last row with a name, or -1 exactly when no row has it |
| TransactionServer.FirstIndexOfName | src/server/index.js:287-289 | the first row with a name |
| TransactionServer.FirstSeenNames | src/server/index.js:287-289 | the Map's keys: every name once, in first-seen order |
| TransactionServer.FirstSeenNamesStep | src/server/index.js:287-289 | one more row repeats a known name or adds its own after every earlier one |
| TransactionServer.FirstIndexOfPrefix | src/server/index.js:287-289 | appending a row does not move an existing name's first occurrence |
| TransactionServer.DedupByName | src/server/index.js:287-289 | one row per name, in first-seen order, holding the last row with that name; the same names as the input |
| TransactionServer.ListCategories | src/server/index.js:268-292 | only visible categories are listed, and every visible name is listed |
| TransactionServer.DefaultCategories | src/server/index.js:84-91 | no contract: the three rows inserted at start-up; stated by `DefaultCategoryNames` |
| TransactionServer.DefaultCategoryNames | src/server/index.js:84-91 | every default row is marked default and has no owner, and the names are Food, Transport and Utilities |
| TransactionServer.DefaultsListedForEveryone | src/server/index.js:268-292 | a table of the default rows inserted at start-up is listed whole for any user: every default name, and only default rows |
| TransactionServer.LastOfNameAfterOwn | src/server/index.js:275-277 | in the ordered listing, the last row with a user category's name is a user row |
| TransactionServer.OwnCategoryOverridesDefault | src/server/index.js:270-289 | a user's own category with a default's name takes the default's place |
| TransactionServer.SignupRejection | src/server/index.js:115-135 | sign-up is refused exactly when a field is missing or the email is registered |
| TransactionServer.SignupEmailsStayUnique | src/server/index.js:131-135 | once an email has signed up, signing up again with it is refused |
| TransactionServer.CategoryRejection | src/server/index.js:299-301 | creating a category is refused exactly when the name or the emoji is missing |
| GoalLedger.FindGoal | src/server/routes/goals.js:85-86 | the goal found matches id and user, and no earlier goal does |
| GoalLedger.OwnsIffFound | src/server/routes/goals.js:93-96 | the lookup finds a goal exactly when the user owns one with that id |
| GoalLedger.GoalSumAppend | src/server/routes/goals.js:123-141 | what a user's goals hold is additive over the rows |
| GoalLedger.GoalSumSingle | src/server/routes/goals.js:123-141 | a single row holds its amount for its owner and nothing for anyone else |
| GoalLedger.GoalSumUpdate | src/server/routes/goals.js:123-127 | replacing one goal row changes the sum by the difference of the rows |
| GoalLedger.Fund | src/server/routes/goals.js:106-120 | refused with "Insufficient balance" when funding beyond the balance, then with the over-withdrawal message when the goal would go negative; otherwise balance − amount and goal + amount, with the sum preserved and the goal non-negative |
| GoalLedger.WithdrawalNeedsNoBalance | src/server/routes/goals.js:110-113 | a withdrawal is never refused for lack of balance, even with a negative balance |
| GoalLedger.PatchUnownedGoal | src/server/routes/goals.js:85-96 | a goal the user does not own is not found, and nothing changes |
| GoalLedger.PatchFailureChangesNothing | src/server/routes/goals.js:88-140 | every failure before COMMIT leaves every table as it was (rollback) |
| GoalLedger.PatchValidation | src/server/routes/goals.js:106-120 | on an owned goal, the two refusals apply in order with nothing changed; otherwise the transfer succeeds |
| GoalLedger.PatchSuccess | src/server/routes/goals.js:123-159 | a successful transfer writes exactly the goal's amount (+amount) and the user's balance (−amount), and answers with the refreshed goal and the new balance |
| GoalLedger.PatchSpec | src/server/routes/goals.js:73-169 | no contract; stated by `PatchUnownedGoal`, `PatchFailureChangesNothing`, `PatchValidation`, `PatchSuccess`, `PatchConserves`, `PatchPreservesInv` and `PatchRoundTrip` |
| GoalLedger.PatchConserves | src/server/routes/goals.js:106-141 | no transfer changes any user's balance plus goal savings |
| GoalLedger.PatchPreservesInv | src/server/routes/goals.js:116-141 | transfers keep the database invariant; no goal ever holds a negative amount |
| GoalLedger.PatchRoundTrip | src/server/routes/goals.js:106-141 | funding then withdrawing the same amount restores every table |
| GoalLedger.PatchScenario | src/server/routes/goals.js:106-120 | a worked sequence: two fundings succeed, overspending and over-withdrawing are refused, another user's request is not found |
| GoalLedger.PatchAllConserves | src/server/routes/goals.js:73-169 | any series of transfers keeps every user's total and the invariant |
| GoalLedger.PatchAll | src/server/routes/goals.js:73-169 | no contract; stated by `PatchAllConserves` |
| GoalLedger.BalanceSpec | src/server/routes/goals.js:268-281 | the balance is reported for a known user, "User not found" otherwise |
| GoalLedger.PatchThenBalance | src/server/routes/goals.js:143-159 | after a transfer, the balance route reports the balance the transfer answered with |
| GoalLedger.UserGoals | src/server/routes/goals.js:16-18 | exactly the caller's goals are selected |
| GoalLedger.NewerFirstOrder | src/server/routes/goals.js:17 | newest first is a total preorder |
| GoalLedger.NewestFirst | src/server/routes/goals.js:13-37 | the list holds the caller's goals and no others, newest `created_at` first |
| GoalLedger.CreateStartsEmpty | src/server/routes/goals.js:40-70 | creation fails with nothing changed when a NOT NULL column is missing; otherwise the new goal is the caller's, holds 0 and is appended under the next id; no money moves |
| GoalLedger.CreateSpec | src/server/routes/goals.js:40-70 | no contract; stated by `CreateStartsEmpty`, `CreatePreservesInv` and `CreatedGoalListedFirst` |
| GoalLedger.CreatePreservesInv | src/server/routes/goals.js:47-51 | creation keeps the database invariant |
| GoalLedger.CreatedGoalListedFirst | src/server/routes/goals.js:13-37 | a goal created after every existing one heads the caller's list |
| GoalLedger.PaymentsFor | src/server/routes/goals.js:253-257 | exactly the payments of this goal and user are listed |
| GoalLedger.WithoutPayments | src/server/routes/goals.js:179-181 | exactly the other payments stay, and ids stay unique |
| GoalLedger.PaymentsPartition | src/server/routes/goals.js:179-181 | every payment row is either listed for the goal or kept by its deletion |
| GoalLedger.NothingToDelete | src/server/routes/goals.js:179-181 | deleting a goal's payments when there are none changes nothing |
| GoalLedger.WithoutGoal | src/server/routes/goals.js:188-197 | no row goes exactly when no row matches |
| GoalLedger.WithoutGoalMembers | src/server/routes/goals.js:188-189 | exactly the matching goal rows go |
| GoalLedger.NoGoalToDelete | src/server/routes/goals.js:188-197 | with no matching row, the goals stay as they are |
| GoalLedger.WithoutGoalAppend | src/server/routes/goals.js:188-189 | the deletion acts row by row |
| GoalLedger.WithoutGoalAround | src/server/routes/goals.js:188-189 | with one match, exactly that row goes |
| GoalLedger.DeleteOneGoal | src/server/routes/goals.js:188-189 | with unique ids, exactly the row found goes |
| GoalLedger.DeleteUnownedGoal | src/server/routes/goals.js:172-204 | deleting a goal the user does not own is not found and changes nothing |
| GoalLedger.DeleteEffect | src/server/routes/goals.js:172-204 | deletion succeeds exactly for an owned goal with no fault; it removes the goal and its payments only, touches no balance, and a failure of the goal deletion keeps the payments deleted |
| GoalLedger.DeleteSpec | src/server/routes/goals.js:172-204 | no contract; stated by `DeleteUnownedGoal`, `DeleteEffect`, `DeleteForfeitsSavings` and `DeletePreservesInv` |
| GoalLedger.DeleteForfeitsSavings | src/server/routes/goals.js:188-197 | what a deleted goal held is not returned: the owner's total drops by it and nobody else's changes |
| GoalLedger.RemovalKeepsGoalInv | src/server/routes/goals.js:188-189 | removing a goal row keeps the goal part of the invariant |
| GoalLedger.RemainingPaymentsOwned | src/server/routes/goals.js:179-197 | every remaining payment is attached to a remaining goal of its user |
| GoalLedger.PaymentDeletionKeepsInv | src/server/routes/goals.js:179-181 | deleting a goal's payments keeps the invariant |
| GoalLedger.GoalDeletionKeepsInv | src/server/routes/goals.js:179-197 | deleting the payments and then the goal keeps the invariant |
| GoalLedger.DeletePreservesInv | src/server/routes/goals.js:172-204 | every outcome of a deletion keeps the invariant |
| GoalLedger.ScheduleEffect | src/server/routes/goals.js:207-247 | scheduling needs an owned goal (404 otherwise); it records one payment dated today and moves no money |
| GoalLedger.ScheduleSpec | src/server/routes/goals.js:207-247 | no contract; stated by `ScheduleEffect` and `SchedulePreservesInv` |
| GoalLedger.SchedulePreservesInv | src/server/routes/goals.js:207-247 | scheduling keeps the invariant |
| GoalLedger.GoalStore.constructor | src/server/routes/goals.js:13-281 | empty tables with the given balances |
| GoalLedger.GoalStore.ListGoals | src/server/routes/goals.js:13-37 | GET `/goals` answers with `NewestFirst` |
| GoalLedger.GoalStore.CreateGoal | src/server/routes/goals.js:40-70 | POST `/goals` has the effect and answer of `CreateSpec` and keeps the invariant |
| GoalLedger.GoalStore.FundGoal | src/server/routes/goals.js:73-169 | PATCH `/goals/:id`, step by step with rollback, has the effect and answer of `PatchSpec` and keeps the invariant |
| GoalLedger.GoalStore.DeleteGoal | src/server/routes/goals.js:172-204 | DELETE `/goals/:id` has the effect and answer of `DeleteSpec` and keeps the invariant |
| GoalLedger.GoalStore.ScheduleRecurring | src/server/routes/goals.js:207-247 | POST `/goals/:id/recurring` has the effect and answer of `ScheduleSpec` and keeps the invariant |
| GoalLedger.GoalStore.ListRecurring | src/server/routes/goals.js:250-265 | GET `/goals/:id/recurring` lists exactly this goal's and user's payments |
| GoalLedger.GoalStore.GetBalance | src/server/routes/goals.js:268-281 | GET `/user/balance` answers with `BalanceSpec` |
| LegacyGoals.AddToMatching | server/routes/goals.js:56-58 | every matching row grows by the amount; the others stay |
| LegacyGoals.LegacyCreateStartsEmpty | server/routes/goals.js:30-49 | the new goal is the caller's, holds 0, and appears in the caller's list |
| LegacyGoals.LegacyCreateSpec | server/routes/goals.js:30-49 | no contract; stated by `LegacyCreateStartsEmpty` |
| LegacyGoals.LegacyIncrementUnchecked | server/routes/goals.js:52-76 | not found exactly when the caller owns no such goal; otherwise the goal grows by any amount, positive or negative, unchecked, and no other row changes |
| LegacyGoals.LegacyIncrementsAdd | server/routes/goals.js:56-58 | two increments are one increment by the sum |
| LegacyGoals.LegacyIncrementSpec | server/routes/goals.js:52-76 | no contract; stated by `LegacyIncrementUnchecked`, `LegacyIncrementsAdd` and `LegacyAllowsWhatLedgerRefuses` |
| LegacyGoals.LegacyAllowsWhatLedgerRefuses | server/routes/goals.js:56-58 | the older route lets a goal go negative and ignores the balance, where the ledger refuses both |
| LegacyGoals.LegacyDeleteScoped | server/routes/goals.js:79-95 | not found exactly when the caller owns no such goal; only the caller's matching rows go, and other users' goals stay |
| LegacyGoals.LegacyDeleteSpec | server/routes/goals.js:79-95 | no contract; stated by `LegacyDeleteScoped` |
| LegacyGoals.LegacyGoalStore.constructor | server/routes/goals.js:13-97 | an empty goals table |
| LegacyGoals.LegacyGoalStore.List | server/routes/goals.js:13-27 | the caller's goals, newest first |
| LegacyGoals.LegacyGoalStore.Create | server/routes/goals.js:30-49 | has the effect and answer of `LegacyCreateSpec` |
| LegacyGoals.LegacyGoalStore.Increment | server/routes/goals.js:52-76 | has the effect and answer of `LegacyIncrementSpec` |
| LegacyGoals.LegacyGoalStore.Delete | server/routes/goals.js:79-95 | has the effect and answer of `LegacyDeleteSpec` |
| RecurringPurchases.FixedSteps | src/js/Rpurchases.js:78-94 | daily, weekly, bi-weekly, monthly and yearly step by 1, 7 and 14 days, one month and one year; any other tag but custom keeps the date |
| RecurringPurchases.DigitsHaveNoHyphen | src/js/Rpurchases.js:97 | a count written in digits holds no `-` |
| RecurringPurchases.SplitInterval | src/js/Rpurchases.js:97 | `"N-unit"` splits into the count and the unit |
| RecurringPurchases.CustomSteps | src/js/Rpurchases.js:95-111 | a custom `"N-unit"` steps by N days, 7N days, N months or N years; an unknown unit keeps the date |
| RecurringPurchases.CustomStepEdgeCases | src/js/Rpurchases.js:96-111 | with a known unit, a count that `parseInt` reads as NaN makes the date invalid; an interval with no `-` keeps the date |
| RecurringPurchases.CustomStep | src/js/Rpurchases.js:95-111 | no contract; stated by `CustomSteps` and `CustomStepEdgeCases` |
| RecurringPurchases.StepOf | src/js/Rpurchases.js:78-111 | no contract; stated by `FixedSteps`, `CustomSteps`, `CustomStepEdgeCases` and `AddInterval` |
| RecurringPurchases.AddInterval | src/js/Rpurchases.js:77-115 | one step gives an invalid date exactly for a NaN count; a non-advancing step keeps the date; any other gives a later valid date |
| RecurringPurchases.DistanceDecreases | src/js/Rpurchases.js:118-120 | each advancing step brings the date strictly closer to passing today (the loop terminates) |
| RecurringPurchases.NextFrom | src/js/Rpurchases.js:118-122 | when the step advances, or the date is already after today, the loop ends at a valid date after today; it fails only on an invalid step |
| RecurringPurchases.Steps | src/js/Rpurchases.js:118-120 | k steps from a valid date give a valid date |
| RecurringPurchases.NextFromIsFirstStepAfterToday | src/js/Rpurchases.js:118-122 | the result is reached from the last date by whole steps, and it is the first step that passes today: every earlier one is today or before |
| RecurringPurchases.NextOccurrence | src/js/Rpurchases.js:70-123 | with no tag, the transaction's own date; a date after today is kept; any other result is after today; none only for an invalid step |
| RecurringPurchases.CalculateNextOccurrence | src/js/Rpurchases.js:70-123 | the `while (nextDate <= today)` loop computes `NextOccurrence` |
| RecurringPurchases.MonthlyFromThirtyFirst | src/js/Rpurchases.js:89-90 | a monthly repetition from 31 January in a common year next lands on 3 April when today is between 3 and 31 March |
| RecurringPurchases.JoinSameLengths | src/js/Rpurchases.js:168-170 | joining pieces of the same lengths gives texts of the same length |
| RecurringPurchases.FormatCapitalizesTag | src/js/Rpurchases.js:161-171 | no tag gives `''`; any other tag (other than custom with an interval), with upper-casing restricted to basic-Latin letters, keeps its length, and its pieces are the tag's pieces capitalised |
| RecurringPurchases.FormatBiWeekly | src/js/Rpurchases.js:168-170 | `bi-weekly` reads `Bi-Weekly` |
| RecurringPurchases.FormatCustom | src/js/Rpurchases.js:164-167 | custom `"N-unit"` reads `Every N unit`; an interval without `-` reads `Every N undefined` |
| RecurringPurchases.FormatRecurringText | src/js/Rpurchases.js:161-171 | no contract; stated by `FormatCapitalizesTag`, `FormatBiWeekly` and `FormatCustom` |
| RecurringPurchases.DateOrders | src/js/Rpurchases.js:39 | earlier-first and later-first are total preorders |
| RecurringPurchases.WithNextOccurrence | src/js/Rpurchases.js:33-37 | exactly the repeating transactions (tag set and not one-time), each with its next occurrence |
| RecurringPurchases.UpcomingPurchases | src/js/Rpurchases.js:33-39 | a permutation of `WithNextOccurrence`: exactly the repeating transactions whose next occurrence is after today, soonest first |
| RecurringPurchases.UpcomingTiesKeepServerOrder | src/js/Rpurchases.js:39 | purchases whose next occurrence falls on the same day keep the order the server sent them in (the sort is stable) |
| RecurringPurchases.PastRepeating | src/js/Rpurchases.js:57-58 | exactly the repeating transactions dated today or earlier |
| RecurringPurchases.PreviousPurchases | src/js/Rpurchases.js:57-59 | the repeating transactions dated today or earlier, a permutation of them, latest first |
| RecurringPurchases.PreviousTiesKeepServerOrder | src/js/Rpurchases.js:59 | past purchases on the same date keep the order the server sent them in |
| RecurringPurchases.PerCount | src/js/Rpurchases.js:367-376 | dividing by the parsed count is finite exactly for a positive count |
| RecurringPurchases.FixedImpacts | src/js/Rpurchases.js:346-361 | the monthly impact is the amount ×30, ×4, ×2, ×1 and ÷12 for daily to yearly; 0 for any other tag but custom |
| RecurringPurchases.CustomImpacts | src/js/Rpurchases.js:362-380 | custom `"N-unit"` spreads the amount over N days, weeks, months or 12N months; N = 0 gives NaN or infinity; an unknown unit gives 0 |
| RecurringPurchases.MonthlyImpact | src/js/Rpurchases.js:346-380 | no contract; stated by `FixedImpacts`, `CustomImpacts` and `PerCount` |
| RecurringPurchases.ApplyMonthAddsNet | src/js/Rpurchases.js:342-388 | one month adds the net monthly impact (withdrawals negative) |
| RecurringPurchases.NonFiniteStays | src/js/Rpurchases.js:383-387 | once the running balance is NaN or infinite it stays so |
| RecurringPurchases.ProjectionClosedForm | src/js/Rpurchases.js:332-390 | after k months the balance is current + k·net; a non-finite impact poisons every month |
| RecurringPurchases.ProjectedStep | src/js/Rpurchases.js:332-390 | each projected month is the month before plus the net monthly impact |
| RecurringPurchases.Projected | src/js/Rpurchases.js:332-390 | no contract; stated by `ProjectionClosedForm` and `CalculateBalanceProjection` |
| RecurringPurchases.FirstOfNextMonth | src/js/Rpurchases.js:337-339 | the first of month k+1 is the first of the month after month k |
| RecurringPurchases.ProjectionLabelsConsecutive | src/js/Rpurchases.js:336-339 | the corrected labels start at today's month and each is the month after the previous one |
| RecurringPurchases.ProjectionLabel | src/js/Rpurchases.js:337-339 | no contract; the corrected label, stated by `ProjectionLabelsConsecutive` and `AsWrittenAgreesUpToThe28th` |
| RecurringPurchases.AsWrittenLabel | src/js/Rpurchases.js:337-339 | no contract; the label as written, stated by `FromJanuary31st`, `AsWrittenLabelRepeatsAMonth` and `AsWrittenAgreesUpToThe28th` |
| RecurringPurchases.AsWrittenAgreesUpToThe28th | src/js/Rpurchases.js:337-339 | up to the 28th of a month, the labels as written agree with the corrected ones |
| RecurringPurchases.FromJanuary31st | src/js/Rpurchases.js:337-338 | from 31 January of a common year, `setMonth` gives 31 January, 3 March and 31 March |
| RecurringPurchases.AsWrittenLabelRepeatsAMonth | src/js/Rpurchases.js:337-339 | as written, the labels from 31 January of a common year are Jan, Mar, Mar: February is skipped and March repeated |
| RecurringPurchases.CalculateBalanceProjection | src/js/Rpurchases.js:329-394 | `months` labels and balances; label i is the corrected label of today's month + i (see Findings), which equals the source's `setMonth` label whenever today is on or before the 28th; balance i is the balance after i+1 months |
| RecurringPurchases.CustomIntervalLostInTransit | src/server/index.js:219-226 | as fetched, a custom row dated today or earlier has lost its interval: its step keeps the date (the loop would not end), the text is `Custom` and the impact 0 |
| RecurringPurchases.FetchedAsWritten | src/server/index.js:219-226 | no contract: the row as the page receives it, without `recurrenceInterval`; stated by `CustomIntervalLostInTransit` |
| RecurringPurchases.Fetched | src/js/Rpurchases.js:96 | no contract: the row with the interval the page reads; stated by `CustomIntervalKept` |
| RecurringPurchases.CustomIntervalKept | src/js/Rpurchases.js:95-113 | read with its interval, the same row advances, has a next occurrence after today, and reads `Every N unit` |
| Dashboard.BalanceSeries | src/js/dashboard.js:15-20 | one entry per transaction; entry i is the running balance of the first i+1 transactions, starting from 0 |
| Dashboard.ChartEndsAtBalance | src/js/dashboard.js:11-20 | the chart's last point is the balance the server reports for the same rows |
| Dashboard.DatedBy | src/js/dashboard.js:14 | exactly the rows dated on or before a given day |
| Dashboard.BalanceOn | src/js/dashboard.js:14-20 | no contract: the balance on a day, over the rows dated by it; stated by `ChronologicalPointIsBalanceOn` and `NewestFirstChartMisstates` |
| Dashboard.AllDatedBy | src/js/dashboard.js:14 | when every row is dated by the day, all of them count |
| Dashboard.NoneDatedBy | src/js/dashboard.js:14 | rows dated after the day add nothing to its balance |
| Dashboard.ChronologicalPointIsBalanceOn | src/js/dashboard.js:14-20 | with the rows oldest first, the point at the last row of each date is the balance on that date |
| Dashboard.NewestFirstChartMisstates | src/server/index.js:221 | with the rows newest first, as the server sends them, two deposits on different dates put the wrong balance under both date labels |
| Dashboard.PreviousPeriod | src/js/dashboard.js:111-132 | every timeframe is its own previous period |
| Dashboard.CategoryKey | src/js/dashboard.js:166-169 | a category without a space is its own key; a key never contains a space |
| Dashboard.CategoryKeySecondWord | src/js/dashboard.js:166-169 | `"emoji name"` and `"emoji name rest"` are keyed by `name` |
| Dashboard.InWindow | src/js/dashboard.js:138-160 | exactly the transactions the window admits are kept |
| Dashboard.Keys | src/js/dashboard.js:164-175 | each key once, and a string is a key exactly when a withdrawal or deposit has that category key |
| Dashboard.UnlistedCategoryHasNoTotal | src/js/dashboard.js:164-175 | a category without a key has no total |
| Dashboard.CategoryTotal | src/js/dashboard.js:164-175 | no contract; stated by `UnlistedCategoryHasNoTotal`, `PrefixTotal` and `TotalsCoverCounted` |
| Dashboard.ByAmountOrder | src/js/dashboard.js:179 | larger amount first is a total preorder |
| Dashboard.Entries | src/js/dashboard.js:177-178 | one entry per key with that key's total |
| Dashboard.Rankings | src/js/dashboard.js:134-183 | empty for empty input; exactly the keys with their totals, each category once, largest amount first |
| Dashboard.PrefixKeys | src/js/dashboard.js:165-175 | one more transaction adds its key if it is counted and new |
| Dashboard.PrefixTotal | src/js/dashboard.js:170-174 | one more counted transaction adds its amount to its own key's total only |
| Dashboard.TallyStep | src/js/dashboard.js:165-175 | one iteration of the `forEach` keeps the dictionary equal to the keys and totals so far |
| Dashboard.TalliedEntries | src/js/dashboard.js:177-178 | the filled dictionary gives exactly the entries of the rankings |
| Dashboard.GetCategoryRankings | src/js/dashboard.js:134-183 | the `forEach` that fills `categorySpending`, then the sort, computes `Rankings` |
| Dashboard.SumTotalsAppendKey | src/js/dashboard.js:177-178 | the totals are additive over keys |
| Dashboard.SumTotalsExtend | src/js/dashboard.js:165-175 | one more transaction adds its amount to the sum of totals when it is counted |
| Dashboard.TotalsCoverCounted | src/js/dashboard.js:164-175 | the totals of all keys add up to all withdrawals and deposits |
| Dashboard.SumAmountsOfEntries | src/js/dashboard.js:177-178 | the entries carry the totals |
| Dashboard.SumAmountsInsert | src/js/dashboard.js:179 | inserting into a ranking adds one amount |
| Dashboard.SumAmountsSorted | src/js/dashboard.js:179 | sorting loses no amount |
| Dashboard.RankingsCoverEveryAmount | src/js/dashboard.js:164-179 | the rankings add up to every withdrawal and deposit in the window: nothing is counted twice or lost |
| Dashboard.FindCategory | src/js/dashboard.js:197 | the first index of the category in the old rankings, or -1 exactly when it is absent |
| Dashboard.ChangeBadge | src/js/dashboard.js:218-226 | up exactly for positive, down exactly for negative, same exactly with `•`; `↑ +n` and `↓ -n` carry the size of the change |
| Dashboard.ChangeClass | src/js/dashboard.js:218-226 | no contract; stated by `ChangeBadge` |
| Dashboard.ChangeText | src/js/dashboard.js:218-226 | no contract; stated by `ChangeBadge` and `AmountViewShowsNoMovement` |
| Dashboard.UpdateRankings | src/js/dashboard.js:185-216 | no data exactly for no rankings; otherwise one row per ranking with position, category, class, text and amount; the result is `RankingsPanel` of its inputs |
| Dashboard.RowFor | src/js/dashboard.js:196-212 | no contract: the row drawn for one ranking; stated by `UpdateRankings` and `RankChangeIsPlacesMoved` |
| Dashboard.RankingsPanel | src/js/dashboard.js:185-216 | no contract: the panel `updateRankings` draws; stated by `UpdateRankings` and `SelfComparedPanelShowsNoMovement` |
| Dashboard.RankChangeIsPlacesMoved | src/js/dashboard.js:197-198 | a category in both rankings shows how many places it moved up |
| Dashboard.RankChange | src/js/dashboard.js:197-198 | no contract; stated by `RankChangeIsPlacesMoved` |
| Dashboard.AmountView | src/js/dashboard.js:74-105 | no contract: the rankings sorted by amount against those of the previous period; stated by `AmountViewShowsNoMovement` |
| Dashboard.AmountViewShowsNoMovement | src/js/dashboard.js:96-105 | since the previous period is the same timeframe, every badge of the amount view reads `•` |
| Dashboard.SelfComparedPanelShowsNoMovement | src/js/dashboard.js:196-198 | rankings with distinct categories compared with themselves: every badge reads `•` |
| GoalClient.Progress | src/js/goals.js:103-105 | 0 without a positive target; otherwise current/target·100, a missing current counting as 0 |
| GoalClient.ProgressRange | src/js/goals.js:103-105 | between 0 and 100 while the goal is not over-funded, 100 when reached |
| GoalClient.CategoryEmoji | src/js/goals.js:107-108 | the text before the first vertical bar: the whole category when there is none |
| GoalClient.CategoryLabel | src/js/goals.js:140 | the text between the first vertical bar and the next one (or the end), or the whole category when that is empty or there is no bar |
| GoalClient.CategoryRoundTrip | src/js/goals.js:227 | an option value written emoji, vertical bar, name splits back into its emoji and name |
| GoalClient.DecideAddMoney | src/js/goals.js:587-609 | refused as "Invalid input data" for a missing id or a non-positive amount; a recurring removal is refused; a recurring add schedules; a one-time request sends +amount to add, −amount to remove |
| GoalClient.Contains | src/js/goals.js:626 | `includes` holds exactly when the part occurs somewhere |
| GoalClient.ShownError | src/js/goals.js:624-630 | an insufficient-balance failure shows the friendly message, any other its own message |
| GoalClient.ShownReply | src/js/goals.js:597-630 | no contract; an answer shows as done, an error as `ShownError` of its message, and a crash as `NoAnswer`; stated through `SubmitSpec`'s lemmas |
| GoalClient.SubmitSpec | src/js/goals.js:582-631 | no contract; stated by `RefusedFormChangesNothing`, `RecurringAddMovesNoMoney`, `OneTimeSubmitMovesMoney`, `RemovalWithinGoalSucceeds`, `OverspendShowsFriendlyMessage` and `HandleAddMoneySubmit` |
| GoalClient.RefusedFormChangesNothing | src/js/goals.js:592-599 | a refused form changes no table and shows the refusal; an invalid one shows "Invalid input data" |
| GoalClient.RecurringAddMovesNoMoney | src/js/goals.js:596-604 | a recurring request never changes a goal or a balance |
| GoalClient.OneTimeSubmitMovesMoney | src/js/goals.js:605-615 | a one-time request keeps every user's total and the payments; when it succeeds the balance moves by ∓amount |
| GoalClient.RemovalWithinGoalSucceeds | src/js/goals.js:607-609 | taking out at most what a goal holds succeeds |
| GoalClient.OverspendShowsFriendlyMessage | src/js/goals.js:624-628 | adding more than the balance changes nothing and shows "Insufficient balance to add money to goal" |
| GoalClient.HandleAddMoneySubmit | src/js/goals.js:582-631 | the handler, run against the goal store, has the effect and the shown message of `SubmitSpec` and keeps the invariant |

## Left out

- Express routing, middleware, SQLite and the HTTP layer are left out. Handlers are methods, tables are sequences and maps, and route outcomes are `Result` values with the route's status kind and message.
- The concurrency of `db.serialize` is left out, and so is the lost update between two requests. Each handler is one atomic method.
- bcrypt, JWT, the authentication routes and `authMiddleware` are foreign library calls, so they are left out. The user id is a parameter.
- DOM building, modals, charts and `toLocaleString` are presentation, so they are left out. A label is a month and a two-digit year; a ranking row is a record.
- Floating point is not modelled: money is `real`. `parseFloat`, `toFixed` and rounding are left out. NaN and the infinities are one value, and only in the projection.
- `parseInt` is modelled as reading leading decimal digits. Leading white space, a sign and other radixes are not modelled.
- Time zones, the time of day and the wall clock are left out. `today` is a parameter, and so is the server's `now` and `date('now')`.
- The time-window filter of the rankings is a parameter (`windowOf`), not its date arithmetic.
- `Object.entries` lists integer-like keys first, in numeric order. The model keeps insertion order for all keys.
- Dashboard.GetCategoryRankings, Dashboard.Keys, Dashboard.Rankings and Dashboard.RankingsCoverEveryAmount: the totals are a map, where src/js/dashboard.js:164-175 uses a plain object. Keys that name `Object.prototype` properties are not modelled. In the source, the key `__proto__` is never stored, so its amounts are lost. Keys such as `constructor`, `toString` or `valueOf` start from the inherited function, so their total becomes a string and `toFixed` at src/js/dashboard.js:211 throws. For such category words the model's claims that a word is a key exactly when a counted row has it, and that no amount is lost, do not hold of the source.
- The `name` and `recent` sorts of the dashboard's category display are left out. Only the default amount sort is modelled.
- The database errors that are modelled are the NOT NULL refusals of goal creation and of scheduling a recurring payment (`Failed to create goal`, `Failed to create recurring payment`), and the storage faults of PATCH and DELETE of goals, where rollback and non-atomicity matter. The other 500 answers of src/server/routes/goals.js and src/server/index.js are not modelled.
- LegacyGoals.LegacyCreateSpec: the older routes' 500 answers (server/routes/goals.js:36-38, 41-43, 60-63, 68-71, 85-88) are not modelled, so creation there never fails and increment and delete fail only with not found.
- A PATCH amount that is not a number is not modelled: the amount is a `real`.
- A missing user row in PATCH (the `TypeError` at src/server/routes/goals.js:106) is the `Crash` outcome. Nothing handles the uncaught exception, so the server process ends and answers nothing more. On the page this is `NoAnswer`, which stands for the alert that the catch block at src/js/goals.js:623-629 shows with the message of the failed `fetch`. That message is not modelled.
- The goals list's normalisation of numbers (`parseFloat`, `|| 0`) is not modelled, because stored amounts are already reals.
- The goal id field of the add-money form is `Option<nat>`: a non-numeric id is not modelled.
- An absent and an empty `recurring` value are the same empty string.
- `Dashboard.BalanceSeries` walks the rows in whatever order they are given, and `ChartEndsAtBalance` holds for every order. What the newest-first order from the server does to the date labels is the last finding below.
- `calculateBalanceProjection`'s default of 12 months is not modelled: `months` is a parameter.
- The pages' loading functions (`loadGoals`, `loadUpcomingPurchases` and the others) are left out beyond the filters and sorts they apply.
- api.js is left out apart from the error message it forwards. login.js, categories.js, db.js beyond its schema, and kill-port.js are not part of this model.
- GoalClient.RefusedFormChangesNothing: for a recurring removal it states that the shown error is `ShownError` of the refusal message. It does not separately prove that this equals the message itself, which holds because that message does not mention insufficient balance.
- RecurringPurchases.CalculateBalanceProjection: its labels are the corrected consecutive-month labels (`ProjectionLabel`), not the `setMonth` labels of src/js/Rpurchases.js:337-339; the two agree when today is on or before the 28th and may differ from the 29th on (see Findings).
- Text.ToUpper and RecurringPurchases.FormatCapitalizesTag: upper-casing maps only `a`-`z`. JavaScript's Unicode case mapping of other letters is not modelled, including mappings that change the length, such as `ß` to `SS`.
- RecurringPurchases.WithNextOccurrence and RecurringPurchases.UpcomingPurchases require `CanProject`: every repeating row can be stepped past today. A repeating row dated today or earlier whose step keeps the date is not modelled. Examples are a tag outside the switch such as "quarterly", which src/server/index.js:250 stores unchecked, and a custom "0-days" interval. For such a row `while (nextDate <= today)` at src/js/Rpurchases.js:118 never ends and the page never draws.
- Stored dates are assumed to be well-formed calendar dates (`Valid`). An unparsable date, an Invalid Date that the upcoming-purchases filter drops, is not modelled.
- Dashboard.PreviousPeriod: the `Date` each case computes and discards is left out, because it has no effect.

## Findings

| source | as written | input that shows it | evidently intended | confidence | as-written member | corrected member |
|---|---|---|---|---|---|---|
| src/js/Rpurchases.js:337-339 | The label of month i is today with `setMonth(getMonth() + i)`. Today's day takes part, so from the 29th to the 31st the date overflows into the following month. | Today is 31 January of a common year. The labels are Jan, Mar, Mar: February is missing and March appears twice. | Label i names the i-th calendar month after today's month. | not executed | RecurringPurchases.AsWrittenLabelRepeatsAMonth | RecurringPurchases.ProjectionLabelsConsecutive |
| src/server/index.js:219-226 | The transactions route returns the rows as stored, with the column `recurrence_interval`. The recurring-purchases page reads `recurrenceInterval` (src/js/Rpurchases.js:96, 164, 363), which the rows do not have. | A custom "2-weeks" transaction dated before today. Its step keeps the date, so `while (nextDate <= today)` never ends. It reads "Custom" and adds nothing to the projection. | The page reads the stored interval. | not executed | RecurringPurchases.CustomIntervalLostInTransit | RecurringPurchases.CustomIntervalKept |
| src/server/index.js:221 | The server sends the transactions newest first (`ORDER BY date DESC`). The chart labels point i with row i's date (src/js/dashboard.js:14) and plots the running balance of rows 0 to i (src/js/dashboard.js:15-20), so each point sums the rows dated on or after its label. | Two deposits, `a` on an older date and `b` on a newer one. The point labelled with the newer date shows `b` instead of `a + b`. The point labelled with the older date shows `a + b` instead of `a`. | Each point shows the balance on its date: the rows are walked oldest first. | not executed | Dashboard.NewestFirstChartMisstates | Dashboard.ChronologicalPointIsBalanceOn |
