# Roomie backend: a verified model of its rules

Roomie is a backend for flat sharing. A user creates a *flat* and is its owner
and first member. The owner adds or removes members, or invites an email
address. Members record shared *expenses*: a payer, an amount and the members
the amount is split between. From these the backend computes each member's
*balance* (what the member fronted minus its shares) and a list of
*settlements*, the suggested payments that square the flat. A *dashboard*
shows the current month's total, a per-category chart, the latest expenses,
the open tasks and a per-member balance chart. Signing up checks the email
and password, then accepts every live invitation sent to the new address.
The invitation mailer escapes the text it puts into HTML.

The Dafny modules follow the repository's files:

- `Money`: exact amounts, cents, and `toFixed(2)` rounding as `Round2`.
- `Text`: `trim` and `toLowerCase`.
- `Js`: request-body values, `Number(v)` and `ObjectId.isValid`.
- `Domain`: user ids, calendar instants, the stored expense and the membership check.
- `Sorting`: the stable descending sort used by `Array.prototype.sort`.
- `Ledger`: the balance fold, in the three copies found in the flat router, the balance router and the dashboard.
- `Settlement`: the greedy two-cursor planner, in the flat router's and the balance router's versions.
- `Flats`: the flat router's membership rules. `Flats.Flat` is a class whose member list the handlers mutate.
- `Expenses`: the expense router's validator, its update whitelist and its creator-only rule.
- `Dashboard`: the dashboard route.
- `Invitations`: the invitation lifecycle. `Invitations.Invitation` is a class whose status the handlers mutate.
- `Auth`: the signup checks and the hook that accepts pending invitations.
- `Mailer`: `escapeHtml`.

Amounts are Dafny `real`, so arithmetic is exact. Times are integers
(milliseconds since the epoch) or `Domain.Moment` values (year, month, day,
milliseconds since midnight).

`app.js:29` mounts the flat router before the balance router (`app.js:35`).
So for `GET /api/flats/:flatId/balance` and `POST .../expenses` the flat
router's handler is the one served. Both balance copies are modelled:

- `Ledger.FlatBalance` is the copy that is served.
- `Ledger.SortedBalance` is the balance router's copy as written.

The headline results:

- **Conservation:** the expense fold conserves money (`Ledger.Conservation`).
- **Closed form:** each member's net is what it fronted minus what it owes (`Ledger.BalanceIsFrontedMinusOwed`).
- **Bounded planner:** the planner makes at most |debtors| + |creditors| − 1 transfers, each from a debtor to a creditor (`Settlement.PlanBound`).
- **Exact settlement:** on whole-cent, balanced inputs the planner settles every party exactly (`Settlement.PlanSettlesEveryParty`). End to end, this holds for both balance routes when every balance is whole cents (`Ledger.FlatBalanceSettlesEveryone`, `Ledger.SortedBalanceSettlesEveryone`).
- **Near settlement:** without that assumption, no party pays or receives more than it should. Each party falls short by at most the gap between the two sides' totals (`Settlement.PlanLeavesAtMostTheGap`). End to end, every member is left on its own side of zero, within half a cent per member of it (`Ledger.FlatBalanceNearlySettles`, `Ledger.SortedBalanceNearlySettles`).

## Model

| member | source | states |
|---|---|---|
| `Money.Round2` | routes/flat.routes.js:422 | `Number(x.toFixed(2))` is a whole number of cents, within half a cent of `x`, and of the same sign |
| `Money.RoundOnCents` | routes/flat.routes.js:444 | rounding an amount that is already whole cents leaves it unchanged |
| `Money.Min` | routes/flat.routes.js:439 | `Math.min` is at most both arguments and is one of them |
| `Text.Trim` | routes/flat.routes.js:35-40 | the trimmed text is no longer than the input and neither starts nor ends with white space |
| `Text.TrimSlice` | routes/flat.routes.js:40 | `trim` removes only white space, and only from the two ends; what it keeps is a contiguous slice of the input |
| `Text.TrimIdempotent` | routes/invitations.routes.js:71 | trimming twice is the same as trimming once |
| `Text.TrimBlank` | routes/flat.routes.js:35 | a string trims to "" exactly when it is all white space, which is when `!name.trim()` refuses it |
| `Text.Lower` | routes/invitations.routes.js:71 | lower-casing maps each character through the ASCII lower-case map (A–Z to a–z, all else kept), so in this model it keeps the length |
| `Text.LowerIdempotent` | routes/invitations.routes.js:81 | lower-casing twice is the same as once, and leaves no upper-case ASCII letter |
| `Text.LowerTrimCommute` | routes/auth.routes.js:17 | `toLowerCase().trim()` (the signup hook) equals `trim().toLowerCase()` (signup and invitations) |
| `Js.NumberOfDecimal` | routes/flat.routes.js:257 | `Number` of the decimal text of a whole number `n` gives `n` |
| `Js.NumberOfNegativeDecimal` | routes/flat.routes.js:257 | `Number` of `-` followed by the decimal text of `n` gives `-n` |
| `Js.RequiredText` | routes/flat.routes.js:253-255 | the check `!v \|\| !v.trim()` refuses exactly the falsy values and the blank strings; a truthy non-string crashes at `.trim`; any other value gives its trimmed text |
| `Js.PresentIsTrimmed` | routes/flat.routes.js:281 | text that passes the required-text check is non-empty and already trimmed |
| `Domain.EnsureMember` | routes/dashboard.routes.js:8-16 | `ensureMember` gives 404 exactly when the flat is missing, 403 exactly when the user is not among its members, and otherwise allows the call |
| `Sorting.SortDescCorrect` | routes/balance.routes.js:69 | the comparator sort `(a, b) => b.net - a.net` returns a permutation of its input in descending order of the key |
| `Sorting.SortDescStable` | routes/balance.routes.js:69 | the sort is stable: for any key value, the elements with that key appear in the output in their input order |
| `Sorting.SortDescKeeps` | routes/balance.routes.js:69 | sorting keeps the sum of the keys, and keeps any tagging free of duplicates |
| `Ledger.Credit` | routes/balance.routes.js:55 | `map.set(u, (map.get(u) \|\| 0) + x)` changes only `u`'s entry, by `x`, and adds `u` to the keys |
| `Ledger.ComputeBalances` | routes/balance.routes.js:36-62 | the handler's loops compute `Balances`: every member starts at 0, and each booked expense credits the payer its amount and debits each participant one share. The `Fold` parameter selects the copy: routes/flat.routes.js:401-417 and routes/dashboard.routes.js:83-99 skip an empty split |
| `Ledger.DebitEach` | routes/balance.routes.js:58-61 | the inner loop debits the share from each participant in turn |
| `Ledger.SharesAddUp` | routes/balance.routes.js:52 | the `n` shares `amount / n` add back up to `amount` |
| `Ledger.BalanceIsFrontedMinusOwed` | routes/balance.routes.js:52-61 | a user's net is the total it paid minus the total of its shares, over the booked expenses only |
| `Ledger.MembersHaveEntries` | routes/balance.routes.js:37 | every member has an entry in the map, with or without expenses |
| `Ledger.UninvolvedHasZeroNet` | routes/flat.routes.js:402-409 | a user who neither pays nor is charged in any booked expense has net 0 |
| `Ledger.EmptySplitChargesEveryMember` | routes/balance.routes.js:41-44 | in the balance router an expense with an empty split moves each member's net by what the member paid minus `amount / members.length` |
| `Ledger.CountedOnly` | routes/balance.routes.js:49-50 | the booked expenses are taken from the list, and each of them passes the skip checks |
| `Ledger.SkippedExpensesDoNotMatter` | routes/balance.routes.js:49-50 | skipped expenses leave the map as if they were absent: an empty split in the flat router and the dashboard, a zero or negative amount in the balance router |
| `Ledger.BookConserves` | routes/balance.routes.js:52-61 | one booked expense whose payer and participants are among `keys` leaves the sum of the nets at `keys` unchanged |
| `Ledger.Conservation` | routes/balance.routes.js:52-61 | money is conserved: when every booked expense moves money among distinct `keys`, the nets at `keys` add up to 0 |
| `Ledger.BalanceKeys` | routes/balance.routes.js:55-60 | the map holds exactly the members plus every payer and participant of a booked expense, even one who is not a member |
| `Ledger.TotalsRows` | routes/balance.routes.js:64-68 | `totals` has one row per member, in member order, with the member's rounded net; no member appears twice when the members are distinct |
| `Ledger.RoundingDrift` | routes/balance.routes.js:67 | the rounded nets add up to within half a cent per member of the exact nets, and exactly to them when those are whole cents |
| `Ledger.CreditorsAndDebtors` | routes/balance.routes.js:72-77 | the creditors are exactly the rows with `net > 0` and are owed that net; the debtors are exactly the rows with `net < 0` and owe its magnitude |
| `Ledger.PartiesBalance` | routes/balance.routes.js:72-77 | what the creditors are owed minus what the debtors owe equals the sum of the rows' nets |
| `Ledger.PartiesPositive` | routes/balance.routes.js:72-77 | every creditor and every debtor has a positive remainder, a whole number of cents when the nets are |
| `Ledger.PartiesNamed` | routes/flat.routes.js:426-429 | each party list names only users of the rows whose net has that list's sign |
| `Ledger.PartiesDistinct` | routes/flat.routes.js:426-429 | neither party list names a user twice when the rows do not |
| `Ledger.FlatBalanceHandler` | routes/flat.routes.js:401-454 | the served balance handler replies with the member-order `totals` and the flat router's settlement plan |
| `Ledger.SortedBalanceHandler` | routes/balance.routes.js:36-103 | the balance router's handler replies with the sorted `totals` and its settlement plan |
| `Ledger.TransfersSquareEveryRow` | routes/flat.routes.js:426-452 | for distinct, whole-cent rows that add up to 0: each debtor pays exactly its debt and receives nothing; each creditor receives exactly its credit and pays nothing; a row at 0 takes part in no transfer |
| `Ledger.SortedRows` | routes/balance.routes.js:64-69 | the sorted rows (also the dashboard's `byUser`) are in descending order of net, are a permutation of the member-order rows, and repeat no member when the members are distinct |
| `Ledger.NetsNearlyBalance` | routes/balance.routes.js:64-68 | with distinct members and every booked expense among them, the reported nets add up to 0 within half a cent per member |
| `Ledger.FlatBalanceSettlesEveryone` | routes/flat.routes.js:401-454 | the served route, for distinct members, expenses among members and whole-cent balances: one row per member with its exact balance, and after the settlements every member's balance is 0 |
| `Ledger.TransfersNearlySquareEveryRow` | routes/flat.routes.js:426-452 | for distinct, whole-cent rows with any sum: each row is left on its own side of zero, within \|sum of the nets\| of it; debtors receive nothing and creditors pay nothing; every debtor row or every creditor row is squared exactly |
| `Ledger.FlatBalanceNearlySettles` | routes/flat.routes.js:401-454 | the served route, for distinct members and expenses among members, with no condition on the balances: each row is the member's balance rounded to cents. After the settlements, each member is left on its own side of zero and within half a cent per member of it |
| `Ledger.SortedBalanceNearlySettles` | routes/balance.routes.js:36-103 | the same for the balance router's copy: each member's rounded balance is a row, and the member is left on its own side of zero, within half a cent per member |
| `Ledger.SortedBalanceSettlesEveryone` | routes/balance.routes.js:36-103 | the same for the balance router's copy: every member's net plus what it pays minus what it receives is 0 |
| `Settlement.Epsilon` | routes/flat.routes.js:450-451 | both settle thresholds (0.001 and 0.009) lie strictly between 0 and one cent |
| `Settlement.Next` | routes/flat.routes.js:439-451 | an iteration keeps the cursors in range and moves at least one of them, each by at most one position |
| `Settlement.Iterate` | routes/balance.routes.js:84-100 | the loop body subtracts `min(remaining)` from both parties, pushes the transfer when this copy pushes it, and moves each settled cursor |
| `Settlement.Settle` | routes/balance.routes.js:79-101 | the `while` loop returns exactly the plan `Plan(v, debtors, creditors)` |
| `Settlement.StepsBound` | routes/balance.routes.js:83-101 | the loop terminates after at most \|debtors\| + \|creditors\| − 1 iterations |
| `Settlement.PlanBound` | routes/balance.routes.js:83-101 | no transfers when either list is empty and at most \|debtors\| + \|creditors\| − 1 otherwise; every transfer goes from a debtor to a creditor; the balance router pushes only amounts that show as at least 0.01; the flat router pushes one transfer per iteration |
| `Settlement.EmitShape` | routes/balance.routes.js:88-94 | the pushed transfers number at most the iterations, go from debtors to creditors, and in the balance router are at least one cent |
| `Settlement.ShownAtLeastOneCent` | routes/balance.routes.js:88-92 | an amount above 0.009 rounds to at least 0.01 |
| `Settlement.StepMovesSmallerRemainder` | routes/balance.routes.js:87 | every iteration moves exactly the smaller of what its debtor and its creditor still have, so no transfer exceeds either party's remainder |
| `Settlement.StepsConserve` | routes/flat.routes.js:447-448 | each party's final remainder plus what it paid or received over the iterations is its starting remainder |
| `Settlement.StepsPositive` | routes/balance.routes.js:87-97 | with positive remainders every iteration moves a positive amount |
| `Settlement.SettlesExactly` | routes/flat.routes.js:435-452 | on balanced whole-cent inputs both cursors reach the end, every remainder ends at 0, and each iteration moves a whole number of cents, at least one |
| `Settlement.PlanSettlesEveryParty` | routes/flat.routes.js:431-452 | for positive, balanced, whole-cent parties with distinct users, in either copy, each debtor pays exactly what it owes and each creditor receives exactly what it is owed |
| `Settlement.SettlesUpToImbalance` | routes/flat.routes.js:435-452 | on positive whole-cent inputs that need not balance, the loop leaves every remainder at or above 0 and one side all at 0; the difference of the two sides' sums is kept; every iteration moves whole cents, at least one |
| `Settlement.PlanLeavesAtMostTheGap` | routes/flat.routes.js:431-452 | for positive whole-cent parties with distinct users, balanced or not, in either copy: no debtor pays more than it owes and no creditor receives more than it is owed; each falls short by at most \|sum owed − sum due\|; on one side every party is squared exactly |
| `Flats.RemoveAllSpec` | routes/flat.routes.js:191 | the filter drops the id and keeps every other id with its multiplicity |
| `Flats.RemoveAllAbsent` | routes/flat.routes.js:191 | removing an absent id changes nothing |
| `Flats.RemoveAllIdempotent` | routes/flat.routes.js:191 | removing twice is removing once |
| `Flats.RemoveAllAppend` | routes/flat.routes.js:191 | filtering distributes over concatenation, so the kept members keep their order |
| `Flats.RemoveAllDistinct` | routes/flat.routes.js:191 | filtering keeps the member list free of duplicates |
| `Flats.Flat.constructor` | routes/flat.routes.js:39-44 | a new flat has the given name and description, its creator as owner and `[creator]` as members |
| `Flats.Flat.AddMember` | routes/flat.routes.js:139-160 | replies with the add-member status; on 200 the looked-up user is appended and on any other status the members are unchanged; name, description and owner never change; the flat stays valid |
| `Flats.Flat.RemoveMember` | routes/flat.routes.js:176-192 | replies with the remove-member status; on 200 every occurrence of the id is filtered out, otherwise nothing changes; the flat stays valid |
| `Flats.Flat.Join` | routes/invitations.routes.js:227-231 | the user is appended unless already a member; nothing else changes |
| `Flats.JoinedIsAddToSet` | routes/auth.routes.js:34-37 | joining lists the user, keeps the earlier members in place, adds at most one entry and no duplicate, and a second join changes nothing |
| `Flats.AddMemberStatus` | routes/flat.routes.js:139-157 | the add-member reply is one of 200, 400, 403, 404 and 500 |
| `Flats.AddMemberSucceeds` | routes/flat.routes.js:139-159 | adding succeeds exactly when the email is a non-blank string, the caller is the owner, a user has that trimmed lower-cased email, and that user is not yet a member |
| `Flats.AddMemberNotTwice` | routes/flat.routes.js:155-157 | once a user has been added, adding the same user again is refused with 400 |
| `Flats.RemoveMemberStatus` | routes/flat.routes.js:176-189 | the remove-member reply is one of 200, 400 and 403 |
| `Flats.RemoveMemberKeepsOwner` | routes/flat.routes.js:183-191 | a successful removal was asked by the owner for someone else, and leaves the owner in the list and the target out of it |
| `Flats.NewFlatName` | routes/flat.routes.js:35-41 | a flat is refused exactly for a falsy or blank name; otherwise its name and description are the trimmed texts |
| `Flats.CreateFlat` | routes/flat.routes.js:30-46 | replies 201 with a fresh flat owned by the creator, whose only member is the creator, or 400 for a missing name, or 500 when `.trim` fails; in those cases no flat is made |
| `Flats.ValidIdsCorrect` | routes/flat.routes.js:268 | the filtered split holds exactly the text of the items that pass `isValidObjectId`, and is empty exactly when none passes |
| `Flats.ValidIdsAppend` | routes/flat.routes.js:268 | the filter keeps the items' order: filtering a concatenation concatenates the filtered parts |
| `Flats.AcceptedExpense` | routes/flat.routes.js:253-287 | an accepted expense has a trimmed non-blank title and a positive amount; its payer and every split id are members; its split is every member when the body gave no valid id |
| `Flats.RefusalOrder` | routes/flat.routes.js:253-278 | the refusals come in source order: title, then amount (NaN or ≤ 0), then payer, then membership of the payer and the split |
| `Flats.SplitDefault` | routes/flat.routes.js:266-269 | the split is the valid ids given when there are any, and otherwise every member |
| `Flats.TaskAssignee` | routes/flat.routes.js:346-359 | with a good title, a task is accepted exactly when it is unassigned or assigned to a member |
| `Flats.AcceptedIsAdmitted` | routes/flat.routes.js:272-290 | every expense the route stores has a positive amount, a member payer and a non-empty split of members |
| `Flats.AdmittedExpensesBalance` | routes/flat.routes.js:406-417 | every copy of the fold books such expenses, and the members' nets add up to 0 |
| `Expenses.PayloadAccepted` | routes/expense.routes.js:18-31 | the validator returns null exactly for a truthy string title, a defined numeric amount ≥ 0, a truthy payer and a non-empty array split |
| `Expenses.ZeroAmountAccepted` | routes/expense.routes.js:25 | an amount of 0 passes |
| `Expenses.ZeroTextAccepted` | routes/expense.routes.js:22-25 | so does the text "0" |
| `Expenses.PayloadErrorOrder` | routes/expense.routes.js:21-29 | each error is reported only when every earlier check passed |
| `Expenses.StoredSplit` | routes/expense.routes.js:61 | the stored split is non-empty exactly when the body gave a non-empty array; for a payload the validator accepts, it is that array unchanged |
| `Expenses.Whitelist` | routes/expense.routes.js:125-137 | the update holds exactly the allowed keys that the body defines, with the body's values |
| `Expenses.WhitelistIgnoresOtherKeys` | routes/expense.routes.js:125-137 | two bodies that agree on the allowed keys give the same update |
| `Expenses.CheckedUpdate` | routes/expense.routes.js:138-153 | an update passes exactly when its amount, if present, is a number ≥ 0 and its split, if present, is a non-empty array. A passing update stores the amount as that number and changes nothing else. It is refused for its amount exactly when the amount is NaN or negative. It is refused for its split exactly when the amount is fine and the split is not a non-empty array |
| `Expenses.ApplyUpdate` | routes/expense.routes.js:155 | `findByIdAndUpdate` overwrites the given keys and keeps every other key |
| `Expenses.UpdateExpense` | routes/expense.routes.js:125-155 | replies 200 exactly when the whitelisted body passes the checks, and then the document is the checked update written over the old one; otherwise 400 with the document unchanged; keys outside the whitelist never change; any new key is an allowed key from the body |
| `Expenses.OnlyCreatorEdits` | routes/expense.routes.js:112-123 | editing or deleting is allowed exactly to the creator while a member. A missing flat gives 404. A non-member, even the creator, gets 403 from the membership check, which runs before the creator check (also routes/expense.routes.js:177-189) |
| `Dashboard.MonthRange` | routes/dashboard.routes.js:19-23 | the range runs from midnight of day 1 of the month to midnight of day 1 of the next month; December rolls over into January of the next year |
| `Dashboard.MonthRangeIsTheMonth` | routes/dashboard.routes.js:43-46 | an instant is in the range exactly when it falls in the same year and month |
| `Dashboard.StampOrdersMoments` | routes/dashboard.routes.js:47 | ordering by time stamp is chronological order, and equal stamps mean equal instants |
| `Dashboard.InMonthOnly` | routes/dashboard.routes.js:43-46 | the date filter keeps exactly the expenses dated in the range |
| `Dashboard.MonthExpensesCorrect` | routes/dashboard.routes.js:43-47 | the month's expenses are exactly the flat's expenses in the month, latest first, and their total does not depend on the order |
| `Dashboard.MonthTotalNonNegative` | routes/dashboard.routes.js:66 | with non-negative stored amounts the month total is non-negative |
| `Dashboard.RecentAreLatest` | routes/dashboard.routes.js:53-55 | at most five expenses, latest first, and no other expense later than them; fewer than five only when the flat has fewer |
| `Dashboard.PendingTasksCountExact` | routes/dashboard.routes.js:60-63 | the count is the number of tasks whose status is "pending" or "doing" |
| `Dashboard.PendingCountBounds` | routes/dashboard.routes.js:60-63 | the count is 0 exactly when no task is pending or doing, and equals the number of tasks exactly when all are |
| `Dashboard.CategoryTotals` | routes/dashboard.routes.js:69-73 | the `catMap` loop produces the category names in order of first appearance and each category's accumulated amount |
| `Dashboard.CategoryNamesCorrect` | routes/dashboard.routes.js:69-73 | one name per distinct category of the month, and the map's keys are exactly those categories |
| `Dashboard.CategoriesAddUp` | routes/dashboard.routes.js:66-73 | the category totals add up to the month total |
| `Dashboard.RowsShape` | routes/dashboard.routes.js:74-75 | one row per category with its rounded total, within half a cent each of the exact totals |
| `Dashboard.CategoryTotalIs` | routes/dashboard.routes.js:66-73 | each category's accumulated amount in `catMap` is the sum of the month's expenses in that category |
| `Dashboard.ByCategoryCorrect` | routes/dashboard.routes.js:74-76 | `byCategory` has one bar per distinct category (missing meaning "general"), is sorted by descending total, and adds up to the month total within half a cent per bar; each bar's total is its category's month sum rounded to cents |
| `Dashboard.EveryCategoryCharted` | routes/dashboard.routes.js:70-76 | every category of an expense of the month has a bar |
| `Dashboard.UncategorisedIsGeneral` | routes/dashboard.routes.js:71 | an expense without a category is charted under "general" |
| `Dashboard.Dashboard` | routes/dashboard.routes.js:40-123 | the handler's loops build the reply: member count, rounded month total, open-task count, the five latest expenses, `byCategory` over the month and `byUser` over all expenses |
| `Dashboard.ByUserCorrect` | routes/dashboard.routes.js:83-108 | `byUser` has one row per member, sorted by descending net, and with every expense among distinct members its nets add up to 0 within half a cent per member |
| `Invitations.StatusName` | models/Invitation.model.js:17-21 | every status is stored under one of the four enum names (`"pending"`, `"accepted"`, `"revoked"`, `"expired"`); only Pending is stored as `"pending"` |
| `Invitations.StatusNamesDistinct` | models/Invitation.model.js:19 | distinct statuses have distinct names |
| `Invitations.ExpiryFacts` | utils/invitations.js:12-14 | a missing expiry means expired; otherwise an invitation is expired exactly when `expiresAt < now`, so at `now == expiresAt` it is still valid; expiry is monotone in time |
| `Invitations.FreshInvitationLifetime` | routes/invitations.routes.js:95 | a new invitation expires 48 × 3 600 000 ms after creation, is valid up to and including that instant, and expired afterwards |
| `Invitations.RevokeOnlyOwnerFromPending` | routes/invitations.routes.js:171-182 | revocation succeeds exactly for the flat's owner on a pending invitation; the reply is one of 200, 400, 403 and 404 |
| `Invitations.AcceptOrder` | routes/invitations.routes.js:209-225 | accept checks, in order: not pending gives 400; expired gives 400; an email mismatch gives 403; a missing flat gives 404; otherwise 200 |
| `Invitations.Invitation.constructor` | routes/invitations.routes.js:97-104 | a new invitation is pending, for the given flat, email, inviter and expiry, and not yet accepted |
| `Invitations.Invitation.Revoke` | routes/invitations.routes.js:171-182 | replies with the revoke status; the status becomes revoked exactly on 200 and is otherwise unchanged |
| `Invitations.Invitation.Accept` | routes/invitations.routes.js:209-236 | replies with the accept status. Only an expired pending invitation is marked expired. On 200 the caller joins the flat unless already a member, and the invitation records who accepted and when. The flat's owner, name and description never change, and the flat stays valid |
| `Invitations.OnlyPendingMoves` | routes/invitations.routes.js:178-180 | an invitation that is not pending cannot be revoked, and accepting it leaves its status unchanged |
| `Invitations.CreateSucceeds` | routes/invitations.routes.js:64-85 | an invitation is created exactly when: the flat id is valid; the email is a non-blank string; the caller owns the flat; no member has the trimmed, lower-cased email (member emails lower-cased) |
| `Invitations.MemberEmailRefused` | routes/invitations.routes.js:80-85 | a member's address is refused with 400 in any mix of case and surrounding spaces |
| `Invitations.RevokeEarlier` | routes/invitations.routes.js:88-91 | every pending invitation for that flat and email becomes revoked; every other status and every accept field is unchanged |
| `Invitations.CreateInvitation` | routes/invitations.routes.js:64-104 | replies with the create status. On 201 the earlier pending invitations for the flat and the cleaned email are revoked, and a fresh pending invitation expiring in 48 hours is added; it is then the only pending one for that flat and email. On any other status nothing changes |
| `Invitations.Issue` | routes/invitations.routes.js:88-104 | revokes the earlier pending invitations, then appends a new pending one that is the only pending invitation for its flat and email |
| `Auth.EmailCheckIsThePattern` | routes/auth.routes.js:62-63 | the email check accepts exactly the strings matching `^[^\s@]+@[^\s@]+\.[^\s@]{2,}$`; such a string has one `@` and no white space |
| `Auth.PatternMeansRule` | routes/auth.routes.js:69-70 | the password pattern accepts only passwords with a digit, a lower-case and an upper-case letter and at least six characters |
| `Auth.PatternIsRuleOnOneLine` | routes/auth.routes.js:69-70 | on a password without line terminators the pattern is exactly that rule |
| `Auth.LineBreakRefused` | routes/auth.routes.js:69 | "abcdef\nA1" meets the stated rule but the pattern refuses it |
| `Auth.SignupCreates` | routes/auth.routes.js:56-91 | a user is created exactly for: a string email matching the pattern and not registered; a password matching its pattern; a non-empty string name. The stored email is lower-cased and the name trimmed |
| `Auth.EmptyFieldFirst` | routes/auth.routes.js:56-60 | a field sent as exactly "" is refused before any other check |
| `Auth.MissingNameCrashes` | routes/auth.routes.js:90 | a valid request without a name passes the empty-field check and crashes at `name.trim()` |
| `Auth.DedupCorrect` | routes/auth.routes.js:29 | `[...new Set(ids)]` has no repeats and the same elements |
| `Auth.ValidOnly` | routes/auth.routes.js:29-31 | the filter keeps exactly the well-formed ids |
| `Auth.ValidOnlyDistinct` | routes/auth.routes.js:29-31 | filtering keeps the ids free of repeats |
| `Auth.FlatsOf` | routes/auth.routes.js:29 | the mapped ids are exactly the flats of the selected invitations |
| `Auth.Selected` | routes/auth.routes.js:20-24 | the query selects exactly the stored invitations that are pending, addressed to the cleaned email, and expire strictly after `now` |
| `Auth.InvitedFlats` | routes/auth.routes.js:29-31 | the flat ids have no repeats and are exactly the well-formed flats of the selected invitations |
| `Auth.AcceptPendingInvites` | routes/auth.routes.js:16-50 | for the address lower-cased and trimmed, a blank one changing nothing: every pending invitation to it expiring after `now` is marked accepted by the user at `now`; every well-formed flat they name gets the user once; no flat's name, description or owner changes; nothing else changes |
| `Auth.AcceptFor` | routes/auth.routes.js:20-49 | the same for an already cleaned address: select, join the flats, mark the invitations accepted; flats keep their name, description and owner |
| `Auth.JoinAll` | routes/auth.routes.js:34-37 | each listed flat gets the user added to its members unless already present; other flats' members are unchanged; every flat keeps its name, description and owner |
| `Auth.MarkAccepted` | routes/auth.routes.js:40-49 | the selected invitations become accepted, with `acceptedBy` and `acceptedAt` set; the others are unchanged |
| `Mailer.ChainIsPerCharacter` | utils/mailer.js:25-29 | because `&` is replaced first, the chain of `replaceAll` calls replaces each character independently, and never escapes an inserted entity again |
| `Mailer.EscapeMissing` | utils/mailer.js:24 | a missing or empty argument gives "" |
| `Mailer.NoMarkupLeft` | utils/mailer.js:26-29 | the escaped text contains no `<`, `>`, `"` or `'` |
| `Mailer.EscapeLength` | utils/mailer.js:25-29 | the output is at least as long as the input, and exactly as long, and then equal to it, when the input has no special character |
| `Mailer.EscapeRoundTrip` | utils/mailer.js:25-29 | the escaped text reads back as the original: every character is kept, in order |
| `Mailer.EscapeHtmlCorrect` | utils/mailer.js:23-30 | `escapeHtml` of a string is the per-character escape, and reads back as the string |

## Left out

- Database access is replaced by given values: Mongoose queries, `populate`, `save` and `updateMany`. Flats, expenses, invitations and users are sequences, maps or records passed in. The fields a handler reads after `populate` (names, emails) are not modelled.
- HTTP routing, JWT authentication, bcrypt hashing, and the response bodies beyond their status codes and reply data are left out.
- Clocks are parameters: `new Date()` and `Date.now()` become a `now` argument. The stored date of a new expense (`date ? new Date(date) : new Date()`) is the `Moment` argument of `Flats.Stored`.
- Token generation and hashing (`generateInviteToken` and `hashToken` in utils/invitations.js) are random and SHA-256 calls. So are the accept route's token check and lookup by token hash (routes/invitations.routes.js:200-207). The model starts from the invitation that was found.
- Sending mail is left out: the nodemailer transport, `sendInviteEmail`, and the mail sent after an invitation is created.
- The flat handlers start from a flat that was found. The checks of the flat id and the lookup of the flat (for example routes/flat.routes.js:136-144) are not modelled, except for the id checks of the invitation routes.
- The invitation listing route and `task.routes.js` are left out: they are plain queries and CRUD with a membership check.
- The environment override `INVITE_TTL_HOURS` is left out; the model uses its default of 48 hours.
- Binary floating point is left out. Amounts are exact reals, and `toFixed(2)` is `Money.Round2` on the exact value. The 0.001 and 0.009 thresholds are named constants.
- `Number(v)` is modelled for the forms a form or JSON body sends:
  - strings are trimmed; an optional sign is followed by `digits[.digits]`;
  - an empty string is 0;
  - numbers are themselves;
  - NaN is `None`.
  - Exponents, hexadecimal literals and `Infinity` are not modelled.
- `mongoose.Types.ObjectId.isValid` is modelled as: 24 hexadecimal characters or any 12 characters for a string, or a non-negative whole number.
- Settlements name parties by user id. The flat router labels them by email, which changes no amount.
- Balances in the flat router: a non-member payer or participant gets `NaN` (`undefined += x`). The model gives such an id 0 plus the amounts instead. These entries are never reported, because only members' rows are read.
- The balance router sorts `totals` by descending net before splitting them, so its debtors come smallest debt first. The model follows the code.
- The balance router's `if (!payerId) continue` never skips anything, because `String(...)` is never empty. The model has no such skip.
- The expense schema requires `amount`, so the `|| 0` in the balance router and the dashboard never applies. The model treats a stored amount as a number.
- A stored category of "" counts as "general" in the dashboard, as `e.category || "general"` makes it.
- `validateExpensePayload` is modelled, but nothing in the repository calls it. The expense router's own create handler is shadowed by the flat router's, and it has no membership check. Of that handler, only its `splitBetween` normalisation is modelled (`Expenses.CreateSplit`, `Expenses.StoredSplit`).
- `Expenses.OnlyCreatorEdits`: it models the check order shared by update and delete; the delete itself is not modelled.
- Expiry differs at its boundary between the two places that test it. The signup hook selects `expiresAt > now`, while `isExpired` in the accept route rejects only `expiresAt < now`. Both are modelled as written.
- `Auth.PatternMeansRule`: the password pattern has no anchors, and its `.` does not match line terminators. So it is modelled position by position, and it equals the stated rule only on strings without line breaks (`Auth.PatternIsRuleOnOneLine`, `Auth.LineBreakRefused`).
- `Text.Lower`: only A–Z are lower-cased. JavaScript's `toLowerCase` follows all of Unicode: it maps "É" to "é", and for a few characters, such as U+0130, it changes the length. An email or name with a non-ASCII capital letter therefore compares differently in the model than in the code.
- `Auth.EmailCheckIsThePattern`: strings are sequences of Unicode scalar values. The JavaScript pattern has no `u` flag, so it works on UTF-16 code units, where a character outside the Basic Multilingual Plane is two units. `[^\s@]{2,}` can then accept a one-character top-level domain of such a character, which the model refuses.
- `Auth.PatternMeansRule`: for the same reason, `.{6,}` counts UTF-16 code units. "Aa1😀😀" is seven units, which the code accepts, but five characters, which the model refuses.
- `Ledger.FlatBalanceSettlesEveryone`, `Ledger.SortedBalanceSettlesEveryone`: these state exact settlement only when every unrounded balance is a whole number of cents. A 10.00 expense split three ways does not satisfy this; the planner is then fed rounded nets whose sum can be off by a cent or more. For any balances, `Ledger.FlatBalanceNearlySettles` and `Ledger.SortedBalanceNearlySettles` give the bound instead.
- `escapeHtml`'s argument is modelled as a string or missing; `String(x)` of other values is not modelled.
- Regular-expression `test` on a non-string body value is modelled as a refusal, not as the string conversion JavaScript applies.
- Mongo ordering by date makes no promise for equal dates. `Dashboard.RecentAreLatest` and `Dashboard.MonthExpensesCorrect` therefore state order and contents, and leave ties open.
- `Dashboard.Dashboard` leaves out the month label: it is locale formatting.
