# Hostel management back end: rent ledger, student registry and dashboard

This Dafny project models the request handlers of a hostel-management back
end. The handlers work over four tables: `tbl_rent`, `tbl_students`,
`tbl_room` and `tbl_expense`.

- **Rent ledger** (`rentals.dfy`, module `Rentals`). A class `RentLedger`
  holds `tbl_rent` as a sequence of rows and an auto-increment counter.
  - `CreateRental` charges the student's current basic rent on top of the
    dues of the student's latest `(Year, RentPaidMonth)` row. It subtracts
    the payment, stores the dues clamped at 0, and derives the status from
    them.
  - `UpdateRental` rewrites one row in place. It charges the current basic
    rent on top of *that row's own* stored dues.
  - `DeleteRental` removes one row and recomputes nothing.
  - `GetRentalById` returns the student's history in period order, with the
    sums of paid amounts and dues.
  - `GetAllRentals` returns one page of the table.
- **Student registry** (`students.dfy`, module `Students`). A class
  `StudentTable` implements:
  - create, with the required-field check and a room check by room id;
  - update, with a room check by room number and the "supplied value if
    truthy, else stored value" merge;
  - delete one row;
  - the paginated listing.

  The image store is a function parameter.
- **Dashboard** (`dashboard.dfy`, module `Dashboard`):
  - total income (Paid rows only), total expense and savings;
  - percentage changes between the two most recent groups;
  - the most-spent expense name;
  - the six-month window (an imperative loop) and the month-by-month chart
    join (Paid and Partially Paid rows).
- **Shared parts**: `pagination.dfy` holds the page arithmetic, and
  `common.dfy` holds optional fields with JavaScript truthiness, the
  `Result`/failure kinds and `(year, month)` periods.

Modelling conventions:
- Money is `int`.
- Percentages are `real`.
- A request field is an `Option` of a typed JSON value: a number or a
  string. "Given" means present and truthy: not 0 and not `""`.
- A failure is `Err(status, cause)`. `status` is the HTTP status class the
  handler answers with: 400, 404 or 500.
- The current month and year are parameters.

Behaviours of the code a reader might not expect:
- A second payment for the same month is charged the basic rent again. No
  per-month "already paid" sum exists (`NextPaymentCarriesOnlyRow`,
  `SamePeriodPaymentsChargeRentTwice`).
- The dues carried into a new payment come from the student's latest row,
  not from the row of the previous calendar month.
- An update uses the edited row's own stored dues as the carried dues, so a
  repeated identical update compounds (`RepeatedUpdateCompounds`).
- In `createRental` and `updateRental`, the catch block turns "student not
  found" into a 500. `deleteRental` answers a missing id with 404 and an
  unknown id with 500.

## Model

| member | source | states |
|---|---|---|
| `Pagination.CeilDiv` | controllers/rentalController.js:28 | `Math.ceil(total / pageSize)` for a positive page size: the smallest page count whose pages hold every record |
| `Pagination.OrDefault` | controllers/rentalController.js:13-14 | `parseInt(v) \|\| d`: the parsed value when it is a non-zero number, else the default |
| `Pagination.Offset` | controllers/rentalController.js:17 | `(page - 1) * pageSize` for a positive page size is negative exactly when the page is below 1, and ends where the page's rows end |
| `Pagination.Window` | controllers/rentalController.js:25 | `LIMIT n OFFSET o`: empty past the end, the `n` rows from `o` on, or the rest of the table when fewer are left |
| `Pagination.List` | controllers/rentalController.js:10-37 | page and page size fall back to 1 and 10 when parsed as 0 or NaN. The result is OK exactly when both are at least 1; otherwise the database rejects the negative LIMIT/OFFSET and the handler answers 500. An OK result has `offset = (page-1)*pageSize`, the row count and `totalPages = ceil(total/pageSize)` |
| `Pagination.PagesCoverTable` | controllers/rentalController.js:17-28 | reading pages 1 to `totalPages` in turn yields the whole table once, in the table order the model fixes |
| `Pagination.PageEmptyIffPastLast` | controllers/rentalController.js:17-28 | a page is empty exactly when its number exceeds `totalPages` |
| `Students.Lookup` | controllers/studentController.js:185-188 | finds a row with the id, or reports that no row has it |
| `Students.IndexOf` | controllers/studentController.js:185-188 | the position of the first row with the id, or none when no row has it |
| `Students.RequiredGiven` | controllers/studentController.js:97 | the seven fields create refuses when falsy: name, cnic, admission date, basic rent, contact number, secondary contact number and room number |
| `Students.RoomWithId` | controllers/studentController.js:102-109 | create's room check: some room has the supplied value as its room id |
| `Students.RoomWithNumber` | controllers/studentController.js:193-201 | update's room check: some room has the supplied value as its room number |
| `Students.Inserted` | controllers/studentController.js:112-117 | the inserted row gets the new auto-increment id and no images yet |
| `Students.WithImages` | controllers/studentController.js:135-138 | the URL `UPDATE` sets the three image columns to the upload results and keeps every other column |
| `Students.UploadOr` | controllers/studentController.js:204-214 | a truthy image is uploaded and its URL kept, or the step fails; a missing image keeps the existing value |
| `Students.Images` | controllers/studentController.js:122-132 | the three images go through the upload step in order; one failed upload fails them all |
| `Students.Merge` | controllers/studentController.js:237-253 | each column is the supplied value when truthy and the stored value otherwise (a supplied 0 or "" keeps the old value); the id never changes |
| `Students.EmptyFormKeepsRow` | controllers/studentController.js:204-253 | an update that supplies nothing truthy writes the row back unchanged |
| `Students.RemoveAt` | controllers/studentController.js:308 | removing one row shifts the later rows down by one and keeps the earlier ones |
| `Students.RemoveAtKeepsOthers` | controllers/studentController.js:308 | with unique ids, the delete removes every copy of that id and keeps every other row |
| `Students.StudentTable.GetStudents` | controllers/studentController.js:10-41 | the student listing is `Pagination.List` over the table |
| `Students.StudentTable.CreateStudent` | controllers/studentController.js:76-152 | answers 400 with no write when a required field is falsy or no room has that id. Otherwise it inserts exactly one row with the next id. If an upload then fails, the row stays without images and the answer is 500; if not, the row gets the URLs and the new id is returned. Ids stay unique |
| `Students.StudentTable.UpdateStudent` | controllers/studentController.js:158-262 | answers 400 for a missing id, 404 for an unknown id and 400 when a supplied room number matches no room, with no write. An upload failure gives 500 with no write. Otherwise exactly that row becomes `Merge(existing, form, images)` |
| `Students.StudentTable.DeleteStudent` | controllers/studentController.js:267-315 | answers 400 for a missing id and 404 for an unknown one, with the table unchanged. Otherwise it removes exactly the row with that id |
| `Rentals.Settle` | controllers/rentalController.js:158-176 | stored dues are `max(basicRent + carried - paid, 0)`; the status is Paid exactly when that shortfall is at most 0, that is exactly when the stored dues are 0 |
| `Rentals.Latest` | controllers/rentalController.js:146-149 | a row of the student with the greatest `(Year, RentPaidMonth)`, or none when the student has no rows |
| `Rentals.PreviousDues` | controllers/rentalController.js:151-155 | the carried dues: 0 without rows, else the dues of one of the student's latest rows |
| `Rentals.AppendedLatestIsCarried` | controllers/rentalController.js:146-155 | a row whose period is later than all the student's rows is the one the next create carries dues from |
| `Rentals.CreateOutcome` | controllers/rentalController.js:123-203 | answers 400 when any of stdID, month, year or paid amount is missing or falsy (so a numeric payment of 0 is refused), and 500 when the student is missing. Otherwise the new row has the request's fields, the student's basic rent as snapshot, `max(basic + carried - paid, 0)` dues and the derived status |
| `Rentals.CreateFieldsGiven` | controllers/rentalController.js:126 | create refuses the request unless stdID, month, year and paid amount are all truthy |
| `Rentals.UpdateFieldsGiven` | controllers/rentalController.js:215 | update refuses the request unless month, year and paid amount are all truthy |
| `Rentals.ClientStatusIgnored` | controllers/rentalController.js:124-176 | the status the client sends has no effect on the stored row |
| `Rentals.IndexOf` | controllers/rentalController.js:222-227 | the position of a row with the RentID, or none when no row has it |
| `Rentals.UpdateOutcome` | controllers/rentalController.js:208-269 | answers 400 for a missing rentID or field, 500 (`UnknownRecord`) for an unknown row, and exactly 500 (`UnknownStudent`) when the row exists but its student does not. Otherwise the same row keeps its id, student and basic-rent snapshot, and takes the new month, year, type and payment. Its dues are `max(currentBasicRent + ownOldDues - paid, 0)` and its status follows the same rule as create |
| `Rentals.RepeatedUpdateCompounds` | controllers/rentalController.js:245-248 | repeating an update on the same row charges the basic rent again on top of the dues the first update stored |
| `Rentals.IndexOfUnique` | controllers/rentalController.js:251-259 | rewriting a row in place with its own RentID keeps the lookup by that id at the same position |
| `Rentals.Without` | controllers/rentalController.js:314 | `DELETE ... WHERE RentID = ?` keeps exactly the rows with another RentID |
| `Rentals.WithoutIsRemoveAt` | controllers/rentalController.js:307-314 | when no other row has the deleted RentID (as unique ids guarantee) the delete removes exactly that row and keeps the others in order |
| `Rentals.OfStudent` | controllers/rentalController.js:67-70 | exactly the student's rows, each as many times as the table holds it, and no other row |
| `Rentals.Insert` | controllers/rentalController.js:68 | inserting a row into a period-ordered history keeps it ordered and adds exactly that row |
| `Rentals.SortByPeriod` | controllers/rentalController.js:68 | `ORDER BY Year, RentPaidMonth`: ascending by period and a permutation of the input |
| `Rentals.SortTotal` | controllers/rentalController.js:68-79 | ordering the history changes neither the sum of paid amounts nor the sum of dues |
| `Rentals.FindInPeriod` | controllers/rentalController.js:96-99 | the first history row in the given month and year, or none when no row falls in it |
| `Rentals.SumHistory` | controllers/rentalController.js:73-79 | the loop's totals are the sums of paid amounts and of dues over the history |
| `Rentals.RentLedger.GetAllRentals` | controllers/rentalController.js:10-41 | the rent listing is `Pagination.List` over the table |
| `Rentals.RentLedger.CreateRental` | controllers/rentalController.js:123-203 | on success exactly one row, `CreateOutcome`'s row with the next RentID, is appended and every existing row is unchanged; on failure nothing is written. RentIDs stay unique and stored dues stay non-negative |
| `Rentals.RentLedger.UpdateRental` | controllers/rentalController.js:208-295 | on success exactly the matching row is replaced by `UpdateOutcome`'s row; on failure the table is unchanged |
| `Rentals.RemovalKeepsLedger` | controllers/rentalController.js:314 | removing one row keeps every RentID in range and unique and every stored dues value non-negative |
| `Rentals.RentLedger.DeleteRental` | controllers/rentalController.js:300-330 | answers 404 for a missing rentID and 500 for an unknown one, with the table unchanged. Otherwise it removes exactly that row, and every other row keeps its stored dues |
| `Rentals.RentLedger.GetRentalById` | controllers/rentalController.js:46-118 | answers 400 for a missing rentID, 404 (`UnknownRecord`) for an unknown row, and exactly 404 (`UnknownStudent`) when the row exists but its student does not. Otherwise it returns the row and the student's history ascending by period as a permutation of the student's rows, with paid and dues totals over all of them. `currentMonthDues` is the dues of the first history row in the given month and year, else 0; `securityFee` falls back to 0 when falsy |
| `Rentals.NextPaymentCarriesOnlyRow` | controllers/rentalController.js:146-176 | when a student has exactly one earlier row, in any period including the requested one, create charges the full basic rent on top of that row's dues: dues and status are `Settle(basicRent, row.dues, paid)` |
| `Rentals.SamePeriodPaymentsChargeRentTwice` | controllers/rentalController.js:146-176 | a student with basic rent 5000 who pays 2000 and then 3000 for 3/2024 owes 3000 and then 5000, Partially Paid both times |
| `Dashboard.Income` | controllers/dashboardController.js:134-137 | `WHERE RentStatus IN (...)`: at most one entry per rent row; every row is kept when every status is counted |
| `Dashboard.IncomeMembers` | controllers/dashboardController.js:7-9 | the filtered entries are exactly the (period, paid amount) entries of the rows whose status is counted |
| `Dashboard.Spent` | controllers/dashboardController.js:17-18 | one entry per expense row |
| `Dashboard.SpentAt` | controllers/dashboardController.js:39-41 | the i-th entry is the i-th expense's amount in the expense's year and month |
| `Dashboard.TotalIncome` | controllers/dashboardController.js:5-12 | the total income is the sum over all rent rows of the payment of each Paid row and 0 for every other row |
| `Dashboard.Sum` | controllers/dashboardController.js:6-11 | `SUM(...) \|\| 0`: 0 for no rows, and never negative when no amount is |
| `Dashboard.SumAt` | controllers/dashboardController.js:25-31 | the `SUM` of one `GROUP BY` month: the whole sum when every row is in that month, and between 0 and the whole sum when no amount is negative |
| `Dashboard.TotalIncomeCountsOnlyPaid` | controllers/dashboardController.js:5-12 | a new Paid row adds its payment to total income; a Partially Paid row adds nothing |
| `Dashboard.ChartIncomeSplits` | controllers/dashboardController.js:133-138 | the chart income of a month is its Paid income plus the payments of its Partially Paid rows |
| `Dashboard.AppendSumAt` | controllers/dashboardController.js:134-137 | one more row adds its amount to its own month's group sum and to no other |
| `Dashboard.Greatest` | controllers/dashboardController.js:24-34 | the greatest period with rows below a bound, or none when no such period exists |
| `Dashboard.RecentTotals` | controllers/dashboardController.js:24-46 | current is the sum of the latest period with rows, previous the sum of the latest earlier period with rows; each is 0 when its group is missing |
| `Dashboard.NoGroupBetweenRecentPeriods` | controllers/dashboardController.js:28-31 | no period with rows lies strictly between the previous and the current group |
| `Dashboard.PercentageChange` | controllers/dashboardController.js:61-64 | 0 when both values are 0 and 100 when only the previous one is 0; otherwise the result times previous equals `(current - previous) * 100`, with no division by zero |
| `Dashboard.ChangeRoundTrip` | controllers/dashboardController.js:61-64 | applying the change to a non-zero previous value gives back the current value |
| `Dashboard.ChangeSign` | controllers/dashboardController.js:61-64 | against a positive previous value, the change is positive exactly when the value grew and 0 exactly when it stayed |
| `Dashboard.NameTotal` | controllers/dashboardController.js:51-53 | `SUM(expAmount) ... GROUP BY expName` for one name: 0 when no expense has the name |
| `Dashboard.SingleNameTotal` | controllers/dashboardController.js:51-53 | when every expense has the same name, that name's group holds the whole expense total |
| `Dashboard.BestFrom` | controllers/dashboardController.js:50-56 | an expense whose name has a total at least that of every later expense's name |
| `Dashboard.MostSpending` | controllers/dashboardController.js:49-58 | `{null, 0}` without expenses; otherwise an existing name whose summed amount is maximal, with that sum |
| `Dashboard.ChangesOf` | controllers/dashboardController.js:80-90 | the income, expense and savings changes are `PercentageChange` of current against previous; savings compare current income minus current expense with previous income minus previous expense |
| `Dashboard.DashboardData` | controllers/dashboardController.js:69-107 | totals over Paid rows and all expenses; `totalSavings = totalIncome - totalExpense`; the three changes are `ChangesOf` the current and previous groups of income and of expense, so the savings change compares `currentIncome - currentExpense` with `previousIncome - previousExpense` |
| `Dashboard.PreviousSixMonths` | controllers/dashboardController.js:113-124 | six calendar months in ascending order ending at the current month. Each month follows its predecessor, with December-to-January rollover, and month indices are consecutive |
| `Dashboard.FindGroup` | controllers/dashboardController.js:147-152 | a group that `find` returns is for the requested month, and `undefined` comes back exactly when no group has that month |
| `Dashboard.FindGroupIsFirst` | controllers/dashboardController.js:147-152 | the group `find` returns is the first with the month: every group before it has another month |
| `Dashboard.AddTo` | controllers/dashboardController.js:133-144 | adding a row to an existing period's group opens no group; a row of a new period opens one group for it at the end, holding the row's amount |
| `Dashboard.GroupByPeriod` | controllers/dashboardController.js:133-144 | `GROUP BY` yields at most as many groups as rows |
| `Dashboard.AddToPeriods` | controllers/dashboardController.js:133-144 | every group after adding a row is for the row's period or for a period that already had a group |
| `Dashboard.GroupsAreDistinct` | controllers/dashboardController.js:133-144 | `GROUP BY year, month` yields at most one group per period |
| `Dashboard.FindGroupIsSum` | controllers/dashboardController.js:133-153 | the group found for a month holds that month's sum, and a group exists exactly when some row falls in that month |
| `Dashboard.NoRowsNoSum` | controllers/dashboardController.js:154-155 | a month without rows sums to 0, the value the join defaults to |
| `Dashboard.Chart` | controllers/dashboardController.js:147-166 | one point per window month, in window order, with `savings = income - expense` |
| `Dashboard.MonthlyChartData` | controllers/dashboardController.js:129-172 | six consecutive calendar months (month in 1..12, with the year rolled back across January) ending at the current month; each point's income is the month's Paid and Partially Paid payments, its expense the month's expenses (0 when absent), its savings their difference |
| `Common.PrevThenNext` | controllers/dashboardController.js:121 | stepping back one month from a calendar month gives a calendar month one index earlier, with January going back to December of the year before, and stepping forward again returns the original |
| `Common.MonthIndexMonotone` | controllers/dashboardController.js:113-123 | on calendar months, ascending month index is ascending `(year, month)` |

## Left out

- String-typed request fields are not modelled. A urlencoded body delivers every field as a string, and the string `"0"` is truthy. Such a body gets past the required-field checks of `createRental` (controllers/rentalController.js:126), `updateRental` (controllers/rentalController.js:215) and `createStudent` (controllers/studentController.js:97), so a zero payment can be stored. The model's fields are numbers, whose 0 is falsy.
- Order of unsorted listings: `Pagination.PagesCoverTable` assumes `SELECT * ... LIMIT ? OFFSET ?` without `ORDER BY` returns rows in one fixed table order across pages (controllers/rentalController.js:25, controllers/studentController.js:25). SQL does not promise any order there, so "every row once, in order" holds only under that assumption.
- HTTP and Express plumbing are not modelled: routing, token validation, CORS, logging, response JSON shapes and messages. A failure is an abstract status class with a cause.
- The `affectedRows === 0` checks after insert, update and delete are not modelled. Without concurrent writers they cannot fail once the row has been read.
- Concurrency is not modelled. There are no transactions around read-then-write, and every handler runs atomically.
- Floating-point money and `parseFloat` are not modelled: money is an integer amount. The `toFixed(2)` formatting of the percentage changes is also left out.
- The database driver's type coercions are not modelled, for example a `SUM` returned as a decimal string, and `||` or `===` applied to it.
- SQL ties are unspecified. For the latest row of a student, the order of rows with the same `(Year, RentPaidMonth)` and the top expense name, the contracts say "one of the maximal rows" rather than which one.
- `Dashboard.PreviousSixMonths` uses integer month arithmetic. It does not model `Date.setMonth` overflowing days 29-31 into the next month, which can repeat a month in the window.
- The wall clock is not read: the current month and year are parameters.
- The image store is not modelled beyond its interface. Its data-URL parsing, temporary file and network upload are one function parameter that gives a URL or fails.
- Deleting a student's image files and the non-blocking activity log are left out: both are file-system and logging side effects.
- User registration and login are left out: they are password hashing and token signing by foreign libraries.
- The expense and room handlers are left out: they are stubs returning fixed messages, and the room listing is a single SELECT. Rooms and expenses appear only as read-only inputs.
- Invoice generation, the per-student rent details and the expense date-range report are named by the routes but defined in no controller. They are not part of this model.
- Foreign keys are not modelled. The rent rows of a deleted student stay in place, and later updates of them fail with "student not found".
