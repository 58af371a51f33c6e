# DormEXPO expense core in Dafny

DormEXPO is an Odoo module that lets dormitory residents record their
expenses. This project models the expense model of
`models/dorm_expense.py`:

- the category registry (`dorm.expense.category`);
- the two field constraints on an expense (amount and date);
- `create`, with its owner default;
- the `unlink` guard;
- the five workflow buttons;
- `get_monthly_stats`;
- the computed fields: receipt preview, amount display, days ago, and the month / year / week labels.

Everything is pure functions over immutable data. The table is a
`Store`: its records in creation order, and the next value of the id
sequence, which only moves forward. A search filters the records and
sorts the result by the model's `_order`. Creation hands out increasing
ids, so the id stands for `create_date`. Amounts are integer cents. Dates are
valid (year, month, day) triples in years 1..9999. They are compared and
subtracted through Python's proleptic ordinal (`toordinal()`), and their
ISO calendar is computed as CPython computes it. Today's date, the acting
user and the selected month are parameters. The errors the model covers are
the messages of the two constraints (an amount not above zero, a date in
the future, a date more than a year old), the date-arithmetic overflow, the deletion
guard, the singleton check of the workflow buttons and the search bound
that names no date. Each is a value of the `Error` datatype, and
operations that can fail return `Result` or `Option`.

Modules:

- `Wrappers`: `Option` and `Result`.
- `Sorting`: an insertion sort by a total preorder, for `_order`.
- `Text`: decimal rendering and parsing, ASCII lower-casing, substring search.
- `Calendar`: Python's `date` ordering, ordinals, weekday and `isocalendar`.
- `Categories`: the category registry.
- `Expenses`: the record, the table, its constraints, `create` and `unlink`.
- `Workflow`: the state-writing actions.
- `MonthlyStats`: `get_monthly_stats`.
- `Derived`: the computed fields.

Behaviour of the code worth knowing before reading the contracts:

- **Workflow.** The buttons check nothing about the current state: each
  writes its target state from any state (lines 277-308), so mark-paid on
  a draft succeeds and a paid expense can be reset to draft. Every button
  except reset-to-draft then posts a chatter message (lines 280, 286, 296,
  307), and approve also reads the record's description (line 289). Both
  need the recordset to be exactly one record; on any other recordset
  Odoo's `ensure_one` raises, and the write is rolled back with the rest
  of the call. Reset-to-draft (lines 299-302) works on any recordset. See
  `Workflow.PerformOn`, `Workflow.LastActionWins` and
  `Workflow.ResetThenUnlink`.
- **Date check.** The old-date bound is computed as
  `today - timedelta(days=365)`. Python raises an overflow error when
  today is within the first 365 days of year 1. The model returns
  `DateArithmeticOverflow` there instead of inventing a bound.
- **Defaults.** A value set without `date` gets today (line 45), one
  without `user_id` gets the acting user (lines 243-245), and one without
  `state` gets draft.
- **Constraint order.** Odoo runs constraint methods in name order, each
  over the whole batch being created. So `_check_amount` reports the
  first bad amount in the batch before `_check_date` looks at any date.
  `Expenses.Create` states exactly which error a failing batch reports.

## Model

| member | source | states |
|---|---|---|
| Expenses.CheckAmount | models/dorm_expense.py:221-227 | The amount is accepted exactly when 0 < cents ≤ 99,999,999. It is "not positive" exactly when ≤ 0, and "too high" exactly when above 999,999.99. |
| Expenses.CheckDate | models/dorm_expense.py:229-237 | The date is accepted exactly when it is not after today and is no more than 365 days before it. It is "in the future" exactly when it is after today. It is "too old" exactly when it is earlier than today − 365 days. When today lies in the first 365 days of year 1 and the date is not in the future, computing today − 365 days fails, exactly then. |
| Expenses.DateWindowExact | models/dorm_expense.py:229-237 | For a today more than 365 days after 0001-01-01, the date check accepts exactly the closed window [today − 365, today], endpoints included. |
| Expenses.FirstAmountError | models/dorm_expense.py:221-227 | Over a batch, the amount constraint reports the error of the first record whose amount fails. It reports nothing exactly when every amount passes. |
| Expenses.FirstDateError | models/dorm_expense.py:229-237 | Over a batch, the date constraint reports the error of the first record whose date fails. It reports nothing exactly when every date passes. |
| Expenses.Create | models/dorm_expense.py:240-255 | Creation succeeds exactly when every record passes both constraints, and then adds the records as AddRecords describes. On failure it reports the first amount error if there is one, else the first date error. |
| Expenses.AddRecords | models/dorm_expense.py:240-247 | The old records are kept as a prefix and one record per value set follows, in order. Each has the supplied fields, today as date when no date is given, the acting user as owner when no owner is given, draft as state when no state is given, and is active. The ids are the sequence's next values, and the sequence advances past them. |
| Expenses.DateOf | models/dorm_expense.py:42-48 | A value set's date is the supplied one, or today when none is supplied. |
| Expenses.CreateKeepsValid | models/dorm_expense.py:240-255 | Creation keeps ids unique and below the sequence's next value. Each new record's id is above every earlier id. |
| Expenses.MaterializeAll | models/dorm_expense.py:242-247 | Each supplied value set becomes exactly one record, in order, with its fields and defaults as the source sets them, and ids counting up from the first given one. |
| Expenses.Remove | models/dorm_expense.py:274 | Deleting a batch keeps exactly the records outside it, each with its multiplicity. |
| Expenses.Unlink | models/dorm_expense.py:269-274 | Deletion fails exactly when some record of the batch is approved or paid, and then reports that error. Otherwise the remaining records are exactly those outside the batch, and the id sequence stays where it was. |
| Expenses.UnlinkRemovesExactlyBatch | models/dorm_expense.py:269-274 | After a successful deletion no record of the batch was protected, every record outside the batch survives with its multiplicity, and the store does not grow. |
| Expenses.UnlinkKeepsValid | models/dorm_expense.py:269-274 | Deletion keeps ids unique and below the sequence's next value. |
| Expenses.DeletedIdNotReused | models/dorm_expense.py:240-274 | Records created after a deletion get ids that differ from every id the table held before it, deleted ones included. |
| Workflow.Perform | models/dorm_expense.py:277-308 | Each action sets the state to its fixed target whatever the previous state was. All other fields are unchanged. |
| Workflow.WriteState | models/dorm_expense.py:279 | The state write sets the target state on exactly the records of the batch. It changes nothing else, and keeps the records' number and order. |
| Workflow.PerformOn | models/dorm_expense.py:277-308 | Pressing a button fails, with the singleton error, exactly when the button is not reset-to-draft and the batch is not exactly one record. On success the target state is set on exactly the records of the batch, nothing else changes, and the id sequence stays where it was. |
| Workflow.EveryButtonOnOneRecord | models/dorm_expense.py:277-308 | Every button succeeds on a single record, whatever its state, and writes its target state on it. |
| Workflow.BatchNeedsReset | models/dorm_expense.py:277-308 | On a batch of two records only reset-to-draft succeeds. |
| Workflow.LastActionWins | models/dorm_expense.py:277-308 | Any action is accepted in any state: two actions in a row leave the state the second one writes, and repeating an action changes nothing. |
| Workflow.PerformOnKeepsValid | models/dorm_expense.py:277-308 | Workflow actions keep ids unique and below the sequence's next value. |
| Workflow.ResetThenUnlink | models/dorm_expense.py:269-274 | Reset-to-draft succeeds on any batch, and the reset batch can always be deleted next. The deletion guard does not stop a user who resets first, because reset is unguarded (line 299-302). |
| MonthlyStats.Matching | models/dorm_expense.py:347-354 | The search result never holds more records than the store. |
| MonthlyStats.MatchingExactly | models/dorm_expense.py:347-354 | The search selects exactly the records of the given user, dated in the given year and month, not rejected and not archived, each as often as the store holds it. |
| MonthlyStats.Search | models/dorm_expense.py:31 | The search result holds exactly the records the domain selects, each as often as the store does. It is sorted by date, latest first, and on one date by creation, latest first. |
| MonthlyStats.SortSums | models/dorm_expense.py:356-360 | Sorting the records changes neither the total nor any category's sum. |
| MonthlyStats.SearchSums | models/dorm_expense.py:354-360 | The sorted search result has the same size, total, per-name sums and names as the selected records. |
| MonthlyStats.GroupFrom | models/dorm_expense.py:357-360 | The grouping loop keeps keys distinct. Each key's sum grows by the amounts of that category name, and the keys are exactly the old ones plus the names met. The sums grow in total by the amounts grouped. The old keys keep their positions, and the new keys follow in the order of their first record in the records grouped, as a dict keeps insertion order. |
| MonthlyStats.FirstIndex | models/dorm_expense.py:357-360 | The position of the first record with a given category name: that record has the name, no earlier one does, and the position is within the records exactly when the name occurs. |
| MonthlyStats.AddTo | models/dorm_expense.py:360 | One dict update: the named key's value grows by the amount and no other key changes. A missing key is appended, and existing keys keep their positions. |
| MonthlyStats.ArgMax | models/dorm_expense.py:367 | `max` over the dict items returns an item whose sum is at least every other sum, and every item before it has a strictly smaller sum, so it is the first maximum. |
| MonthlyStats.Average | models/dorm_expense.py:365 | The average times the count is the total when there are records, and the average is 0 when there are none. |
| MonthlyStats.TopCategory | models/dorm_expense.py:367 | No top category exactly for an empty dict. Otherwise the top is the key of the first bucket with the largest sum. |
| MonthlyStats.Summarise | models/dorm_expense.py:356-368 | Over the listed records: count is their number and total their amount sum. by_category has distinct keys, one per category name present, and per-name sums adding up to total. It is empty exactly when count is 0. Its keys come in the order of each name's first listed record. average and top_category are as above. |
| MonthlyStats.GetMonthlyStats | models/dorm_expense.py:336-368 | Over the records dated anywhere in the given year and month (the corrected month bound): count and total are the size and amount sum of the matching records. average is 0 when there are none, else total / count. by_category has distinct keys, holds per-name sums that add up to total, and has a key exactly for each category name present. Its keys come in the order in which the search result first names them. by_category is empty exactly when count is 0. top_category is None exactly when by_category is empty, else the first key with the largest sum. |
| MonthlyStats.TopCategoryEarliestMax | models/dorm_expense.py:354-367 | When a category name occurs, a top category exists and occurs too. Every name has a smaller sum than the top, or the same sum and a first record the search lists no earlier than the top's. |
| MonthlyStats.UncountedIgnored | models/dorm_expense.py:347-352 | A record of another user or another month, in state rejected, or archived changes none of the statistics, wherever it sits in the store. |
| MonthlyStats.GetMonthlyStatsAsWritten | models/dorm_expense.py:347-354 | As written, the call fails exactly when the month is not 1 to 12 or has fewer than 31 days, because the upper bound "YYYY-MM-31" then names no date. Otherwise it returns the statistics of the month. |
| MonthlyStats.FebruaryStatsFail | models/dorm_expense.py:350 | As written, asking for February or April of any year fails. |
| MonthlyStats.MonthBoundsMatchMonth | models/dorm_expense.py:349-350 | Bounding the date by the month's first and last day selects exactly the dates of that year and month, the filter the corrected statistics use. |
| MonthlyStats.RejectLeavesStats | models/dorm_expense.py:293-297 | A successful reject was pressed on exactly one record. It removes exactly that record from the month's matching records and keeps the others in order. |
| MonthlyStats.MarchExample | models/dorm_expense.py:356-367 | Expenses 1 and 2 of 10.00 and 20.00 on food and expense 3 of 5.00 on transport, on one March day, give total 35.00 and count 3. The buckets are transport 5.00 then food 30.00, because the latest-created record comes first. The top category is food. |
| Categories.NewCategory | models/dorm_expense.py:13-18 | A category created with only its required fields has sequence 10 and is active. |
| Categories.AddCategory | models/dorm_expense.py:21-23 | Adding a category succeeds exactly when its code is not yet taken, and then appends it. Otherwise it reports the duplicate code. |
| Categories.AddKeepsCodesUnique | models/dorm_expense.py:21-23 | Successful additions keep every code unique. |
| Sorting.Sort | models/dorm_expense.py:11 | A listing sorted by a total order is ordered and is a permutation of its input. |
| Categories.ListActive | models/dorm_expense.py:11 | The default listing is ordered by (sequence, name) and holds exactly the active categories, each as often as the registry does. |
| Categories.OrderLeTotal | models/dorm_expense.py:11 | The (sequence, name) order compares any two categories. |
| Calendar.OrdinalOrder | models/dorm_expense.py:232-236 | Comparing dates as Python does agrees with comparing their day numbers, in both directions. Equal dates have equal day numbers and conversely. |
| Calendar.IsoCalendar | models/dorm_expense.py:184 | `isocalendar()` gives week 1..53 and weekday 1..7. The triple names exactly the day it came from. |
| Calendar.IsoCalendarYear | models/dorm_expense.py:184 | The ISO weekday is the weekday. The ISO year is the calendar year or a neighbour. It is the previous year exactly before this year's week-1 Monday, and the next year exactly from the next year's week-1 Monday on. |
| Calendar.SameIsoWeek | models/dorm_expense.py:184 | Two dates in the same ISO week of the same ISO year are at most six days apart. |
| Derived.ReceiptPreview | models/dorm_expense.py:190-200 | The preview is set exactly when receipt and filename are both set and the lower-cased filename contains .jpg, .jpeg, .png or .gif anywhere. When set, it is the receipt itself. |
| Derived.PreviewIgnoresCase | models/dorm_expense.py:195 | The preview does not depend on the letter case of the filename. |
| Derived.PreviewIsSubstringTest | models/dorm_expense.py:195 | "scan.png.pdf" and "SCAN.JPG" get a preview. "scan.pdf" does not. |
| Derived.AmountDisplay | models/dorm_expense.py:202-208 | With a non-zero amount and a currency, the display is the symbol followed by the `:.2f` text of the amount, which reads back as the amount. Otherwise it is "$0.00". |
| Derived.FormatAmount | models/dorm_expense.py:206 | `:.2f` of a cent amount: a minus sign exactly for negative amounts, then units with no leading zero (except "0" itself), a point and two digits. |
| Derived.FormatAmountRoundTrip | models/dorm_expense.py:206 | `:.2f` of an amount in cents reads back as exactly that amount, negative amounts included. |
| Derived.DaysAgo | models/dorm_expense.py:210-218 | days_ago plus the date's day number is today's day number. It is 0 when no date is set. |
| Derived.DaysAgoOfCheckedDate | models/dorm_expense.py:210-237 | For a date that passed the date check, days_ago is between 0 and 365, and 0 exactly on the expense day. |
| Derived.MonthLabel | models/dorm_expense.py:182 | The month label is set exactly when a date is. It is the month's name, a space, and digits without a leading zero that read back as the year. |
| Derived.MonthLabelIdentifiesMonth | models/dorm_expense.py:182 | Two dates get the same month label exactly when they are in the same month of the same year. |
| Derived.YearLabel | models/dorm_expense.py:183 | The year label is all digits, has no leading zero and reads back as the year, so it is `str()` of the year (Text.CanonicalIsDecimal). |
| Derived.WeekLabelAsWritten | models/dorm_expense.py:184 | As written, the week label is set exactly when a date is, and reads back as "Week w, y" with w the ISO week number and y the calendar year, both without a leading zero. |
| Derived.WeekLabelAsWrittenIdentifies | models/dorm_expense.py:184 | As written, two dates get the same week label exactly when they have the same ISO week number and the same calendar year. |
| Derived.WeekLabelAsWrittenCollides | models/dorm_expense.py:184 | As written, 2024-12-30 (ISO week 1 of 2025) and 2024-01-01 (ISO week 1 of 2024), 364 days apart, get the same label "Week 1, 2024". |
| Derived.WeekLabel | models/dorm_expense.py:184 | The corrected label is set exactly when a date is. It reads "Week w, y" with w the ISO week, 1 to 53, and y the ISO year, at least 1, both without a leading zero. |
| Derived.WeekLabelNamesOneWeek | models/dorm_expense.py:184 | With the ISO year in the label, dates with equal labels are in the same ISO week of the same ISO year, at most six days apart. |
| Derived.WeekLabelSeparatesIsoYears | models/dorm_expense.py:184 | The corrected label differs for dates in different ISO years. |
| Derived.WeekLabelSeparatesNewYear | models/dorm_expense.py:184 | The corrected label tells 2024-12-30 and 2024-01-01 apart. |
| Derived.ComputePeriod | models/dorm_expense.py:178-188 | All three labels are unset exactly when there is no date. Otherwise the year label is the year label above, with no leading zero and reading back as the year; the month label is the month label above, and the week label is the as-written one, with the calendar year. |
| Derived.PeriodOfDec30 | models/dorm_expense.py:184 | The computed week label of 2024-12-30 is "Week 1, 2024". |
| Derived.PeriodExample | models/dorm_expense.py:182-183 | 2024-06-15 is labelled "June 2024" and "2024". |
| Text.DecimalRoundTrip | models/dorm_expense.py:183 | `str()` of a natural number reads back as that number. |
| Text.CanonicalIsDecimal | models/dorm_expense.py:183 | A non-empty digit string with no leading zero is `str()` of the number it reads as, so the label contracts above fix the text exactly. |
| Text.Contains | models/dorm_expense.py:195 | The `in` test on strings holds exactly when the pattern occurs at some position. |

## Left out

- Persistence, `super().create / write / unlink`, search-domain evaluation and SQL enforcement of `code_unique` are Odoo framework code and are not part of this model. The table is a sequence of records with an id counter, a search is a filter over it, and the unique-code constraint is a check on insertion.
- `write` (lines 257-267) is left out. Apart from posting a message it only delegates to the framework. The workflow writes are modelled as state updates.
- `message_post`, `notify_success` and the mail and activity mixins are messaging side effects and are left out. The model keeps only their effect on which recordsets a button accepts. `notify_success` is not defined by Odoo's base module, the only dependency the manifest declares. Approve succeeding on one record assumes an add-on that provides `res.users.notify_success`; without one, line 288 raises.
- `action_view_receipt` and `action_duplicate` are left out: they build UI action dictionaries.
- The report adapter `_get_report_values` is left out: it passes records through to the report engine.
- `self.env.user`, `self.env.company`, the currency default, `fields.Date.context_today` and `datetime.now()` are environment reads. The acting user and today's date are parameters. `get_monthly_stats` receives the user, month and year after its defaults have been applied.
- For every month shorter than 31 days the source's search fails, because its upper bound "YYYY-MM-31" names no date; `GetMonthlyStats` returns that month's statistics instead, and `GetMonthlyStatsAsWritten` models the failure (see Findings). Years below 1000, whose bound strings are not four-digit years, are left out.
- Records created in the same transaction share `create_date`, whether they come from one `create` call or from several, and the database may list those of one date in any order. The model lists the larger id first, so for such records the key order of `by_category` and the tie-break of `top_category` are the model's choice, not a promise of the source.
- Records are created active: a value set that archives its record at creation is not modelled.
- Ids that a batch names but the table does not hold are ignored. The framework would fail on such ids when it reads the missing records.
- `Monetary` amounts are floats in the source. They are integer cents here, so float rounding of sums and of `:.2f` is not modelled. The average is an exact `real`.
- `strftime('%B')` depends on the locale; the C-locale English month names are used.
- `lower()` is modelled on ASCII letters only; Unicode case mapping is left out.
- Category ordering compares names by character code. Database collation and translated names are left out.
- `ondelete='restrict'` on the category link is left out: the model never deletes categories.
- Fields without behaviour are not modelled: notes, tags, location, payment method, sharing, company and colour/icon.
- `models/expense.py` and `__manifest__.py` hold only declarations and metadata, so they are not part of this model.

## Findings

| source | as written | input that shows it | evidently intended | confidence | as-written member | corrected member |
|---|---|---|---|---|---|---|
| models/dorm_expense.py:184 | The week label is the ISO week number (`isocalendar()[1]`) followed by the calendar year (`date.year`). | 2024-12-30 is in ISO week 1 of 2025 but is labelled "Week 1, 2024". That is the label of 2024-01-01, 364 days earlier. | Pair the ISO week with the ISO year (`isocalendar()[0]`), so that a label names one Monday-to-Sunday week. | medium, not executed | Derived.WeekLabelAsWrittenCollides | Derived.WeekLabel, Derived.WeekLabelNamesOneWeek |
| models/dorm_expense.py:350 | The upper date bound of the search is the string "YYYY-MM-31" for every month. | month 2, year 2024: "2024-02-31" names no date, so the search and the whole call fail. | Bound the search by the month's last day, so that every month's statistics can be asked for. | medium, not executed | MonthlyStats.GetMonthlyStatsAsWritten | MonthlyStats.GetMonthlyStats, MonthlyStats.MonthBoundsMatchMonth |
