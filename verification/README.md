# Transaction dashboard: a Dafny model

This project models the sequential logic of a small transaction dashboard in Dafny.
The dashboard is a Next.js application over one `transaction` table.
Its logic splits into a server half and a client half.

On the server there are two routes:
- `GET /transaction` hands out the table newest first, 500 rows at a time. Each page continues strictly below the date named by a `cursor` parameter.
- `GET /transaction/daily-totals` validates a `month` and `year`. It then returns each day of that month with the day's sum of amounts (cents) and its number of transactions, keyed by `YYYY-MM-DD`.

On the client there are several pieces:
- An infinite-scroll list follows `nextCursor` until it is null.
- A paged list builds its query from a page number and a date range, filters rows inclusively by date, and clamps page numbers.
- A transaction page builds the query for page, range, merchant and amount filters, mirrors the filters into the address bar, and remembers the last page count.
- A date-range picker shows two months and fetches their daily totals. It prefetches neighbouring months and merges the two months' totals.
- A calendar heatmap colours each day's amount between the smallest and largest positive total on screen.
- An amount-range picker has two number inputs, a Clear button and a button label.

Everything is pure functions over immutable datatypes:
- The table is a sequence of `Transaction` records, or a store that fails.
- A timestamp is a record of year, month, day and millisecond of the day, with a linear `Rank` order.
- `toISOString` is modelled as exact 24-character text, with a proved parse round trip. This round trip is what carries the cursor from one page to the next.
- `parseInt` and `Number` are modelled on strings. `URLSearchParams` is modelled as a sequence of name/value pairs.
- The client components are small record-based state machines. A React state update, a click or a response is one function application.

The modules follow the source:

| module | file |
|---|---|
| `Timestamps`, `Ledger` | timestamp text and ordering; the table rows, SQL ordering and `WHERE date < x` |
| `CursorRoute` | `src/app/transaction/route.ts` |
| `InfiniteScroll`, `CursorSweep` | `src/app/components/TransactionList.tsx`, and that component composed with the cursor route |
| `DailyTotals` | `src/app/transaction/daily-totals/route.ts` |
| `PagedList` | `src/app/myComponents/TransactionList.tsx` |
| `StatusBadge`, `TransactionTable` | `src/app/myComponents/TransactionTable.tsx` (the same `capitalizeFirstLetter` is also in both `TransactionList.tsx` files) |
| `TransactionPage` | `src/app/myComponents/TransactionPage.tsx` |
| `DateRangePicker` | `src/app/myComponents/DateRangePicker.tsx` |
| `Heatmap` | `src/components/ui/calendar.tsx` |
| `AmountRangePicker` | `src/app/myComponents/AmountRangePicker.tsx` |
| `Optional`, `Digits`, `JsNumbers`, `SearchParams` | shared support: option values, decimal text, JavaScript number parsing and truthiness, query strings |

## Model

| member | source | states |
|---|---|---|
| CursorRoute.QueryFor | src/app/transaction/route.ts:11-19 | A missing or empty cursor selects the unfiltered query. A cursor that parses as a date selects "older than" that date, and the date's ISO text is the cursor. Any other cursor selects no query. |
| CursorRoute.Candidates | src/app/transaction/route.ts:16-28 | Rows admitted by the `WHERE` clause: all rows without a cursor; otherwise exactly the rows strictly older than the cursor, taken from the table. |
| CursorRoute.Respond | src/app/transaction/route.ts:15-40 | A page holds at most 500 rows, newest first, drawn from the table, and all strictly older than the cursor. `nextCursor` is null exactly when fewer than 500 rows came back, and is otherwise the last row's ISO date. |
| CursorRoute.PageWithinCandidates | src/app/transaction/route.ts:17-21 | The selected page respects the limit and the order, takes no row more often than the table holds it, and stays below the cursor. |
| CursorRoute.HandleGet | src/app/transaction/route.ts:9-47 | A failing store, or a cursor that is not a date, gives status 500 with "Internal Server Error" and no rows. Otherwise the answer is the page for the cursor's query. |
| CursorRoute.PageIsTop | src/app/transaction/route.ts:16-29 | The page is a top-k prefix. An admitted row left out is no newer than the page's last row, and that only happens on a full page. A short page holds every admitted row. |
| CursorRoute.EmptyCursorIsNoCursor | src/app/transaction/route.ts:11-29 | `cursor=` behaves exactly like no cursor: the newest 500 rows. |
| CursorRoute.CursorSelectsOlder | src/app/transaction/route.ts:16-19 | Sending back the ISO text of a timestamp yields a page whose rows are all strictly older than it. |
| CursorRoute.FollowingPageIsOlder | src/app/transaction/route.ts:19-35 | Following `nextCursor` gives a page whose every row is strictly older than every row of the previous page, so consecutive pages are disjoint. |
| CursorRoute.NextQueryShrinks | src/app/transaction/route.ts:19-35 | After a full page, the rows the next query admits number at least 500 fewer than the rows the current query admits. |
| Ledger.SortNewestFirst | src/app/transaction/route.ts:20 | `ORDER BY date DESC` gives a newest-first rearrangement of the same rows. |
| Ledger.OlderThan | src/app/transaction/route.ts:19 | `WHERE date < bound` keeps exactly the rows strictly older than the bound, drawn from the input. |
| Ledger.OlderThanTwice | src/app/transaction/route.ts:19 | Filtering below two bounds in turn is filtering below the stricter one. |
| Timestamps.ParseIsoOfToIso | src/app/transaction/route.ts:19-34 | Parsing `toISOString` text gives back the same timestamp, so a cursor names exactly the date it was made from. |
| Timestamps.ToIsoOfParseIso | src/app/transaction/route.ts:19-34 | Text that parses as an ISO timestamp is the ISO text of the parsed timestamp. |
| Timestamps.RankOrder | src/app/transaction/route.ts:19-20 | The numeric rank orders timestamps exactly as year, month, day and time of day do, and equal ranks mean equal timestamps. |
| InfiniteScroll.RequestParams | src/app/components/TransactionList.tsx:30-32 | The request carries `cursor` exactly when the state holds a non-empty cursor, and carries nothing else. |
| InfiniteScroll.OutcomeOf | src/app/components/TransactionList.tsx:35-41 | A page is received exactly when the route answered with one. A 500 answer is an error body: `fetch` resolves and `json` parses it, so the route never sends the client into the `catch`. |
| InfiniteScroll.Fetch | src/app/components/TransactionList.tsx:26-46 | While loading or after the end, the state is unchanged. A received page is appended to the list, its `nextCursor` becomes the cursor, and `hasMore` holds iff that cursor is present. An error body keeps the list, clears the cursor and `hasMore`, and marks the component crashed, because the queued list update throws at render. A failure in `fetch` or `json` keeps list, cursor and `hasMore`. A call that runs ends not loading. Every call keeps the old list as a prefix and never turns `hasMore` back on. |
| InfiniteScroll.Run | src/app/components/TransactionList.tsx:26-46 | Over any run of calls the list only grows, a finished state stays finished, and an idle state stays idle. |
| InfiniteScroll.FirstRequestHasNoCursor | src/app/components/TransactionList.tsx:19-32 | The first request has no cursor and is allowed. |
| InfiniteScroll.NextRequestFollowsCursor | src/app/components/TransactionList.tsx:30-40 | After a page with a cursor, the next request carries that cursor. After a page without one, no request is made. After an error body, no request is made and the component is crashed. After a failure in `fetch` or `json`, the same request is repeated. |
| InfiniteScroll.ServerErrorEndsScroll | src/app/components/TransactionList.tsx:35-44 | When the store fails, the route's 500 answer leaves the component crashed, with its list unchanged, no cursor, `hasMore` false and not loading. No later call changes that state. |
| InfiniteScroll.StoppedStaysStopped | src/app/components/TransactionList.tsx:27 | A state the guard turns away is left unchanged by any run of later calls. |
| InfiniteScroll.ReachableStates | src/app/components/TransactionList.tsx:19-46 | Every state reached from the first render is idle, and holds `hasMore` whenever it holds a cursor. |
| CursorSweep.StepKeepsInvariant | src/app/components/TransactionList.tsx:38-40 | One round trip keeps the sweep invariant. The list stays newest first and drawn from the table. While more may come, the next query's bound is at or below every row shown, and every row at or above that bound has its date shown. When done, every row's date is shown. |
| CursorSweep.SweepFrom | src/app/components/TransactionList.tsx:26-46 | Repeating requests until `hasMore` is false terminates, keeps the invariant and only extends the list. |
| CursorSweep.Sweep | src/app/components/TransactionList.tsx:38-40 | The list a full scroll ends with is newest first, takes no row more often than the table holds it, and includes a row of every date in the table. |
| CursorSweep.SweepHasNoDuplicates | src/app/components/TransactionList.tsx:38-40 | With unique ids in the table, the scrolled list has no id twice across page boundaries. |
| CursorSweep.SweepCoversDistinctDates | src/app/components/TransactionList.tsx:38-40 | When no two rows share a date, every row of the table is delivered. |
| CursorSweep.TiedRowsBeyondAPageAreLost | src/app/transaction/route.ts:19-35 | When more than 500 rows share one timestamp, the scroll ends after exactly 500 of them and loses the rest. |
| DailyTotals.MonthRows | src/app/transaction/daily-totals/route.ts:28-31 | The rows in the requested month and year, each as often as the table holds it, and no others. |
| DailyTotals.AddToGroups | src/app/transaction/daily-totals/route.ts:32-33 | Adding one row to ascending day groups keeps them ascending and non-empty. The first group is then either the row's day or the old first group. |
| DailyTotals.GroupByDay | src/app/transaction/daily-totals/route.ts:23-34 | `GROUP BY DATE(date) ORDER BY day ASC` gives ascending days with non-empty groups. Each day carries exactly that day's sum and count, per the reference `TallyOn`. All groups together sum to the rows' total cents and row count. |
| DailyTotals.FromEntries | src/app/transaction/daily-totals/route.ts:36-45 | `Object.fromEntries` has exactly the entries' keys. |
| DailyTotals.EntriesHaveDistinctKeys | src/app/transaction/daily-totals/route.ts:32-38 | Distinct days get distinct `YYYY-MM-DD` keys, so no entry overwrites another. |
| DailyTotals.HandleGet | src/app/transaction/daily-totals/route.ts:9-55 | Status 400 exactly when month or year is not a number, or the month is outside 1..12. Otherwise a failing store gives 500 and a reachable one a totals map. |
| DailyTotals.TotalsAreDailyTallies | src/app/transaction/daily-totals/route.ts:23-45 | A day's key is present iff the day lies in the requested month and year and has transactions. It then maps to that day's sum of amounts and count. |
| DailyTotals.KeysLieInMonth | src/app/transaction/daily-totals/route.ts:29-38 | Every key of the response is the key of a day of the requested month and year. |
| DailyTotals.MonthTotalsAddUp | src/app/transaction/daily-totals/route.ts:23-45 | The map has one key per group, each with its group's figures. The figures add up to the month's total cents and number of transactions. |
| DailyTotals.TrailingLettersAccepted | src/app/transaction/daily-totals/route.ts:12-15 | `month=7abc` is accepted as month 7, and any whole-number year is accepted. |
| DailyTotals.MissingMonthRejected | src/app/transaction/daily-totals/route.ts:12-20 | Without a `month` parameter the answer is 400 "Invalid month or year parameters". |
| Timestamps.DayKeyIsDateText | src/app/transaction/daily-totals/route.ts:38 | The key of a day is its `YYYY-MM-DD` text, and that text parses back to the day. |
| Timestamps.DayKeyInjective | src/app/transaction/daily-totals/route.ts:38 | Two days share a key iff they are the same day. |
| JsNumbers.ParseIntOfShowInt | src/app/transaction/daily-totals/route.ts:12-13 | `parseInt` reads back the decimal text of every whole number. |
| JsNumbers.ParseIntReadsLeadingNumber | src/app/transaction/daily-totals/route.ts:12-13 | `parseInt` reads the leading decimal number and ignores a non-digit tail, except `0x`, which starts a hex number. |
| JsNumbers.ParseIntSevenAbc | src/app/transaction/daily-totals/route.ts:12 | `parseInt("7abc")` is 7. |
| JsNumbers.ParseIntWithoutDigits | src/app/transaction/daily-totals/route.ts:12-15 | Text with no digit, the empty text of a missing parameter included, is NaN. |
| PagedList.PageQuery | src/app/myComponents/TransactionList.tsx:37-46 | The query always has `page`, has `from` and `to` exactly when the range has them, and has nothing else. |
| PagedList.PageQueryReadsBack | src/app/myComponents/TransactionList.tsx:37-46 | `parseInt` of the sent page text gives the page number. `from` and `to` are present exactly when the range has those bounds, and the ISO parser gives back each sent bound. |
| PagedList.InitialList | src/app/myComponents/TransactionList.tsx:22-30 | The first render has no rows, page 1, today's range, more rows expected and nothing loading. |
| PagedList.ChangeRange | src/app/myComponents/TransactionList.tsx:61-64 | A new range resets the page to 1 and empties the list; nothing else changes. |
| PagedList.Filter | src/app/myComponents/TransactionList.tsx:70-75 | The filter result is an order-preserving subsequence. Each row appears exactly as often as in the input when the filter keeps it, and not at all otherwise. It keeps every row when a bound is missing, and otherwise the rows with from <= date <= to. |
| PagedList.FilterWithoutBoundIsIdentity | src/app/myComponents/TransactionList.tsx:71-72 | With either bound missing the filter returns its input unchanged. |
| PagedList.FilterKeepsBoundaryRows | src/app/myComponents/TransactionList.tsx:73-74 | Both ends are inclusive: a row dated exactly at either bound is kept. |
| PagedList.Previous | src/app/myComponents/TransactionList.tsx:166 | Previous moves to the page before, or stays on page 1, and keeps rows, range, `hasMore`, loading flag and page count. |
| PagedList.Next | src/app/myComponents/TransactionList.tsx:182 | Next adds exactly one to the page and keeps rows, range, `hasMore`, loading flag and page count. |
| PagedList.ButtonsKeepPagePositive | src/app/myComponents/TransactionList.tsx:166-183 | From a positive page, Previous stays positive and when enabled goes back one. Next, when enabled, goes forward one. |
| TransactionTable.PreviousPage | src/app/myComponents/TransactionTable.tsx:166 | `max(1, page - 1)`: always at least 1, one back from any page above 1. |
| TransactionTable.NextPage | src/app/myComponents/TransactionTable.tsx:179 | `min(totalPages, page + 1)`: never above the page count, one on from any page below it. |
| TransactionTable.PageButtonsStayInRange | src/app/myComponents/TransactionTable.tsx:166-179 | From a page in 1..totalPages both buttons stay in 1..totalPages, and away from the ends each undoes the other. |
| TransactionTable.RowOf | src/app/myComponents/TransactionTable.tsx:110-156 | A drawn row shows its transaction's merchant, date and amount, the capitalised status and the status colour. |
| TransactionTable.BodyOf | src/app/myComponents/TransactionTable.tsx:97-110 | Exactly one case holds. Skeleton rows (20) show iff loading. Otherwise "No transactions found" shows iff the list is empty, and nothing shows without a list. In every remaining case there is one row per transaction, in order. |
| TransactionTable.PreviousOnFirstPageStays | src/app/myComponents/TransactionTable.tsx:166-168 | On page 1, Previous is marked disabled and, if clicked anyway, stays on page 1. |
| StatusBadge.StatusColour | src/app/myComponents/TransactionTable.tsx:146-150 | `completed` is green, `pending` yellow, and any other status red, each iff. |
| StatusBadge.CapitalizeFirstLetter | src/app/myComponents/TransactionTable.tsx:22-24 | The length is kept, everything after the first character is kept, the first character is not a lowercase letter afterwards, and "" stays "". |
| StatusBadge.CapitalizeIdempotent | src/app/myComponents/TransactionTable.tsx:22-24 | Capitalising twice is capitalising once. |
| StatusBadge.CapitalizeSameExactly | src/app/myComponents/TransactionTable.tsx:22-24 | Two labels capitalise alike iff they differ at most in the case of their first letter. |
| StatusBadge.KnownStatusLabels | src/app/myComponents/TransactionTable.tsx:153 | The three statuses the table colours differently display as "Completed", "Pending" and "Failed". |
| TransactionPage.CentsParam | src/app/myComponents/TransactionPage.tsx:39-44 | An amount bound is sent exactly when it is truthy, and its text reads back as 100 times the dollars. |
| TransactionPage.FetchParams | src/app/myComponents/TransactionPage.tsx:26-44 | Page and range are sent as the paged list sends them. `merchant` is sent iff the choice is not "all". Each amount bound is sent iff truthy, in cents. |
| TransactionPage.AmountsInCents | src/app/myComponents/TransactionPage.tsx:39-44 | For a truthy bound, `parseInt` of the sent text gives 100 times its value. A zero or unset bound is not sent. |
| TransactionPage.MerchantOptions | src/app/myComponents/TransactionPage.tsx:117-126 | The options are "All Merchants" first, then each listed merchant in order as its own value and label, 1 + n in all. |
| TransactionPage.RememberTotalPages | src/app/myComponents/TransactionPage.tsx:128-131 | The remembered page count is replaced only by a truthy `totalPages`. |
| TransactionPage.TotalPagesAfter | src/app/myComponents/TransactionPage.tsx:99-131 | Starting from 1, the remembered count is never 0. It stays 1 until a truthy count arrives, and stays at least 1 when no negative count arrives. |
| TransactionPage.UpdateUrlWithDateRange | src/app/myComponents/TransactionPage.tsx:137-153 | `from` and `to` are each set to the new bound or deleted, independently; every other parameter is kept. |
| TransactionPage.UpdateUrlWithMerchant | src/app/myComponents/TransactionPage.tsx:155-166 | `merchant` is set iff the choice is non-empty and not "all", and deleted otherwise; every other parameter is kept. |
| TransactionPage.DateRangeRoundTrip | src/app/myComponents/TransactionPage.tsx:137-153 | A range written to the address reads back as the same bounds, and a missing bound leaves no parameter. |
| TransactionPage.MerchantChoiceRoundTrip | src/app/myComponents/TransactionPage.tsx:155-166 | A merchant written to the address reads back as itself, and "all" reads back as no merchant. "all" is never sent, and any other choice is sent as is. |
| TransactionPage.InitialMerchant | src/app/myComponents/TransactionPage.tsx:100-103 | The starting merchant is the address's `merchant` value, or "" without one. |
| TransactionPage.MissingMerchantIsSentEmpty | src/app/myComponents/TransactionPage.tsx:36-38 | With no merchant in the address, the first query sends `merchant=` with empty text, not no merchant. |
| TransactionPage.ChangeDateRange | src/app/myComponents/TransactionPage.tsx:174-177 | A new range is held and written to the address, and the page goes back to 1. Merchant, amounts and page count are kept. |
| TransactionPage.ChangeMerchant | src/app/myComponents/TransactionPage.tsx:184-187 | A new merchant is held and written to the address, and the page goes back to 1. Range, amounts and page count are kept. |
| TransactionPage.ChangeAmounts | src/app/myComponents/TransactionPage.tsx:133-135 | New amount bounds are held and the page goes back to 1. The address and the other filters are kept. |
| TransactionPage.Receive | src/app/myComponents/TransactionPage.tsx:128-131 | A response updates only the remembered page count, as `RememberTotalPages` does. Page, address, range, merchant and amounts are kept. |
| TransactionPage.Run | src/app/myComponents/TransactionPage.tsx:98-204 | Under any events, with no negative page count received, page and remembered count stay at least 1. Without responses the count never changes. |
| TransactionPage.InitialPage | src/app/myComponents/TransactionPage.tsx:98-107 | The page starts on page 1 with count 1, no amount bounds and the address's merchant. |
| DateRangePicker.VisibleMonth | src/app/myComponents/DateRangePicker.tsx:105-106 | The month shown first is the visible date's own month and year. |
| DateRangePicker.NextMonth | src/app/myComponents/DateRangePicker.tsx:107-108 | The next month is in 1..12. It wraps to January of the next year exactly when the month is December, and otherwise keeps the year. |
| DateRangePicker.PrevMonth | src/app/myComponents/DateRangePicker.tsx:111-112 | The previous month is in 1..12. It wraps to December of the previous year exactly when the month is January, and otherwise keeps the year. |
| DateRangePicker.FutureMonth | src/app/myComponents/DateRangePicker.tsx:113-114 | The month after next is in 1..12. |
| DateRangePicker.MonthSteps | src/app/myComponents/DateRangePicker.tsx:105-114 | With index 12 * year + month - 1: next is one on, previous one back, and future two on. Previous and next undo each other. |
| DateRangePicker.MonthIndexInjective | src/app/myComponents/DateRangePicker.tsx:105-114 | Valid months are equal iff their indices are. |
| DateRangePicker.DecemberPrefetchRepeatsVisibleMonth | src/app/myComponents/DateRangePicker.tsx:137-153 | In December the "next year" key for the next month is the January already on screen, and the "previous year" key is the January two years before it, which the intended keys do not hold. January of the current year and January two years on are never prefetched, though the intended keys hold both. |
| DateRangePicker.IntendedPrefetchIsYearApart | src/app/myComponents/DateRangePicker.tsx:131-153 | With `nextYear` in the cross-year keys, each is a month on screen moved by exactly twelve months, and no prefetched key is on screen. |
| DateRangePicker.PrefetchOverlapsOnlyInDecember | src/app/myComponents/DateRangePicker.tsx:132-165 | A prefetched key as written coincides with a month on screen iff the current month is December. |
| DateRangePicker.TotalsData | src/app/myComponents/DateRangePicker.tsx:95-99 | A month's data is the totals map exactly when the route answered with one. |
| DateRangePicker.Merge | src/app/myComponents/DateRangePicker.tsx:177-181 | The merged map has every key of both months. On a shared key the next month's value wins. |
| DateRangePicker.MonthRequestValid | src/app/myComponents/DateRangePicker.tsx:95-97 | A month's request passes the route's validation and reads back the same month and year. |
| DateRangePicker.VisibleTotalsAreDailyTallies | src/app/myComponents/DateRangePicker.tsx:117-181 | The merged totals hold a day iff it lies in one of the two months on screen and has transactions, and then they hold that day's figures. |
| DateRangePicker.InitialPicker | src/app/myComponents/DateRangePicker.tsx:193 | The first month shown is the range's start if there is one, else today. |
| DateRangePicker.PresetClick | src/app/myComponents/DateRangePicker.tsx:221-226 | A preset's range is passed on unchanged. The view moves to the preset's end when it has one, and stays otherwise. |
| DateRangePicker.Select | src/app/myComponents/DateRangePicker.tsx:217-219 | A chosen range, possibly none, is passed on and the view stays. |
| DateRangePicker.PresetShowsItsEnd | src/app/myComponents/DateRangePicker.tsx:221-226 | After a preset with an end, the end's month is the first month shown. |
| Heatmap.PositiveTotals | src/components/ui/calendar.tsx:33-35 | The amounts considered are exactly the positive totals of the map. |
| Heatmap.LeastOf | src/components/ui/calendar.tsx:40 | A non-empty set of totals has a member no greater than any other. |
| Heatmap.GreatestOf | src/components/ui/calendar.tsx:41 | A non-empty set of totals has a member no smaller than any other. |
| Heatmap.MinMax | src/components/ui/calendar.tsx:32-43 | With no positive total the bounds are (0, 0), and only then. Otherwise 0 < min <= max, both are totals in the map, and every positive total lies between them. |
| Heatmap.AmountColour | src/components/ui/calendar.tsx:45-54 | Green when min equals max. Otherwise red iff the amount is at least 66% of the way from min to max, yellow iff between 33% and 66%, and green below. |
| Heatmap.ColourIsMonotone | src/components/ui/calendar.tsx:48-53 | The minimum is green and the maximum red, and a larger amount never takes a cooler colour. |
| Heatmap.KeyLabel | src/components/ui/calendar.tsx:72-88 | A day shows an amount label iff the map has its key with a non-zero total, coloured by that total against the map's bounds. |
| Heatmap.LabelledDays | src/components/ui/calendar.tsx:72-80 | On the picker's calendar, a day is labelled iff it lies in one of the two months on screen and its transactions exist and do not sum to zero. |
| Heatmap.LargestTotalIsHottest | src/components/ui/calendar.tsx:45-54 | The largest positive total is red unless every positive total is equal, in which case every label is green. |
| AmountRangePicker.InputValue | src/app/myComponents/AmountRangePicker.tsx:52-70 | An empty input is an undefined bound. Any other input is the number it reads as. |
| AmountRangePicker.InputText | src/app/myComponents/AmountRangePicker.tsx:111-131 | An input shows empty text exactly when its bound is not truthy. |
| AmountRangePicker.InputRoundTrip | src/app/myComponents/AmountRangePicker.tsx:52-131 | Reading back what an input shows gives its bound, except that a zero bound comes back undefined. |
| AmountRangePicker.EditMin | src/app/myComponents/AmountRangePicker.tsx:52-60 | Typing into the minimum sets the local minimum and leaves the maximum and the page's range alone. |
| AmountRangePicker.EditMax | src/app/myComponents/AmountRangePicker.tsx:62-70 | Typing into the maximum sets the local maximum and leaves the minimum and the page's range alone. |
| AmountRangePicker.Clear | src/app/myComponents/AmountRangePicker.tsx:72-74 | Clear sets both local bounds to undefined. |
| AmountRangePicker.Commit | src/app/myComponents/AmountRangePicker.tsx:44-50 | The hand-over gives the page the local range. |
| AmountRangePicker.EditsCommute | src/app/myComponents/AmountRangePicker.tsx:52-74 | Edits of the two inputs commute, and Clear forgets every edit before it. |
| AmountRangePicker.ButtonText | src/app/myComponents/AmountRangePicker.tsx:77-82 | With no truthy bound the label reads "Any amount", and only then. Only min gives "$min+", only max "Up to $max", and both "$min - $max". |
| AmountRangePicker.ZeroCountsDifferently | src/app/myComponents/AmountRangePicker.tsx:77-138 | A zero bound is unset for the label but set for the Clear button. |
| AmountRangePicker.ClearResets | src/app/myComponents/AmountRangePicker.tsx:72-138 | Clear and hand-over leave no bound: the label reads "Any amount" and the Clear button is gone. |
| AmountRangePicker.ButtonTextDeterminesBounds | src/app/myComponents/AmountRangePicker.tsx:77-82 | Two labels are equal only when the ranges have the same truthy bounds with the same values, so the label can be read back. |

## Findings

| source | as written | input that shows it | evidently intended | confidence | as-written member | corrected member |
|---|---|---|---|---|---|---|
| src/app/myComponents/DateRangePicker.tsx:137-153 | The "previous year" and "next year" prefetch keys pair `nextMonth` with `currentYear - 1` and `currentYear + 1` | Showing December 2024: the key (1, 2025) is the January already on screen, the key (1, 2023) is fetched though it is two years from that January, and January 2024 and January 2026 are never prefetched | Pair `nextMonth` with `nextYear - 1` and `nextYear + 1`, one year either side of each month on screen | medium, not executed | DateRangePicker.DecemberPrefetchRepeatsVisibleMonth | DateRangePicker.IntendedPrefetchIsYearApart |

`DateRangePicker.PrefetchKeys` models the keys as written, and `DateRangePicker.IntendedPrefetchKeys` models the corrected keys. `DateRangePicker.PrefetchOverlapsOnlyInDecember` shows December is the only month affected. Prefetching only fills a cache. In December the repeated key is the key of the month already being fetched for display, so the cache reuses that fetch. The effect, shown in December of year Y, is twofold. January of Y-1 is fetched although it lies two years from the January on screen. January of Y and January of Y+2 are never prefetched, although they lie one year either side of that January. Nothing else in the model depends on the prefetch keys.

## Left out

- Database connection, HTTP, `fetch` and JSON are not modelled. The store is a parameter that yields the table's rows or fails, and the routes return values.
- React scheduling is not modelled: effects, `useCallback` closures, `useMemo`, react-query caching, `staleTime`, `retry`, the `IntersectionObserver` and the JSX markup. Each user action or response is one state transition.
- InfiniteScroll.Fetch: `setIsLoading(true)` followed by the awaited request is one atomic step. Two overlapping calls from the same stale closure are not modelled.
- InfiniteScroll.Fetch: after an error body the crash is a flag on the state. What React and the framework show once the queued list update throws at render is not modelled.
- `src/app/myComponents/TransactionList.tsx` and `TransactionPage.tsx` read `data.pagination`, `allMerchants` and page-based results. No route in this repository produces that offset-mode answer, so the model covers their request side and local state but not the reading of such a response.
- The server-side merchant and amount filtering, the merchant list and an export sweep have no source in this repository and are not modelled.
- CursorRoute.QueryFor: `new Date(cursor)` accepts many date spellings. The model accepts only the canonical 24-character `toISOString` text, which is what the route itself hands out; any other cursor is treated as a failing query (500).
- Timestamps.ToIso: years are limited to 0..9999 (the four-digit form of `toISOString`), and months always have 31 days. No real calendar arithmetic is modelled.
- Time zones are not modelled. Day keys, `EXTRACT(MONTH/YEAR ...)` and `DATE(date)` all use the stored timestamp's own calendar fields, as in UTC. The calendar's local-midnight cell dates are taken as that day's midnight in the same calendar.
- Microsecond precision of stored timestamps is not modelled: a timestamp carries milliseconds, as `toISOString` does.
- Ledger.SortNewestFirst: SQL leaves the order of equal dates open. The model uses a stable sort, and no stated property depends on that choice.
- DailyTotals.HandleGet: `Number(day.total_amount)` is modelled as exact integer arithmetic. Sums beyond 2^53 are not rounded.
- JsNumbers.NumberOf: number inputs are limited to whole-number text. Fractional dollars, exponents and floating-point cents are not modelled.
- TransactionPage.CentsParam: dollars times 100 is exact integer arithmetic, so fractional dollars and float rounding in `toString` are not modelled.
- Heatmap.AmountColour: the 33% and 66% thresholds are compared exactly by cross-multiplication, where the source divides in floating point. For integer cents the float ratio is correctly rounded, and a ratio exactly at 33/100 or 66/100 rounds to the same double as `0.33` or `0.66`, so the two agree at the thresholds. They can differ only for a ratio within one unit in the last place below a threshold, which needs a range above roughly 1.8·10^14 cents.
- StatusBadge.UpperAscii: `toUpperCase` is modelled for the ASCII letters only. Other characters are left as they are.
- Debounce timing in the amount picker (`useDebounce`, 500 ms) is left out; the hand-over is a `Commit` step.
- The date-fns presets, `handlePreviousYear` and `handleNextYear`, `startOfDay`/`endOfDay`/`startOfMonth`/`endOfMonth` and parsing of the address's `from`/`to` are not modelled. Ranges are parameters.
- `formatCurrency`, `toFixed`, `toLocaleString` and all other display formatting are not modelled.
- Heatmap.KeyLabel: for a day whose total is 0, `dayData && dayData.totalAmount && (...)` evaluates to the number 0, which React renders as a stray "0" under the date. The model says only that no coloured label is shown; that stray text is not modelled.
- The combined `isLoading`/`isError` of the two month queries and the error logging are not modelled.
