# StockIt, modelled in Dafny

StockIt is a warehouse server over SQLite. This project models the four parts of it that carry
real obligations and proves what they promise, for all inputs, runs and interleavings. Exact
rational numbers stand for the floating-point columns and unbounded integers for `int64`.

- **Purchase-order workflow** (`Tables`, `Pricing`, `Requests`, `Effects`, `Store`, `History`,
  `Decisions`, `Receipts`, `Interleaving`, `Migration`, `Import`). Orders, lines, users with signing
  limits and the status history are maps of rows. `Requests` says what one call does as a whole;
  the class `Store.Store` performs it statement by statement on mutable tables and is proved to have
  the same effect and answer. `Effects` spells out, column by column, what a call leaves behind.
  `Interleaving` lets the statements of many calls run in any order and restarts the server at any
  time; the single connection makes statements and transactions atomic.
- **List queries and paging** (`Like`, `Sql`, `Query`, `Listing`, `Paging`). A filter record is
  compiled to the text of a query and its arguments; a reader of that text and three-valued logic say
  what it means. `Listing` is the endpoint in front of it, `Paging` the client that reads whole tables.
- **Cash forecast and calendar** (`Calendar`, `Recurring`, `Obligations`, `Forecast`, `Horizon`,
  `Cashflow`, `Amounts`). Dates are the full-date form of section 5.6 of RFC 3339 with the month
  lengths of its section 5.7; years are four digits where a date comes in as text. `Amounts` says
  what one row more changes in the report.
- **Time-driven tables** (`Sessions`, `Limiter`). Lazily pruned maps against specifications that
  look only at the past calls.

`Text`, `Sorting` and `Wrappers` hold strings, sorting and result types. I/O, clocks, new tokens
and the verdicts of constraints on tables outside the model are parameters (`now`, `at`, `token`,
`refused`). `dafny verify dfyconfig.toml` checks everything.

## Where the code and its promises differ

- README.md:44 speaks of five sessions per user; internal/auth/session.go:43 counts the sessions of
  all users together. The model follows the code: `Sessions.OneUserFillsTheTable` shows a user without
  a session kept out, `Sessions.PerUserExactly` says exactly when the promise is met.
- A status change outside a transaction is committed before its history row. When the acting user's
  account has been deleted, the row's foreign key refuses it and the change stays unrecorded.
  `History.OrderKeptExactly` and `History.RunKeepsHistory` give the exact condition, order by order,
  `History.DeletedActorLosesHistory` what happens without it.
- For the same reason a decided order can be reopened and decided again with nothing in between in
  its history (`Decisions.DeletedActorHidesReopening`). `Decisions.UndecidedRowIff` gives the exact
  condition, per order; `Decisions.NoDoubleDecision` applies it.
- For the same reason the row at which a CSV import stops can stay in the table uncounted
  (`Import.StoppingRowCanStay`). `Import.FailedInsertChangesNothing` and `Import.CleanStopExactly`
  say exactly when, and so does `Store.Store.ImportCSV`.
- A line that moves to another order syncs only the order it joins. `Receipts.MovedLineSyncsExactly`
  says exactly when the order it left is still in sync, `Receipts.MovedLineLeavesStale` shows one
  that is not. The run properties leave out only orders a line left after their last sync.
- Startup migration changes status and payment tag without a history row, so the history properties
  are about runs between two starts; the signing-limit property spans restarts. SQL's TRIM removes
  spaces only, so a payment tag of tabs is not defaulted.
- The login limiter and the session manager are right for a clock that does not go back, and the
  contracts ask for that; `Sessions.LiveIffUnbroken` also takes new tokens to be new.

## Model

| member | source | states |
|---|---|---|
| Interleaving.SigningLimitSafety | internal/store/approvals.go:126-185 | main theorem: in every state of every interleaving of single statements of any calls, server restarts included, an approved or rejected order was decided by one transaction; that call had read its user's limit, found it positive and at least the total then recorded, and the order has kept that decision and that total ever since, whatever later line edits did |
| Interleaving.LimitWasRead | internal/store/approvals.go:127-132 | the limit a decision uses is the one its user held at an earlier moment of that same call, with nothing but waiting in between |
| Interleaving.StepCarries | internal/store/sqlite.go:304-317 | an order that is approved or rejected after a statement was so before it, with the same status and total, unless that statement is a deciding transaction; this is where the guards of the four write paths meet |
| Interleaving.AloneIsApply | internal/store/sqlite.go:261-398 | a call whose statements run without interruption has exactly the effect of the atomic call model, so the step model and the call model agree |
| Interleaving.NextCarries | internal/store/sqlite.go:75 | the same for every step of the system, arrivals and restarts included: a decision in force after a step that does not decide was in force before it |
| Interleaving.RestartCarries | internal/store/sqlite.go:1126-1152 | startup migration neither creates nor removes a decision, and leaves its status and the recorded total alone |
| Decisions.DecisionIff | internal/store/approvals.go:138-156 | a decision succeeds if and only if the order exists, is draft, pending or blank, has a line, and its exact price is below the decider's positive limit plus half a minor unit |
| Decisions.SubmissionIff | internal/store/approvals.go:89-100 | a submission succeeds if and only if the order exists, is draft or blank, has a line, and the acting user can be recorded |
| Decisions.NoDoubleDecision | internal/store/approvals.go:138-144 | between two successful decisions on one order its history gains a row whose status is draft, pending_approval or blank if and only if a call in between writes one; recording the changes of that one order is enough |
| Decisions.UndecidedRowIff | internal/store/po_status.go:52-78 | exact condition: a run leaves such a row for an order if and only if one of its calls moves the order to such a status and can record it; the histories before and the other orders do not matter |
| Decisions.ReopeningShown | internal/store/po_status.go:52-65 | an order that goes back to an undecided status does so in a call that writes it down, if the changes of that order could be recorded |
| Decisions.DeletedActorHidesReopening | internal/store/po_status.go:57-63 | counterexample, from a state reached by calls: a user whose account has just been deleted reopens a decided order unrecorded, and it is decided a second time with no row in between |
| Decisions.DecisionKeepsHistory | internal/store/approvals.go:162-176 | a decision and its history row stand or fall together for every order, whoever the acting user is |
| Decisions.SettledDecision | internal/store/approvals.go:158-166 | a successful decision takes an undecided order to approved or rejected |
| Decisions.FailedCallsChangeNothing | internal/store/approvals.go:82-176 | a failed call leaves the whole store unchanged if and only if it is a submission or decision, its actor is on record, or it was stopped before writing; equivalently, if it is no auto-committed write whose history row was refused |
| History.HistoryReplays | internal/store/po_status.go:52-78 | in every state reached from the empty database, an order's rows chain from the blank status to its current status and payment tag, and an order without rows shows neither, provided the changes of that order could be recorded |
| History.OrderKeptExactly | internal/store/po_status.go:53-64 | exact condition per order: one call keeps the history of an order replaying if and only if its acting user is on record or it changes nothing the history of that order could show |
| History.HistoryKeptExactly | internal/store/po_status.go:53-64 | the same for all orders at once: if and only if the acting user is on record or no order's visible part changes |
| History.RunKeepsHistory | internal/store/sqlite.go:323-375 | exact condition over runs, per order: its history replays after every call if and only if each call that changes what it shows comes from a user on record or from no user |
| History.LinkedStays | internal/store/sqlite.go:920-930 | every history row belongs to an existing order and ids stay below the counter, after every call, recorded or not |
| History.DeletedActorLosesHistory | internal/store/po_status.go:57-63 | counterexample, from a state reached by calls: a user's account is deleted, a status change under it is refused its row by the foreign key, and the change stays without a row |
| History.OneRowPerChange | internal/store/po_status.go:52-56 | a call adds exactly one row for an order whose status or payment tag it changed and none for an order it left alone |
| History.RowsStep | internal/store/po_status.go:52-78 | the rows of a surviving order grow by exactly the planned row when the call moves that order and can record it, and stay as they are otherwise |
| History.StepKeepsRows | internal/store/sqlite.go:684 | rows of a surviving order are only appended to, and order ids are never reused |
| History.RunKeepsRows | internal/store/sqlite.go:920-930 | the history is append-only over every run |
| History.RowsWithout | internal/store/sqlite.go:928-929 | deleting one order leaves the rows of every other order in place and in order |
| History.PlanShape | internal/store/po_status.go:85-126 | every call ends in nothing, a write away from surviving orders' statuses, or one order move whose row starts at the status found and ends at the status left |
| Receipts.ReceiptStatusFollowsLines | internal/store/po_status.go:131-161 | after any line writes, moves between orders included, an order in fulfilment with a positive received total is received when ordered > 0 and received >= ordered, otherwise partially received, unless a line left it after its last sync; an order outside fulfilment is never touched |
| Receipts.ReceiptStatusPathIndependent | internal/store/po_status.go:140-152 | two histories of line writes that end in the same lines end in the same status, for an order no line left after its last sync |
| Receipts.LineRun | internal/store/sqlite.go:323-331 | over every run of line writes fulfilment is kept, and an order ends in sync when it was synced last or started so and lost no line |
| Receipts.SyncTwice | internal/store/po_status.go:153-155 | a second sync changes nothing, even when the first could not record its change |
| Receipts.LineStep | internal/store/sqlite.go:323-331 | a line write changes no order but the one it syncs, and the ordered and received sums of no other order but the one a line leaves |
| Receipts.MovedLineSyncsExactly | internal/store/sqlite.go:327-328 | exact condition: when a line moves away, its old order keeps its status, and is in sync if and only if that status already suits the remaining lines |
| Receipts.MovedLineLeavesStale | internal/store/po_status.go:165-175 | counterexample, from a state reached by calls: an order left complete by a moved line stays partially received |
| Pricing.LineOrderIrrelevant | internal/store/approvals.go:64-66 | the total is the same along every order of reading the lines |
| Pricing.TotalWithinHalf | internal/store/approvals.go:76 | the recorded total is within half a minor unit of 100 times the sum of quantity times price |
| Pricing.LimitIsExact | internal/store/approvals.go:150-156 | a limit covers the recorded total if and only if the exact price is below the limit plus one half |
| Pricing.SumTake | internal/store/po_status.go:141-143 | the SUM of a table is any row's share plus the SUM of the rest |
| Requests.ApprovalLimit | internal/store/approvals.go:43-56 | a limit is positive exactly when the user's row holds a positive one, which it then is; no row, NULL and negative limits give zero |
| Requests.Without | internal/store/sqlite.go:928-929 | the cascade of a deleted order removes all of its rows and keeps every other row as often as it was there |
| Tables.NullableText | internal/store/approvals.go:208-213 | blank text becomes NULL and nothing else does; other text is stored as it is |
| Effects.SubmitLaw | internal/store/approvals.go:82-121 | after a successful submission the order stands at pending_approval with the rounded sum of 100 times quantity times price as total and its own or least line currency, both also in the reply; document number, payment tag and remaining columns are as before, one row from the old status to pending_approval is appended in the acting user's name, and nothing else in the store changes |
| Effects.SubmitRefusals | internal/store/approvals.go:89-113 | a submission is refused for a missing order, one past draft or one without lines, fails for an actor not on record, and in both cases leaves the store unchanged |
| Effects.DecideLaw | internal/store/approvals.go:126-185 | after a successful decision the order stands at approved or rejected as asked, priced like a submission, within the limit the reply names; one row in the decider's name carries the note, or a text with the limit for a blank one, and nothing else changes |
| Effects.DecideRefusals | internal/store/approvals.go:138-156 | a workflow refusal comes exactly for an order that is missing, not draft, pending or blank, or without lines; a forbidden one exactly for a decidable order whose exact price is not below the user's positive limit plus one half; every refusal changes nothing |
| Effects.OneLineDecision | internal/store/approvals.go:64-66 | a draft of one line is decided if and only if 100 times its quantity times its price is below the limit plus one half |
| Effects.SetStatusLaw | internal/store/po_status.go:85-126 | refused exactly for two blanks, a status outside the eleven free ones, a payment tag outside the four known ones or a missing order; otherwise a given status or tag replaces the stored one, a blank leaves it, no other column changes, and one row is written exactly when something moved |
| Effects.InsertOrderLaw | internal/store/sqlite.go:261-317 | a new order is refused for a decided status, a missing document number or a constraint; otherwise its row holds each supplied value, NULL elsewhere and a NULL total, and its first history row is written exactly when it shows a status or tag |
| Effects.UpdateOrderLaw | internal/store/sqlite.go:333-374 | each supplied column of an order holds its value, an explicit NULL is NULL, an absent column and the recorded total keep what they held, other rows are untouched, and one row is written exactly when status or tag moved; every refusal and its cause is listed |
| Effects.InsertLineLaw | internal/store/sqlite.go:261-302 | a new line of an existing order holds each supplied value and NULL elsewhere; apart from the derived status of its order nothing else changes |
| Effects.UpdateLineLaw | internal/store/sqlite.go:333-375 | each supplied column of a line holds its value, NULL or what it held; apart from the derived status of the order it then belongs to nothing else changes |
| Effects.DeleteLineLaw | internal/store/sqlite.go:377-398 | a deleted line leaves only itself and syncs the order it belonged to |
| Effects.InsertUserLaw | internal/store/sqlite.go:261-302 | a new user holds the supplied limit and columns and NULL elsewhere; nothing else changes |
| Effects.UpdateUserLaw | internal/store/sqlite.go:333-375 | a supplied limit is stored, a NULL clears it, an absent one is kept; nothing else changes |
| Effects.DeleteUserLaw | internal/store/sqlite.go:377-398 | a user is deleted unless a history row names it; nothing else changes |
| Effects.DeleteOrderLaw | internal/store/sqlite.go:377-398 | a deleted order takes exactly its own lines and history rows with it |
| Pricing.PriceLaw | internal/store/approvals.go:64-66 | a line of the order adds exactly 100 times its quantity times its price, NULL counting as zero; a line of another order adds nothing |
| Pricing.PriceOfNothing | internal/store/approvals.go:64-66 | an order without lines costs nothing |
| Pricing.RoundLaw | internal/store/approvals.go:76 | rounding goes to the nearest integer and away from zero in the middle |
| Pricing.CurrencyLaw | internal/store/approvals.go:60-77 | the currency is the order's own unless blank, otherwise the least one among its lines, and none only when no line has one |
| Pricing.ReceiptLaw | internal/store/po_status.go:140-152 | a line of the order adds what it orders and what it has received, NULL counting as zero |
| Migration.MigrationLaw | internal/store/sqlite.go:1126-1152 | the new status of each old one, paid as the tag of orders that stood at paid, unpaid for a missing or blank tag, every other column as before |
| Store.Store.Insert | internal/store/sqlite.go:261-302 | the statements of an insert have exactly the effect and answer of the atomic call |
| Store.Store.InsertOrder | internal/store/sqlite.go:304-317 | the decided statuses are refused; otherwise the order and its first history row go in |
| Store.Store.InsertLine | internal/store/sqlite.go:293-301 | a new line is stored and its order's receipt status derived |
| Store.Store.Update | internal/store/sqlite.go:333-375 | the statements of an update have exactly the effect and answer of the atomic call, missing rows and empty updates included |
| Store.Store.UpdateOrder | internal/store/sqlite.go:355-374 | snapshot, update and history row equal the planned move of the order |
| Store.Store.UpdateLine | internal/store/sqlite.go:369-374 | an edited line is stored and the order it now belongs to is synced |
| Store.Store.Delete | internal/store/sqlite.go:377-398 | the statements of a delete have exactly the effect and answer of the atomic call, cascades and foreign keys included |
| Store.Store.DeleteRow | internal/store/sqlite.go:388-396 | one DELETE with its cascades to lines and history and its refusals |
| Store.Store.SetPOStatus | internal/store/po_status.go:85-126 | trimming, vocabulary checks, update and history row equal the atomic call |
| Store.Store.AssignStatus | internal/store/po_status.go:107-124 | an empty value leaves its field alone; one row records the change |
| Store.Store.SubmitPurchaseOrder | internal/store/approvals.go:82-121 | the transaction equals the atomic call; a refused history row rolls the order back |
| Store.Store.DecidePurchaseOrder | internal/store/approvals.go:126-185 | reading the limit and then running the transaction equals the atomic call |
| Store.Store.DecideWithin | internal/store/approvals.go:138-176 | the transaction of a decision under a given limit equals its plan, rollback included |
| Store.Store.PriceOrder | internal/store/approvals.go:60-77 | no price without a line, otherwise the rounded total and the order's own or least line currency |
| Store.Store.RecordPOStatusChange | internal/store/po_status.go:52-65 | one row exactly when status or payment tag moved since the snapshot |
| Store.Store.InsertHistory | internal/store/po_status.go:69-78 | a history row is appended exactly when its order exists and its user is on record or NULL |
| Store.Store.SyncPOReceiptStatus | internal/store/po_status.go:131-161 | the sync equals the planned derived move, or changes nothing |
| Store.Store.ReceiptStatus | internal/store/po_status.go:140-152 | nothing when nothing was received, otherwise the status the sums call for |
| Store.Store.AfterWrite | internal/store/sqlite.go:323-331 | orders get their history row, lines sync their order, other tables nothing |
| Store.SelectSum | internal/store/approvals.go:64-66 | adding up the rows in any order gives the SUM |
| Store.SelectMinCurrency | internal/store/approvals.go:65 | the running minimum over any reading order is the least line currency |
| Store.SelectCount | internal/store/approvals.go:70-72 | the count is the number of the order's lines, positive exactly when it has one |
| Store.Store.MigratePOStatuses | internal/store/sqlite.go:1126-1152 | the statements, run over the whole table one after another, apply the simultaneous mapping to every order |
| Migration.MigrationIsSimultaneous | internal/store/sqlite.go:1127-1145 | the statements equal one simultaneous mapping per order, whatever order the renames run in |
| Migration.MigrationSettles | internal/store/sqlite.go:1126-1152 | no legacy status and no blank payment tag is left, decisions are unchanged, and a second run changes nothing |
| Migration.RenameAllEffect | internal/store/sqlite.go:1132-1145 | every rename moves a status at most once, to a status no other rename moves |
| Store.Store.ImportCSV | internal/store/sqlite.go:510-574 | the store equals inserting the counted rows one by one, all of them on success; at a row that fails it equals that if and only if the row itself was rejected, which is always so when the acting user is on record |
| Import.FailedInsertChangesNothing | internal/store/sqlite.go:569-571 | exact condition: a failed insert leaves no trace if and only if the workflow rule or the database rejected the row itself |
| Import.CleanStopExactly | internal/store/sqlite.go:569-571 | exact condition, in every state: no failed insert of a user leaves anything behind if and only if that user is on record or absent |
| Import.StoppingRowCanStay | internal/store/sqlite.go:569-571 | counterexample in every state for every user not on record: a row at which the import stops and which stays behind uncounted |
| Requests.RunThen | internal/store/sqlite.go:539-573 | an import extends the fold of inserts by one row at a time |
| Like.SearchIsLiteral | internal/store/sqlite.go:180-191 | LIKE on % + escapeLike(s) + % matches exactly the texts containing s, ignoring ASCII case, whatever wildcards or escapes s contains |
| Like.EscapedPrefix | internal/store/sqlite.go:228-231 | an escaped text matches itself and nothing else, whatever pattern follows |
| Sql.WhereRoundTrip | internal/store/sqlite.go:193-196 | the WHERE text is read back as exactly the conditions it was written for, up to the text after it |
| Sql.SelectRoundTrip | internal/store/sqlite.go:198-205 | the whole query is read back as its columns, table, conditions, sort column and direction with a placeholder each for limit and offset; without columns it is no query |
| Sql.CondRoundTrip | internal/store/sqlite.go:159-190 | each clause is read back as its condition |
| Sql.IdentRoundTrip | internal/store/sqlite.go:1351-1353 | a quoted identifier is read back as itself, whatever characters it holds |
| Query.CompiledMeaning | internal/store/sqlite.go:145-191 | with arguments bound by position and three-valued logic, the compiled conditions keep exactly the rows meeting every equality, every inclusive bound and the search; NULL never meets a condition |
| Query.RunsExactly | internal/store/sqlite.go:198-213 | what a database may return for the query text and its positional arguments, limit+1 and offset last, is exactly a window of the rows that meet the filter record, in the requested order, with the selected columns |
| Query.AnswerIsSelection | internal/store/sqlite.go:193-206 | the rows a database finds for the compiled conditions and arguments, before the window, are exactly the ordered selection of the rows that meet the record |
| Query.Compile | internal/store/sqlite.go:129-206 | the whole text and argument list are independent of the order the maps are read in, and only an unknown column is refused |
| Query.CompileWhere | internal/store/sqlite.go:145-196 | the text and arguments are independent of the order the maps are read in; an unknown column is refused, and nothing else |
| Query.NoPasswordSelected | internal/store/sqlite.go:1363-1372 | a column is selected exactly when a field of another kind than password has it |
| Query.SelectColumns | internal/store/sqlite.go:1363-1372 | the columns of all fields but passwords, in field order |
| Query.CompareClauses | internal/store/sqlite.go:162-179 | one clause and one argument per column, in column order |
| Query.SearchClause | internal/store/sqlite.go:180-191 | one LIKE and one pattern per search column; nothing for a blank search |
| Text.SortKeys | internal/store/sqlite.go:145-149 | the keys of a map in ascending order, however the map is read |
| Query.ComparedMeans | internal/store/sqlite.go:162-165 | the bounds are inclusive and NULL is never within them |
| Query.List | internal/store/sqlite.go:129-224 | the page is the requested window of the rows that meet the record with the selected columns, has_more says exactly whether rows remain, and only an unknown column or a table without columns to select fails |
| Query.SortColumn | internal/store/metadata.go:766-775 | the requested column exactly when it is named and the first field of that name is sortable, otherwise the table's default |
| Query.FindField | internal/store/metadata.go:707-714 | the first field of that column, or none when there is none |
| Paging.ListRows | apps/cashflow/main.go:467-498 | the client gets every row exactly once in key order with the columns shown, and succeeds if and only if the table has at most 1,000,200 rows |
| Paging.GetPage | apps/cashflow/main.go:470-496 | a page holds the next 200 rows and is refused exactly past offset 1,000,000 |
| Paging.RecordsAreTheOutcome | apps/cashflow/main.go:465-466 | nothing but the next rows in key order can come back for a page query |
| Listing.ApiListRecords | internal/app/api_service.go:203-252 | refused exactly for a limit or offset out of bounds, a flag that is no boolean, a parent filter that is not permitted or a filter that cannot be read; otherwise the page of the rows that meet the request, an equality filter winning over the parent filter |
| Listing.BoundedRoundTrip | internal/app/api_service.go:585-599 | a number written as text, signed or not, is read back, and refused exactly outside its bounds; a blank text means the default |
| Listing.SearchableColumns | internal/app/api_service.go:311-319 | the columns of the text fields in the order of the fields |
| Listing.TextColumnsAreFields | internal/app/api_service.go:311-319 | these are exactly the columns of text and textarea fields |
| Listing.ResolveColumnFilters | internal/app/api_service.go:291-308 | every filter is on a field and its text is read by the kind of the first field of that name, or the request is refused; the order filters are read in does not show |
| Listing.ResolveParentFilter | internal/app/api_service.go:259-286 | permitted exactly without id and field, or with a readable id on the declared parent field of a subtable |
| Listing.TextFilterKept | internal/store/sqlite.go:1316-1349 | a date, enumerated or text value is compared as given, up to surrounding white space |
| Query.MeetsLaw | internal/store/sqlite.go:162-191 | a row meets a record exactly when each filtered column equals its value, each lower-bounded one is not below it, each upper-bounded one not above it, none of them NULL, and the trimmed search occurs in a search column |
| Query.PageLaw | internal/store/sqlite.go:198-224 | a page holds fifty rows where no limit is given and otherwise up to the limit, from the offset on, each with exactly the columns shown; has_more says whether rows remain |
| Query.OrderLaw | internal/store/sqlite.go:198-206 | numbers and texts of the sort column never fall in an ascending page and never rise in a descending one |
| Query.NullOrder | internal/store/sqlite.go:198-206 | rows without a value come first in ascending and last in descending pages |
| Query.SortLaw | internal/store/metadata.go:766-775 | the order is by the requested column if the first field of that name is sortable, otherwise by the default |
| Text.LexLaw | internal/store/sqlite.go:145-149 | a text comes before another when it is its beginning or has the smaller character where they first differ |
| Text.TrimLaw | internal/store/sqlite.go:180 | trimming cuts white space off both ends and nothing else |
| Listing.AcceptableLaw | internal/app/api_service.go:203-252 | a request is acceptable exactly when its numbers, its flag, its parent filter and each of its filters can be read |
| Listing.DescLaw | internal/app/api_service.go:654-668 | 1, true, yes and on, trimmed and in any case, ask for descending; 0, false, no, off and blank for ascending; every other text is refused |
| Listing.NumberLaw | internal/app/api_service.go:585-599 | a limit from 1 to 200, thirty by default, and an offset from 0 to 1,000,000, zero by default; everything else is refused |
| Listing.FilterLaw | internal/store/sqlite.go:1316-1349 | how the text of a filter is read for each kind of field, blank texts included |
| Listing.RequestLaw | internal/app/api_service.go:203-252 | lower bounds come from the from values, upper bounds from the to values, equalities from the equals values with the parent id on its own column only, the direction from the flag, and nothing else is asked for |
| Listing.ParentLaw | internal/app/api_service.go:259-286 | a parent filter is permitted without id and field, or with a readable id on the declared parent field of a subtable |
| Paging.AnswerInKeyOrder | apps/cashflow/main.go:465-466 | ordering by a unique key leaves the database only one answer to an unfiltered query |
| Paging.KeyOrderUnique | apps/cashflow/main.go:465-466 | two readings of an unchanged table agree |
| Recurring.RecurringDates | apps/cashflow/main.go:340-373 | the request is accepted exactly when every field is; the list has one date per installment, each the text of its due date, steps being one week or one, three or twelve months |
| Recurring.DueAscends | apps/cashflow/main.go:364-371 | due dates are strictly increasing |
| Recurring.WeeklySpacing | apps/cashflow/main.go:366-369 | weekly dates are exactly seven days apart across month ends and leap years |
| Recurring.MonthlyNeverDrifts | apps/cashflow/main.go:370 | installment k lies k steps of months after the first, on the first day or the last day of a shorter month; a start on a 31st is month end every time |
| Recurring.FirstInstallment | apps/cashflow/main.go:364-371 | the first installment falls on the requested date |
| Calendar.AddMonthsClamps | apps/cashflow/main.go:375-382 | month stepping lands in the month that many months on, on the same day or that month's last |
| Calendar.NextDayNumber | apps/cashflow/main.go:367 | consecutive days have consecutive day numbers, so day arithmetic skips and repeats nothing |
| Calendar.ParseFormat | apps/cashflow/main.go:360 | parsing undoes formatting on every four-digit year |
| Calendar.FormatParse | apps/cashflow/main.go:360-370 | formatting undoes parsing |
| Calendar.TextOrder | apps/cashflow/main.go:635-637 | dates compare as texts exactly as they do as dates |
| Cashflow.BuildCashflow | apps/cashflow/main.go:500-642 | the report is the one the tables call for: every account once by name with its balance, the designations in use by code, openings that count every transaction once, and a forecast with one entry per bucket in strict order |
| Cashflow.ReportUnique | apps/cashflow/main.go:538-640 | the tables alone decide opening lines and forecast; the order maps are read in never shows |
| Cashflow.ReportsExtend | apps/cashflow/main.go:562-629 | two reports over the same tables on the same day: a currency's forecast up to the nearer horizon is a prefix of the one up to the further horizon, balances and details included |
| Cashflow.LoadAccounts | apps/cashflow/main.go:508-515 | one account per readable id, a later row replacing an earlier one |
| Cashflow.PostTransactions | apps/cashflow/main.go:516-523 | each account's balance is the sum of its transactions dated on or before the report day |
| Cashflow.SumByCurrency | apps/cashflow/main.go:537-541 | a currency's opening balance counts every transaction of its accounts once, accounts read in any order |
| Cashflow.ListAccounts | apps/cashflow/main.go:538-542 | every account occurs exactly once, in name order; the order the accounts are read in shows only among equal names |
| Cashflow.LoadEvents | apps/cashflow/main.go:550-605 | every bucket holds exactly what its open obligations add up to, and a currency is named by any open obligation in the window |
| Cashflow.CurrencyForecast | apps/cashflow/main.go:617-628 | the entries of a currency are exactly its buckets, with running balances |
| Cashflow.RunKeys | apps/cashflow/main.go:622-628 | the running balance at each key counts every obligation up to that bucket |
| Cashflow.Assemble | apps/cashflow/main.go:607-640 | currencies read in any order end in the same sorted opening lines and forecast |
| Cashflow.LoadDesignations | apps/cashflow/main.go:526-536 | code to name, a later row replacing an earlier one, rows without a code skipped; one list entry per row in use, by code |
| Calendar.FullDateForm | apps/cashflow/main.go:360 | a date text is four digits, a dash, two digits, a dash and two digits, naming year, month and day in that order |
| Amounts.CountedExactly | apps/cashflow/main.go:551-604 | from the cells alone: a row adds one obligation exactly when it is neither paid nor cancelled, has a positive whole amount, a currency, a readable due date and a side, and its due date, or the report date if that has passed, is not beyond the horizon; amount, side, currency, date, overdue flag and each detail are those of the row |
| Amounts.EntrySides | apps/cashflow/main.go:596-603 | an entry's payable is the sum of the payables due in its currency on its date, its receivable that of the receivables, and its net receivable minus payable |
| Amounts.LastBalanceExactly | apps/cashflow/main.go:617-628 | the last balance of a currency is its opening balance plus all receivables minus all payables counted in it |
| Amounts.AddObligation | apps/cashflow/main.go:551-628 | conservation over rows: one payable row of amount n more lowers the last balance of its currency by exactly n, one receivable row raises it by n, and no other balance moves |
| Amounts.UncountedRow | apps/cashflow/main.go:551-565 | a row that does not count leaves the whole forecast as it was |
| Amounts.AddTransaction | apps/cashflow/main.go:516-541 | one transaction of n dated on or before the report day moves opening and last balance of its account's currency by exactly n, and no other |
| Amounts.BalanceLaw | apps/cashflow/main.go:516-523 | a posting raises the balance of its account by its amount; any other row leaves every account as it was |
| Amounts.AccountLaw | apps/cashflow/main.go:508-515 | a row with a readable id sets name and currency of that account, replacing an earlier row, and leaves every other account alone |
| Amounts.OpeningLines | apps/cashflow/main.go:607-616 | a currency has an opening line exactly when an account holds it or an open row within the horizon names it, whatever its side; the line says whether an account does, and what it holds |
| Amounts.DesignationRow | apps/cashflow/main.go:526-536 | a row with a code names it, replacing an earlier name, and is offered while its status is empty or Active |
| Amounts.AmountCell | apps/cashflow/main.go:644-661 | an amount is a whole number or a text of one; a fraction, NULL and any other text are none |
| Amounts.EntriesInOrder | apps/cashflow/main.go:631-640 | entries are shown by currency, then by date, the overdue one first |
| Amounts.ListsInOrder | apps/cashflow/main.go:536-542 | opening lines by currency, accounts by name, designations by code |
| Forecast.LandsExactlyOnce | apps/cashflow/main.go:562-604 | every counted obligation lands in exactly one entry and is listed there |
| Forecast.BalancesChain | apps/cashflow/main.go:622-627 | each projected balance is the one before plus the entry's net; the first starts from the opening balance |
| Forecast.MoneyConserved | apps/cashflow/main.go:622-627 | the last balance of a currency is its opening balance plus all it receives minus all it pays |
| Forecast.ForecastUnique | apps/cashflow/main.go:614-640 | one list of rows has one forecast |
| Forecast.EntryKeyOrder | apps/cashflow/main.go:631-640 | within a currency, entry order is bucket-key order, and equal keys mean the same entry |
| Forecast.EntryOrder | apps/cashflow/main.go:631-640 | the comparison the report sorts by is a strict order |
| Obligations.KeyOrder | apps/cashflow/main.go:575-582 | bucket keys compare as texts exactly as date first, overdue bucket before the others on a day |
| Obligations.ReportDatesExactly | apps/cashflow/main.go:428-452 | the report covers the dates written in the request, today and ninety days on where nothing is written, never backwards; it is refused only when there are no such dates |
| Obligations.NetStep | apps/cashflow/main.go:623-626 | from one bucket to the next the balance moves by exactly what the next bucket holds |
| Obligations.BucketDate | apps/cashflow/main.go:581-582 | a bucket carries the date and overdue flag its key was made of |
| Horizon.HorizonStable | apps/cashflow/main.go:562-573 | looking further ahead only appends: a currency's nearer forecast is a prefix of the further one, balances and details included |
| Sessions.LiveIffUnbroken | internal/auth/session.go:89-96 | with a clock that never goes back and fresh tokens, a token is logged in if and only if it was opened with room to spare, not deleted since, and never left idle beyond the timeout between uses |
| Sessions.SessionLaw | internal/auth/session.go:38-80 | a session let in belongs to its user, lives for the idle time after its last use, is extended only by a use within that time, is gone once deleted, and no other session is touched |
| Sessions.LiveBounded | internal/auth/session.go:42-45 | after any run the live sessions never exceed the maximum, however long one waits |
| Sessions.PerUserExactly | internal/auth/session.go:43 | exact condition: after any run a user is let in exactly when his own live sessions are fewer than the limit, if and only if the table has room or every live session is his |
| Sessions.OneUserFillsTheTable | internal/auth/session.go:43 | counterexample to a per-user bound: five sessions of one user keep every other user out |
| Sessions.MirrorStep | internal/auth/session.go:89-96 | a table that forgets expired sessions and one that never forgets stay in step through every call |
| Sessions.PruneMirrors | internal/auth/session.go:89-96 | dropping the sessions idle for too long keeps the table in step with the specification and leaves exactly the live ones |
| Sessions.FoundIsLive | internal/auth/session.go:66-71 | in a pruned table a token is found exactly when it is live in the specification, with the same entry |
| Sessions.Manager.Create | internal/auth/session.go:38-61 | refused exactly when the specification has no room; the returned session is a fresh copy, none of the stored ones, and the manager goes on owning only its own objects |
| Sessions.Manager.Get | internal/auth/session.go:63-74 | found exactly when the specification has the token live, with its owner and new last activity; the returned session is a fresh copy, and the manager goes on owning only its own objects |
| Sessions.Manager.Delete | internal/auth/session.go:76-80 | the session is gone from table and specification alike |
| Sessions.Manager.Count | internal/auth/session.go:82-87 | the number of sessions live in the specification |
| Sessions.Manager.PruneLocked | internal/auth/session.go:89-96 | afterwards the table holds exactly the sessions not yet expired |
| Sessions.Session.Clone | internal/auth/session.go:98-104 | an equal copy in a new object |
| Limiter.LoginLimiter.AllowLoginAttempt | internal/app/app.go:353-372 | allowed if and only if the current run of that address's attempts, refused ones included, has at most ten; pruning and other addresses never show |
| Limiter.LoginLimiter.PruneLimitersLocked | internal/app/app.go:374-380 | every counter idle for ten minutes is dropped, and none of them mattered |
| Limiter.AllowedIffPaused | internal/app/app.go:364-371 | an attempt is allowed if and only if it is among the first ten or a pause of over a minute lies within the last ten gaps |
| Limiter.RunIsLongestStretch | internal/app/app.go:364-368 | the run is the longest stretch of attempts at the end without a pause |
| Limiter.OthersDoNotCount | internal/app/app.go:363 | the attempts of other addresses can be left out of the log |
| Limiter.BumpCounts | internal/app/app.go:363-369 | the counter update computes the run length from the counter alone, also when the counter was dropped |

## Left out

- SQLite itself: disk errors, schema creation, column affinity and type conversion of arguments, the length limit and NUL handling of LIKE. Statements are atomic updates of maps, and foreign keys and NOT NULL columns of the modelled tables are checked by the model.
- Constraints on tables and columns outside the model (suppliers, items, stock moves, unique login names) enter as the `refused` verdict of a call, and `note` stands for the remaining editable columns of a row.
- Floating-point rounding and integer overflow: quantities, prices and sums are exact; `Round` rounds halves away from zero as math.Round does.
- Obligations.ValueOrZero: an id written as text outside 64 bits counts as zero, where the code clamps it.
- Obligations.IntValue: integers are unbounded, so a whole floating-point number outside 64 bits is not clamped.
- Listing.ParseFieldValue: reading the text of a fraction is a parameter, since strconv.ParseFloat is library code; the role check before a listing is left out.
- Query.Runs: the conversion of result cells is not modelled, and neither is SQLite's reading of a quoted name that is no column as a text.
- Cashflow.BuildCashflow: the report's user name and the texts of its two dates are left out.
- Sessions.Manager.Create: randomness and encoding of tokens are a parameter, absent when the random source fails.
- Import: splitting CSV text into records, matching headers to columns and the row rules; a record arrives parsed, with the verdicts on it.
- Role checks, business rules, password hashing, HTTP routing, pages, MCP registration, certificates and the purchasing proxy: each is settled by one branch or is library code and user interface.
