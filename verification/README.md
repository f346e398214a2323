# Verification model of the accounting information platform

A Dafny model of the platform's double-entry books, the reports that must agree
with them, and the parsers and registries around them, with machine-checked
proofs. `dafny verify dfyconfig.toml` checks the whole project.

## The books over time

`BookStore` is the accounting store as a value: charts, fiscal periods, per-book
period controls, journals, snapshots and open commands, and one step for each
command (register a book, post, adjust, reverse, open a period, soft close, hard
close). `AccountingStore` is the same store as an object whose methods update the
tables; each method is proved to do exactly its step. The database guards that the
commands rely on (the period guard on journal inserts, the balance check, the
receipt check on reversal lineage and the unique keys) are part of the steps.

`CloseInvariant` proves what every step keeps, `AcceptedCommands` says when a
command is accepted and `Refusals` that a refusal tells the truth, and the other
files draw the consequences over whole runs: `SnapshotTheorems` (snapshots never
go stale), `AnyOrder` and `SnapshotOrder` (what holds without the premised order,
and exactly when snapshots go stale), `Replays` (a repeated command is answered
from stored facts), `PeriodControl` (lazily created control rows refine a plain
map of statuses), `Statements` (changes in equity, indirect cash flow,
rollforward) and `BalanceSheet`. `Witnesses` holds concrete runs from the empty
store. `ClosingJournal` is the journal a hard close posts. `JournalTables` and
`Sums` hold the grouped queries as recursive sums.

Premises that the code relies on and does not check are stated as preconditions:

- `Orderly`: new fiscal periods do not overlap existing ones and start after
  anything already hard-closed, and a hard close finds every earlier period of its
  book hard-closed. `AnyOrder` shows what holds without this order and
  `SnapshotOrder` what exactly the order is for.
- `WellFormedChart`: account codes are distinct, revenue and expense accounts are
  exactly those in the roles `usage_revenue` and `write_off_expense`, the cash
  account is an asset, 310100 is an equity account.
- The run theorems on the equity statement and the balance sheet, which read the
  calendar instead of a book's own control, ask for a tenant with one book.

`Witnesses.HardClosingRunExists` shows that these premises can be met together.
That closing journals are never reversed is not a premise: a closing journal has no
posting receipt, and the database refuses to reverse a journal without one.

## The other parts

- `Aging`, `AgingOfBooks`: FIFO aging of a control account, with closed forms for
  the total, for every cutoff date and for the four buckets, and the comparison of
  the total with the account's balance in the books.
- `Postings`, `LedgerTheorems`, `PostingLedgers`: the in-memory ledger over four
  dictionaries, with idempotent posting, append-only reversal and two receipt caches.
- `SqlScanner`, `SqlTheorems`, `SqlLiterals`, `SqlSegments`: the scanner that masks
  comments and string constants in migrations, following sections 4.1.2 and 4.1.5 of
  the PostgreSQL manual.
- `XmlEvents`, `XmlArena`, `XmlBuilder`: the bounded statement reader. `XmlEvents`
  is the machine over expat's events, `XmlBuilder` the handlers that grow element
  objects in place, `XmlArena` the values those objects stand for.
- `MoneyText`, `AdjustingLines`: canonical decimal text, and the parser of
  adjusting-journal lines that uses it.
- `Ingestion`: bank-statement evidence under three unique indexes.
- `Paging`: keyset paging of the journal list and its cursor text.
- `Matching`: deterministic bank-to-book matching.

## Conventions

Money is in integer micro-units, since amounts have at most six fractional digits.
Python's default decimal context keeps 28 significant digits and the database
columns 38, so the model agrees with the code while sums stay below 10^28
micro-units. Dates are day numbers. SHA-256 is taken to be injective, so hashed
evidence is compared as the evidence itself. Every command is one atomic step.

## Where the code and its documentation differ

- `docs/adr/0039-http-receivable-aging.md` says that the outstanding total equals
  the net of the receivable account. It does exactly when the balance was negative
  at no day's end (`AgingTiesExactlyWhen`); a receipt dated before its invoice
  breaks it (`EarlyReceiptDoesNotTie`). The model follows the code.
- Hard closes are accepted in any order. A snapshot taken while anybody may still
  write into an earlier period can go stale (`HardCloseLastsExactlyWhenEarlierShut`);
  a soft-closed earlier period is enough when the closing writer logs in
  (`OutOfOrderCloseGoesStale`). A period can also be opened before a hard-closed one,
  which no snapshot survives (`NoneLastsWithoutOrder`).
- Opening balances start from the latest prior snapshot and leave out any journal
  dated between it and the scope (`OpeningSidesExact`, `OpeningLeavesAJournalOut`).
- A statement ingested under one account reference can be returned to a command
  for another reference of the same account (`SharedAccountAnswersForAnother`). It is
  exactly when its artifact was recorded under another one (`OwnReferenceExactlyWhen`).
- A replay by artifact or identity does not reserve the command's key
  (`ReplayLastsExactlyWhen`, `ReplayedKeyCanBeTaken`).
- The scanner masks string constants and comments as the PostgreSQL manual has them,
  but does not know identifiers in double quotes, so an apostrophe in one opens a
  literal (`QuotedIdentifierIsNoToken`); `IdentityExactlyWhen` covers them too.

## Model

| member | source | states |
|---|---|---|
| ClosingJournal.BuildClosingLines | src/accounting_information_platform/persistence.py:5357-5470 | the closer's loop with its running number and running total builds exactly the lines the closing journal is specified to have, and asks for the retained-earnings mapping only when something is to be cleared |
| ClosingJournal.ClosingLinesWellFormed | src/accounting_information_platform/persistence.py:5357-5438 | for every mix of gains and losses the closing journal is empty exactly when every income balance is zero, and otherwise has at least two one-sided lines numbered 1..n that balance, on closed income accounts and 310100 only |
| ClosingJournal.ClosesOneByOne | src/accounting_information_platform/persistence.py:5357-5438 | each balance that is not zero gets one line in its place, on its account, in its role and for the difference of its sides, and at most one line on 310100 in the role of retained earnings follows |
| ClosingJournal.ClosingNet | src/accounting_information_platform/persistence.py:5357-5438 | on any set of accounts the closing lines take away the income balances of that set and add the summed net if 310100 is in it |
| ClosingJournal.ClosingJournalClears | src/accounting_information_platform/persistence.py:5339-5492 | after the closing journal each income account nets to zero, 310100 has moved by exactly the summed net (also when gains and losses cancel), every other account is as before |
| ClosingJournal.IncomeClearedByClosing | src/accounting_information_platform/persistence.py:5339-5492 | after the closing step, with or without a journal, income is zero account by account and in total |
| ClosingJournal.ClosesExactlyWhenIncomeStands | src/accounting_information_platform/persistence.py:5339-5438 | a closing journal has lines exactly when some income account has a balance in the ledger |
| JournalTables.GroupedTotal | src/accounting_information_platform/persistence.py:4886-4918 | summing a side over the grouped rows of the trial balance gives the sum over all selected journal lines, for any set of accounts |
| JournalTables.RowsAreGroups | src/accounting_information_platform/persistence.py:4886-4918 | the grouped query returns one row, with its two sides, for every listed account that a selected line touches and for no other, in the order of the chart |
| JournalTables.RowsNoticeSelected | src/accounting_information_platform/persistence.py:4886-4918 | a further selected journal with one-sided lines always changes the grouped rows, even when it nets to zero |
| AccountingStores.AccountingStore.InsertJournal | src/accounting_information_platform/persistence.py:5650-5740 | inserting a journal, its lines and its proposal record under the database guards is all or nothing and does exactly what the insert step says, refusal included |
| AccountingStores.AccountingStore.InsertLines | src/accounting_information_platform/persistence.py:5690-5740 | the line-by-line insert stops at the first line the table refuses and otherwise leaves the journal with all its lines |
| AccountingStores.AccountingStore.PostProposal | src/accounting_information_platform/persistence.py:937-1041 | the post command, with its replay, reserved-role, policy-window, mapping, period and lock checks in order, is the post step; with periods in order it is accepted exactly when nothing stands against it, and then adds its one journal on the date and with the resolved lines of the command |
| AccountingStores.AccountingStore.PostAdjustingJournal | src/accounting_information_platform/persistence.py:77-251 | on a store that keeps the invariant, an adjustment is accepted exactly when its key and id are new, the book has a role mapped, a period of its code holds its date and may still be written into, and its lines are sound; it then adds that one journal, otherwise nothing is written, and the invariant is kept |
| AcceptedCommands.AdjustmentIsSound | src/accounting_information_platform/persistence.py:77-251 | the same promise about the adjust step: acceptance does not depend on the order in which the tables are asked |
| AccountingStores.AccountingStore.ReverseJournal | src/accounting_information_platform/persistence.py:2700-2920 | the reversal command, replay and conflict cascade included, is the reverse step on the whole store |
| AccountingStores.AccountingStore.OpenFiscalPeriod | src/accounting_information_platform/persistence.py:1170-1335 | a period is added, at the end and open, exactly when the command key and the period code are new and both dates are given in order; a refusal writes nothing |
| AcceptedCommands.OpeningIsSound | src/accounting_information_platform/persistence.py:1170-1335 | an answered opening is the period of the asked code on the asked dates, both or none, with the command on record and every earlier record untouched; orderly openings keep the invariant |
| AcceptedCommands.ConfirmedExactlyWhen | src/accounting_information_platform/persistence.py:1199-1270 | an opening of a period that is there already is answered exactly when it is the recorded command, or a new one that names both dates of the open period or none |
| AccountingStores.AccountingStore.LockBookPeriod | src/accounting_information_platform/persistence.py:4731-4799 | after the lock every active book has its own row for the period, rows that existed are untouched, new rows are for that period only and without evidence, and no book sees another status than before |
| AccountingStores.AccountingStore.SetBookPeriodClosed | src/accounting_information_platform/persistence.py:5536-5593 | under the lock the calendar of the period shows its least-closed active book, no other book or period sees another status, and every other period row is untouched |
| AccountingStores.AccountingStore.PostClosingJournal | src/accounting_information_platform/persistence.py:5339-5492 | posting the closing journal in the store is the specified closing step |
| AccountingStores.AccountingStore.PersistPeriodClose | src/accounting_information_platform/persistence.py:5237-5337 | a hard close posts the closing journal, stores the snapshot of the ledger after it and locks the book period, or changes nothing |
| AccountingStores.AccountingStore.CloseFiscalPeriod | src/accounting_information_platform/persistence.py:1042-1168 | the whole close command is the close step; a first close answers and stores the number of journals of the book dated by the period end, its own closing journal included; every other outcome writes control rows at most, and a refusal undoes those |
| BookStore.FirstRefusalDecides | src/accounting_information_platform/persistence.py:5690-5740 | the first refused line decides the outcome whatever lines follow |
| BookStore.NoLineIsRefusedExactlyWhen | src/accounting_information_platform/persistence.py:5690-5740 | the line-by-line checks refuse nothing exactly when all lines are on the chart, one-sided and positively and distinctly numbered |
| AcceptedCommands.PostedExactlyWhen | src/accounting_information_platform/persistence.py:937-1041 | a post is accepted exactly when its key and id are new, no line asks for the reserved role, every role is mapped, the policy window permits the date, an open period of the book covers it, and the resolved lines are sound; it then adds one journal, line by line the proposal on the mapped accounts, on the command's date and in the period that holds it |
| AcceptedCommands.ReversedExactlyWhen | src/accounting_information_platform/persistence.py:2700-2920 | a reversal is accepted exactly when its key is new, the journal it names has a receipt, is no reversal, is not reversed yet, is not dated later and is of the policy's book, the policy permits the date, and the book may write special journals into the period of that date; it then adds the mirror image, and it is never refused for its lines |
| AcceptedCommands.SoftClosedExactlyWhen | src/accounting_information_platform/persistence.py:1096-1166 | an open book period is soft-closed exactly when no other soft close has the key, and journals and snapshots stay as they are |
| AcceptedCommands.HardClosedExactlyWhen | src/accounting_information_platform/persistence.py:1042-1168 | a hard close is accepted exactly when the worksheets load, the key has stored no other close, and income, if there is any, can be cleared; it is never refused because the ledger does not balance or for a closing line |
| AcceptedCommands.CloseCountsItsJournals | src/accounting_information_platform/persistence.py:4969-5336 | for every first close, soft or hard, in every store, the count answered and stored with the command's key is the size of the set of journals of the book dated by the period end, plus the closing journal if one is posted; a close that is refused or replayed adds no journal and no snapshot |
| AcceptedCommands.ClosingIsAddedExactlyWhen | src/accounting_information_platform/persistence.py:5339-5438 | a first hard close adds a closing journal exactly when some income account of the book has a balance at the end of the period |
| Refusals.RefusalsAreTrue | src/accounting_information_platform/persistence.py:77-1335 | in every store that tidy commands reach, the reason a command is refused with is so, read back from the tables and the command; a reversal is never refused for its lines, a hard close never for an unbalanced ledger |
| CloseInvariant.StepKeepsInv | src/accounting_information_platform/persistence.py:937-1335 | every command keeps the invariant: journals balance, are one-sided, distinctly numbered and lie inside their period, closing journals carry no receipt, the calendar shows the least-closed book, hard closes are in order, and every snapshot equals the live ledger with all income cleared |
| CloseInvariant.RunKeepsInv | src/accounting_information_platform/persistence.py:937-1335 | the invariant holds after every orderly run from the empty store |
| CloseInvariant.InsertedAfterSnapshots | database/migrations/0009_accounting_book_period_control.sql:47-104 | a journal the period guard lets in is dated after every snapshot of its book |
| CloseInvariant.ReverseKeepsInv | database/migrations/0005_closed_period_guard.sql:185-215 | only posted journals are ever reversed, since a closing journal has no receipt, so a reversal can never match the closing pattern |
| CloseInvariant.ClosingStepKeepsInv | src/accounting_information_platform/persistence.py:5339-5492 | the closing step keeps the invariant and leaves every income account of the book cleared through the period end |
| CloseInvariant.FrozenKeepsInv | src/accounting_information_platform/persistence.py:5237-5337 | freezing the cleared ledger keeps the invariant |
| CloseInvariant.MaterializedKeepsInv | src/accounting_information_platform/persistence.py:4731-4799 | creating missing control rows keeps the invariant and changes no active book's effective status |
| SnapshotTheorems.SnapshotsNeverGoStale | src/accounting_information_platform/persistence.py:5207-5337 | after any orderly run every stored snapshot equals the live trial balance through its period end and counts the journals behind it |
| SnapshotTheorems.RunOnlyAppends | src/accounting_information_platform/persistence.py:937-1335 | no run, orderly or not, removes or rewrites a journal or a snapshot |
| SnapshotTheorems.TrialBalanceAlwaysBalances | src/accounting_information_platform/persistence.py:4886-4918 | the live trial balance of any book balances on any date |
| SnapshotTheorems.StaysFreshExactlyWhen | src/accounting_information_platform/persistence.py:4886-4918 | one more journal leaves a fresh snapshot fresh exactly when it is another book's or is dated after the snapshot's period |
| SnapshotOrder.LastsExactlyWhenEarlierShut | database/migrations/0009_accounting_book_period_control.sql:47-104 | a snapshot that agrees with the ledger keeps agreeing over every later run, closes in any order included, exactly when every earlier period of its book is hard-closed, or soft-closed without the closing writer |
| SnapshotOrder.HardCloseLastsExactlyWhenEarlierShut | src/accounting_information_platform/persistence.py:1042-1168 | the code does not check the order of hard closes: in every store it keeps consistent, whatever closes it has accepted before, what an accepted hard close stores keeps agreeing with the ledger over every later run exactly when, at the time, the guard let nobody write into an earlier period of the book |
| SnapshotOrder.CloseAfterAnyRunLastsExactlyWhen | src/accounting_information_platform/persistence.py:1042-1168 | the same for every hard close after any run from the empty store with disjoint periods, closes in any order |
| SnapshotOrder.NoneLastsWithoutOrder | src/accounting_information_platform/persistence.py:1273-1301 | nor does the code check that new periods come in order: if they need only be disjoint, no snapshot of a book with a mapped role keeps agreeing over every run |
| AnyOrder.RunKeepsConsistent | src/accounting_information_platform/persistence.py:937-1335 | after every run with disjoint periods and well-formed charts, whatever the order of openings and closes, journals are in order, control rows and calendar agree, and every snapshot is of a hard-closed book period |
| Witnesses.OutOfOrderCloseGoesStale | src/accounting_information_platform/persistence.py:1042-1168 | a run from the empty store: the second period is hard-closed while the first is only soft-closed, an adjustment into the first is accepted, and the second period's snapshot no longer equals the live trial balance |
| PeriodControl.CloseRefinesPlainMap | src/accounting_information_platform/persistence.py:4731-4831 | with lazily created rows abstracted to a plain map from book and period to status, a first close sets its own entry only and moves it forward, and a replay or refusal changes nothing |
| PeriodControl.OtherCommandsRefinePlainMap | src/accounting_information_platform/persistence.py:1170-1335 | every other command leaves all entries as they are; a new period is open for every book, a new book starts with the calendar's statuses |
| PeriodControl.StatusesOnlyMoveForward | src/accounting_information_platform/persistence.py:1096-1166 | no command ever moves a book's status back |
| PeriodControl.CalendarIsLeastClosed | src/accounting_information_platform/persistence.py:5557-5592 | after any run the calendar shows for each period the status of its least-closed active book |
| Statements.OpeningSidesExact | src/accounting_information_platform/persistence.py:2124-2194 | the opening sides taken from the latest prior snapshot are the live sides of every account exactly when no journal lies between that snapshot and the start of the scope |
| Statements.PriorSnapshotIsTheLast | src/accounting_information_platform/persistence.py:4030-4048 | statements open from the stored snapshot of the last period that everybody has closed and that ended before the scope, and from the live ledger exactly when there is none |
| Witnesses.OpeningLeavesAJournalOut | src/accounting_information_platform/persistence.py:2124-2194 | an orderly run from the empty store after which the third period's opening debits of cash, taken from the first period's snapshot, miss a sale of the second |
| Witnesses.HardClosingRunExists | src/accounting_information_platform/persistence.py:5237-5337 | an orderly run from the empty store that posts income and hard-closes its period with a closing journal, so the premises of the run theorems hold together |
| Statements.ClosingEquityIsSnapshotEquity | src/accounting_information_platform/persistence.py:3731-3914 | for a single period or a year to date with a closed past, the reported closing equity is the equity total of the stored snapshot |
| Statements.NextOpensFromSnapshot | src/accounting_information_platform/persistence.py:3804-3876 | the next period opens from this snapshot when no other period lies between |
| Statements.EquityArticulates | src/accounting_information_platform/persistence.py:3731-3914 | over every orderly run on a one-book tenant, the closing equity reported for a hard-closed period is its snapshot's equity and the next period's reported opening equity |
| Statements.EquityStatementLines | src/accounting_information_platform/persistence.py:3760-3798 | over a contiguous scope every line is a movement of the ledger: net income that of income plus what the closing journals took away, other movements that of equity less what they put there, opening equity the ledger's at the cutoff, closing equity the sum |
| Statements.AccountsOfTheLines | src/accounting_information_platform/persistence.py:3878-4146 | the accounts each line of the statements is about, told from the chart: cash is the account in the role `cash_receipt`, working capital the other assets and liabilities, equity and income their classes |
| Statements.CashFlowIsCashMovement | src/accounting_information_platform/persistence.py:3932-4230 | for any scope, net income plus working capital plus financing is the debit-less-credit movement of the cash account over the scope, though cash is never summed for it |
| Statements.CashFlowLines | src/accounting_information_platform/persistence.py:3990-4006 | over a contiguous scope every line is a movement of the ledger: working capital that of the assets and liabilities but cash, financing that of equity less what the closing journals put there, net income that of income plus what they took away, investing nothing; operations, net change and closing cash are their sums, opening cash is ledger cash at the cutoff |
| Statements.ClosingCashTiesWithOpening | src/accounting_information_platform/persistence.py:3932-4098 | the reported closing cash differs from ledger cash by exactly what the reported opening cash does |
| Statements.ClosingCashIsLedgerCash | src/accounting_information_platform/persistence.py:3932-4098 | with a closed past the reported closing cash is ledger cash |
| Statements.RollforwardTies | src/accounting_information_platform/persistence.py:1460-1558 | opening sides plus period sides are the live closing sides of every account exactly when no journal lies in the gap, and none does when the past is closed |
| BalanceSheets.BalanceSheetTies | src/accounting_information_platform/persistence.py:3323-3483 | over every orderly run on a one-book tenant, with a closed past, assets equal liabilities plus equity plus net income, and equity plus net income is the closing equity of the statement of changes in equity, for open, soft-closed and hard-closed periods |
| BalanceSheets.SheetIsLive | src/accounting_information_platform/persistence.py:3323-3483 | assets, liabilities and equity of the sheet are the live balances of their account classes at the period end |
| BalanceSheets.MissingSheetIsEmpty | src/accounting_information_platform/persistence.py:3323-3483 | a sheet is missing only for a period that everybody has closed and in which the book has no journal |
| BalanceSheets.StandingIncome | src/accounting_information_platform/persistence.py:4148-4230 | until a period is closed its reported net income is the income standing in the ledger at its end less what stood before its start, and nothing stood there when every earlier period is hard-closed |
| Statements.ReversalTakesItsOriginalBack | src/accounting_information_platform/persistence.py:2700-2920 | a reversal takes its original back on every set of accounts, from its own date on and not before |
| Replays.PostReplaysForever | src/accounting_information_platform/persistence.py:937-959 | once a post or an adjustment has been answered, after any commands its key answers with the same journal for the same payload and conflicts for every other, and nothing is written |
| Replays.ReversalReplaysForever | src/accounting_information_platform/persistence.py:2736-2783 | once a journal has been reversed, after any commands the same reversal is replayed, its key conflicts with other evidence, and another key finds the journal already reversed |
| Replays.OpeningReplaysForever | src/accounting_information_platform/persistence.py:1199-1245 | once an opening has been answered, after any commands and whatever became of the period, the same command is answered with the same period, any other command under its key conflicts, and nothing is written |
| Replays.RunKeepsOpeningsOk | src/accounting_information_platform/persistence.py:1199-1245 | after any run every opening on record was for a period that exists and named both of its dates or none |
| Replays.HardCloseReplaysForever | src/accounting_information_platform/persistence.py:5037-5074 | once a book period is hard-closed, after any commands the same close returns the stored count, another key finds the period locked and a soft close comes too late |
| Replays.SoftCloseReplaysUntilHard | src/accounting_information_platform/persistence.py:5076-5136 | once a book period is soft-closed, whatever is added to the ledger afterwards, the same soft close returns the count stored with it and another key conflicts, until the hard close |
| Aging.SpreadDecrease | src/accounting_information_platform/persistence.py:6563-6567 | the inner loop, updating the open items in place, applies a decrease oldest first |
| Aging.FifoAgingOpenItems | src/accounting_information_platform/persistence.py:6547-6569 | the nested loops compute the specified open items |
| Aging.TotalIsReflectedNet | src/accounting_information_platform/persistence.py:6547-6569 | after any one-sided rows the open total is the final net less the smallest prefix net |
| Aging.OpenSince | src/accounting_information_platform/persistence.py:6547-6569 | for rows in date order the amount open since any date is the open total or all increases since that date, whichever is less |
| Aging.SurvivorsAreMostRecent | src/accounting_information_platform/persistence.py:6547-6569 | the surviving items are the most recent increases in order, and only the oldest of them is reduced |
| Aging.DayEndsDecide | src/accounting_information_platform/persistence.py:2424-2448 | in the query's order the running balance is never negative exactly when it is not negative at any day's end |
| Aging.TotalIsBalanceExactlyWhen | src/accounting_information_platform/persistence.py:2424-2475 | the aging total is the net of its rows exactly when their running net was negative at no day's end |
| AgingOfBooks.RowsAreTheBalance | src/accounting_information_platform/persistence.py:2424-2459 | on every day the rows the query returns, in any order it allows, net to the account's balance in the ledger, closing journals included |
| AgingOfBooks.AgingTiesExactlyWhen | src/accounting_information_platform/persistence.py:2424-2475 | after every orderly run the outstanding total through a date is the account's balance in the ledger exactly when that balance was negative at the end of no day up to the date |
| AgingOfBooks.ReceivableTiesExactlyWhen | src/accounting_information_platform/persistence.py:2424-2500 | after every orderly run outstanding less unapplied credit is the receivable's balance in the ledger exactly when that balance was negative at the end of no day, or at the end of none lower than at the last |
| AgingOfBooks.UnappliedCreditIsTheOverdraft | src/accounting_information_platform/persistence.py:2488-2500 | after every orderly run the unapplied credit is the whole of a negative balance in the ledger, whatever is open beside it, and nothing otherwise |
| AgingOfBooks.OutstandingIsTheLargestRise | src/accounting_information_platform/persistence.py:2424-2475 | after every orderly run the outstanding total is the largest rise of the account's balance up to the report's date, from nothing or from the end of any day |
| AgingOfBooks.BucketsInTheBooks | src/accounting_information_platform/persistence.py:2424-2475 | after every orderly run the four buckets follow from the outstanding total and what the ledger added to the account in the last 30, 60 and 90 days |
| AgingOfBooks.AgedBalanceIsSnapshotBalance | src/accounting_information_platform/persistence.py:2424-2475 | for a hard-closed period that balance is the one its snapshot holds |
| Aging.ReceivableTiesExactlyWhen | src/accounting_information_platform/persistence.py:2488-2500 | outstanding less unapplied credit is the receivable balance exactly when the balance was never negative, or never lower than at the end |
| Aging.EarlyReceiptDoesNotTie | src/accounting_information_platform/persistence.py:2424-2500 | a receipt dated before its invoice: the report shows 5 outstanding on a balance of 0, with no unapplied credit |
| Aging.CreditBesideAnOpenItem | src/accounting_information_platform/persistence.py:2488-2500 | a prepayment of ten before an invoice of five: five outstanding beside five of unapplied credit |
| Aging.BucketTotals | src/accounting_information_platform/persistence.py:2461-2475 | the bucket loop puts every open item into the bucket of its age and the total is their sum |
| Aging.BucketsInClosedForm | src/accounting_information_platform/persistence.py:2461-2475 | all four buckets follow from the open total and the increases since three dates, and add up to the total |
| PostingLedgers.PostingLedger.Post | src/accounting_information_platform/core.py:361-414 | on a sound ledger a raise changes nothing, a new key is receipted exactly when the policy covers the proposal, its roles are mapped and its id is new, and a receipt is stored under its key with its journal behind it: line by line the proposal on the mapped accounts, on its date, under the policy's book and versions |
| PostingLedgers.PostingIsSound | src/accounting_information_platform/core.py:361-414 | the same promise about the post step |
| PostingLedgers.PostingLedger.Reverse | src/accounting_information_platform/core.py:416-544 | on a sound ledger a raise changes nothing, a command is receipted exactly when nothing stands against it, and a receipt is that of the one stored reversal, which bears the command's key, date and reason, on replays too, and mirrors its original; the caches then give that answer again, at most that one journal is new, and the ledger stays sound |
| PostingLedgers.ReversalIsSound | src/accounting_information_platform/core.py:416-544 | the same promise about the reverse step, cache hits and the replay of an occupant included |
| PostingLedgers.ReversalTakesItsOriginalBack | src/accounting_information_platform/core.py:486-544 | a new reversal takes its original back, on every set of accounts, from the command's date on and not before, in the original's book only |
| PostingLedgers.ErrorsAreTrue | src/accounting_information_platform/core.py:416-544 | in a sound ledger the error a reversal raises is so, and the foreign-occupant error is never raised |
| PostingLedgers.PostErrorsAreTrue | src/accounting_information_platform/core.py:361-414 | the error a post raises is so |
| PostingLedgers.PostingLedger.TrialBalance | src/accounting_information_platform/core.py:546-574 | the double loop over journals and lines lists exactly the touched accounts, each with its two column sums |
| LedgerTheorems.StepKeepsInv | src/accounting_information_platform/core.py:361-544 | every command keeps the ledger invariant: journals balance, a reversal follows its original, is its mirror image and bears the key, the date and the reason its digest was made from, receipts repeat their journals, both caches agree with the journals |
| LedgerTheorems.AtMostOneReversal | src/accounting_information_platform/core.py:446-484 | in every reachable ledger an original has at most one reversal |
| LedgerTheorems.OccupantIsItsReversal | src/accounting_information_platform/core.py:722-729 | whatever occupies an original's reversal reference is its reversal, because a UUID-shaped id cannot form one, so the foreign-occupant branch is unreachable |
| LedgerTheorems.CachedEqualsRebuilt | src/accounting_information_platform/core.py:602-642 | a cached reversal answers what the stored journal would, and the only difference shows under a policy outside the original's scope |
| LedgerTheorems.CachesAreTransparent | src/accounting_information_platform/core.py:416-544 | losing any cache entries changes no outcome of a reversal under a policy in the original's scope |
| LedgerTheorems.ErasureIsTransparent | src/accounting_information_platform/core.py:602-625 | emptying both caches leaves a sound ledger and changes no outcome of a reversal under a policy in the original's scope |
| LedgerTheorems.ErasureShowsExactlyWhen | src/accounting_information_platform/core.py:602-625 | emptying the caches changes a reply exactly when the command would have hit the cache under a policy outside the original's scope |
| LedgerTheorems.PostIsIdempotentForever | src/accounting_information_platform/core.py:576-600 | once a key and payload have been receipted, after any further commands the same post returns the same receipt and adds nothing, and another payload under the key always raises |
| LedgerTheorems.TrialBalanceIsWhatStands | src/accounting_information_platform/core.py:546-574 | in every reachable ledger and for every date, each account's net is the sum over the originals in scope that no reversal dated by then has reversed, and debits equal credits over all accounts |
| LedgerTheorems.TenantsAreIsolated | src/accounting_information_platform/core.py:576-579 | after any interleaving a tenant's journals, receipts and caches are those its own commands alone would have produced |
| LedgerTheorems.TrialBalanceInPart | src/accounting_information_platform/core.py:546-574 | a tenant's trial balance reads only that tenant's part |
| SqlScanner.SkipBlock | scripts/validate_repository.py:215-232 | the nested-comment loop stops where the depth counter returns to zero and keeps exactly the line breaks it passed |
| SqlScanner.SkipLiteral | scripts/validate_repository.py:252-277 | the literal loop, with doubled quotes and escaping backslashes, stops where the literal ends and keeps exactly the breaks it did not escape |
| SqlScanner.LexExecutableSql | scripts/validate_repository.py:203-281 | the main loop, recursing into quoted bodies that are code, terminates and computes the specified masking |
| SqlSegments.EscapesExactlyWhen | scripts/validate_repository.py:253-261 | a quote opens an escape literal exactly when the longest run of word characters before it is the one-letter word e or E |
| SqlSegments.QuoteFoundExactlyWhen | scripts/validate_repository.py:233-251 | a complete dollar-quoted string is found at a place exactly when the grammar has one there: two delimiters of one tag and none of these between |
| SqlTheorems.OutputIsClean | scripts/validate_repository.py:203-281 | the output never holds a single quote, two dashes or the start of a block comment, and is never longer than the input |
| SqlTheorems.IdentityExactlyWhen | scripts/validate_repository.py:203-281 | the scanner is the identity exactly on texts with no quote, no comment mark and no complete dollar-quoted string |
| SqlTheorems.QuotedIdentifierIsNoToken | scripts/validate_repository.py:203-281 | a concrete text: an apostrophe in a double-quoted identifier opens a literal |
| SqlTheorems.DepthCounterIsDescent | scripts/validate_repository.py:215-232 | the depth counter computes what a recursive-descent parser of nested comments computes, at any depth |
| SqlTheorems.BlockCommentsEndWhereTheyNest | scripts/validate_repository.py:215-232 | a block comment is skipped to exactly where its grammar ends it, and to the end of the text when the grammar ends it nowhere |
| SqlSegments.SegmentsAreMasked | scripts/validate_repository.py:203-281 | a text laid out from code characters, line comments, nested or open comments, literals after the word that decides their escapes, and tagged dollar strings, as a grammar written without the scanner's own tests has them, is masked segment by segment, each skipped in full whatever it contains |
| SqlSegments.EveryTextIsLaid | scripts/validate_repository.py:203-281 | every text has such a layout, and what the scanner makes of it is any of its layouts masked |
| SqlLiterals.LiteralEndAt | scripts/validate_repository.py:262-277 | a literal written from plain signs, doubled quotes and, where they escape, backslashes with whatever follows them is skipped to where it ends, and the line breaks that are signs of their own are kept |
| SqlLiterals.LiteralsEndWhereTheyClose | scripts/validate_repository.py:262-277 | a literal is skipped to exactly where its grammar closes it, and to the end of the text when the grammar closes it nowhere |
| XmlBuilder.TreeBuilder.StartElement | src/accounting_information_platform/bank_statement.py:1101-1130 | the start handler refuses at the first broken bound and otherwise opens a new last child; depth is the stack height and the element count is the number of elements created |
| XmlBuilder.TreeBuilder.EndElement | src/accounting_information_platform/bank_statement.py:1132-1134 | the end handler closes the innermost open element into its parent |
| XmlBuilder.TreeBuilder.HandleText | src/accounting_information_platform/bank_statement.py:1136-1145 | the text handler counts UTF-8 bytes, refuses beyond the bound, and appends to the innermost open element only |
| XmlBuilder.ParseBoundedXml | src/accounting_information_platform/bank_statement.py:1061-1170 | feeding a sequence of events to the handlers returns a root object whose tree, read back from the heap, is the one the event machine builds, or refuses with the same reason |
| XmlEvents.DocumentIsRebuilt | src/accounting_information_platform/bank_statement.py:1061-1170 | the events of a document build its tree, text joined per element and children in order, or are refused exactly when nesting, elements, attributes or text are beyond a bound, and then for one that they are beyond |
| XmlEvents.AnswerByCounting | src/accounting_information_platform/bank_statement.py:1147-1170 | events that are not refused build a root exactly when every start has its end and there is one; with an end missing they are not well formed, without a start they are no document |
| XmlEvents.TextSizeIsEncodedLength | src/accounting_information_platform/bank_statement.py:1136-1145 | the size counted for a text is the length of its UTF-8 encoding |
| XmlEvents.SizeIsEncodedLength | src/accounting_information_platform/bank_statement.py:1136-1145 | the encoding of a character is as many bytes as its first byte announces, and they read back as the character |
| XmlEvents.WalkingBuildsTheTreeAgain | src/accounting_information_platform/bank_statement.py:1061-1170 | writing out a tree within the bounds as events and reading them builds the same tree |
| XmlArena.TextGrowsTheTop | src/accounting_information_platform/bank_statement.py:1136-1145 | adding text to one element changes that element alone among the open ones and no closed tree |
| MoneyText.FixedPointParses | src/accounting_information_platform/core.py:705-719 | a fixed-point text of at most six decimals is accepted and parses to the very decimal it was printed from |
| MoneyText.AcceptedExactlyWhen | src/accounting_information_platform/core.py:705-719 | the accepted texts are exactly the fixed-point texts of decimals with at most six digits behind the point |
| MoneyText.PrintedAmountsParseBack | src/accounting_information_platform/bank_statement.py:1695-1700 | every canonical amount text is accepted and parses back to the same value in lowest form |
| MoneyText.PrintAlikeExactlyWhenEqual | src/accounting_information_platform/bank_statement.py:1695-1700 | two amounts have the same canonical text exactly when they are worth the same |
| MoneyText.CanonicalTextIsTheNumber | src/accounting_information_platform/bank_statement.py:1482-1520 | two accepted texts get the same canonical text exactly when they denote the same number, so evidence hashes ignore trailing zeros and nothing else |
| Ingestion.EvidenceRegistry.AcceptStatement | src/accounting_information_platform/bank_statement.py:555-645 | with the indexes unique, a statement is recorded exactly when it is admissible and no record has its key, its artifact or its identity under the account; anything else writes nothing; it is accepted exactly when it also agrees with the records it meets, and the record then carries the submitted statement; a refusal says what is so; the indexes stay unique |
| Ingestion.IngestIsSound | src/accounting_information_platform/bank_statement.py:555-645 | the same promise about the ingest step |
| Ingestion.AcceptedExactlyWhen | src/accounting_information_platform/bank_statement.py:505-605 | a command is accepted exactly when it names a key and an artifact, claims the artifact's digest or none, the artifact is a statement in one currency of the registered account, and no record it meets holds anything else; a refusal says which of these fails |
| Ingestion.EvidenceRegistry.RegisterAccount | src/accounting_information_platform/bank_statement.py:215-258 | afterwards the reference is known and every earlier reference still has its account; the reply is a registration exactly when the reference now has the given account, and a replay exactly when it was known before |
| Ingestion.RunKeepsInv | database/migrations/0011_bank_statement_evidence.sql:79-87 | in every run no insert breaks one of the three unique indexes, and every record stays what its artifact parses to |
| Ingestion.AcceptedRecordIsTheSubmittedOne | src/accounting_information_platform/bank_statement.py:555-645 | whichever lookup answers, the record returned has the submitted payload and identity, under an account with the submitted identifier and currency |
| Ingestion.ReplayLastsExactlyWhen | src/accounting_information_platform/bank_statement.py:555-615 | an accepted command gets the same record again later exactly when no other statement has taken its key and no other record its artifact |
| Ingestion.ReplayedKeyCanBeTaken | src/accounting_information_platform/bank_statement.py:555-615 | a concrete run: a command accepted by its artifact is refused later, once another statement has taken its key |
| Ingestion.FirstAcceptanceReplaysForever | src/accounting_information_platform/bank_statement.py:555-575 | the command that recorded a statement is replayed after any further commands |
| Ingestion.OwnReferenceExactlyWhen | src/accounting_information_platform/bank_statement.py:555-645 | an accepted command is answered with a record under the reference it names exactly when no record of its artifact is under another reference |
| Ingestion.SharedAccountAnswersForAnother | src/accounting_information_platform/bank_statement.py:574-585 | with two references for one account, the artifact lookup answers a command for one with the record of the other |
| Paging.CursorParsesBack | src/accounting_information_platform/accept.py:1224-1245 | a printed journal-list cursor parses back to the row key it came from, also when the reference holds a bar |
| Paging.CursorExactlyWhen | src/accounting_information_platform/accept.py:1224-1245 | a text is the cursor of a key exactly when it is a date, a bar and the reference, and the first bar is the one between them |
| Paging.AfterIsTheRest | src/accounting_information_platform/persistence.py:411-415 | the rows after a listed row's key are the rest of the list |
| Paging.PageIsTheStart | src/accounting_information_platform/persistence.py:379-478 | a page is the start of the list, and its next cursor, when there is one, selects the rest |
| Paging.FollowingListsEverything | src/accounting_information_platform/persistence.py:338-498 | following next_cursor lists every wanted row behind the cursor exactly once, by date and then by reference, in max(1, ceil(n / limit)) pages of which only the last is short |
| Matching.Propose | src/accounting_information_platform/reconciliation.py:194-285 | no decision on an entry with a positive amount breaks the rules its constructor checks |
| Matching.DecisionFollowsTheRules | src/accounting_information_platform/reconciliation.py:194-285 | every decision is the one the rules give, told without the filters: a match with the one rival under the strongest reference given, or under exact money and bounded date without any, when it agrees, and otherwise the exception that says what is wrong |
| Matching.RulesDecide | src/accounting_information_platform/reconciliation.py:194-285 | the rules leave no choice: no two decisions satisfy them |
| Matching.OrderDoesNotMatter | src/accounting_information_platform/reconciliation.py:194-285 | the decision does not depend on the order of the candidates |
| Matching.MoreCandidatesNeverChangeAMatch | src/accounting_information_platform/reconciliation.py:194-285 | more candidates can turn a match into an abstention, never into another match |
| Matching.StrongReferenceDecides | src/accounting_information_platform/reconciliation.py:212-246 | with a strong reference present a match is under that reference and on a candidate that carries it |
| AdjustingLines.ParseAdjustingJournalLines | src/accounting_information_platform/accept.py:1035-1109 | the loop over the lines accepts exactly the faultless balanced ones and otherwise blames the first fault |
| AdjustingLines.AcceptableExactlyWhen | src/accounting_information_platform/accept.py:1035-1109 | lines are accepted exactly when there are at least two, each an object with an account, a known side, a currency code and the text of a positive amount, all in one currency, and the numbers the texts denote balance |
| AdjustingLines.BooksWhatWasSent | src/accounting_information_platform/accept.py:1085-1105 | each accepted line is numbered by its place and books the number its text denotes to the account and the side it names |
| AdjustingLines.RefusalsAreTrue | src/accounting_information_platform/accept.py:1035-1109 | what a refusal says of the lines, or of the first wrong one, is so |
| AdjustingLines.AcceptedLinesAreAJournal | src/accounting_information_platform/accept.py:1085-1109 | accepted lines are at least two, numbered from one, one-sided and balanced, as the ledger asks of a journal |
| AdjustingLines.AcceptedLinesShareACurrency | src/accounting_information_platform/accept.py:1072-1078 | accepted lines are all in one currency |
| AdjustingLines.AcceptedLinesAreSound | src/accounting_information_platform/accept.py:1085-1109 | accepted lines are what the database asks of a journal exactly when their accounts are on the book's chart |
| AdjustingLines.ParsedLinesAreAcceptedExactlyWhen | src/accounting_information_platform/persistence.py:77-251 | an adjustment with lines the parser accepted is accepted exactly when its accounts are on the chart and nothing but its lines stands against it |
| AdjustingLines.ShapeIsNeverRefused | src/accounting_information_platform/persistence.py:5690-5740 | the tables never refuse such lines for their sides, their numbers or their balance |

## Left out

- HTTP routing, JSON documents, error wording and status codes.
- The database driver, sessions, row-level security and tenant provisioning; the PostgreSQL store is modelled for one tenant, and a book stands for its legal entity too.
- Concurrency: the post path and the close path lock different keys, so no mutual exclusion is claimed and commands are atomic steps.
- Outbox events, audit history and the published-event log, which no modelled decision reads.
- Retiring books, re-dating catalogue rows and mapping history: charts are fixed once a book is registered, and each account has one current role.
- AcceptedCommands.HardClosedExactlyWhen: whether the worksheets that the close binder loads beside the trial balance load is a flag of the close command.
- Currency conversion: a book has one currency, and the currency checks of the PostgreSQL post path are not modelled (those of the in-memory ledger are).
- Equivalence of the in-memory and the PostgreSQL ledger, which differ on purpose.
- Unapplied-cash and VAT registers, HomeTax submissions, billing pull and supply-chain checks, whose logic is field checks and string matching.
- The allocation and reconciliation-run modules, which are single-loop sums.
- Walking a statement tree to its fields, and normalising entries: ingestion takes the parser as a parameter.
- Expat's tokenising, namespace splitting of element names, UUID and ISO date parsing and regular expressions, which are parameters or predicates.
- Which periods a year-to-date statement covers, told from the year in the period codes: a scope is any set of periods, and the theorems on movements ask for one without holes.
- Stripping of white space around keys and codes: keys are taken as already stripped.
- SqlScanner.Lex: whether the text before a dollar-quoted string makes its body code, and which characters besides e and E are alphanumeric, are parameters.
- SnapshotOrder.HardCloseLastsExactlyWhenEarlierShut: asks that some account of the book has a role; a book without any role mapping takes no adjustment and no closing journal.
- Aging.FifoAgingOpenItems: open items are kept in a sequence that is updated by position, not in separately allocated lists.
- Paging.LoadPage: the store does not change between two pages, and the database's order of references is any strict total order.
