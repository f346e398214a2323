/** The balance sheet balances and carries the statement's closing equity, for
    open, soft-closed and hard-closed periods alike. */
module BalanceSheets {
  import opened Sums
  import opened JournalTables
  import opened ClosingJournal
  import opened BookStore
  import opened CloseInvariant
  import opened Statements

  /** The rows of a period's trial balance: the snapshot once the calendar shows
      the period hard-closed, the live ledger until then. */
  function PeriodTrialBalance(s: State, book: string, p: nat): Option<seq<Row>>
    requires book in s.charts && p < |s.periods|
  {
    if s.periods[p].status != HardClosed then Some(TrialBalance(s, book, s.periods[p].end))
    else if (book, p) in s.snapshots then Some(s.snapshots[(book, p)].rows)
    else None
  }

  datatype BalanceSheet = BalanceSheet(assets: int, liabilities: int, equity: int, netIncome: int)

  function BalanceSheetOf(s: State, book: string, p: nat): Option<BalanceSheet>
    requires book in s.charts && p < |s.periods|
  {
    var rows, chart := PeriodTrialBalance(s, book, p), s.charts[book];
    if rows.None? then None
    else
      Some(BalanceSheet(
        -Sum(rows.value, RowNet(HasClass(chart, {Asset}))),
        Sum(rows.value, RowNet(HasClass(chart, {Liability}))),
        Sum(rows.value, RowNet(EquityAccounts(chart))),
        if s.periods[p].status == HardClosed then 0 else NetIncome(s, book, {p})))
  }

  // -------------------------------------------------- closings have snapshots

  /** Every closing journal belongs to a book period whose snapshot is stored. */
  ghost predicate ClosingsBacked(s: State) {
    forall j :: j in s.journals && IsClosing(j.ref) ==> (j.book, j.period) in s.snapshots
  }

  lemma ReversalIsNoClosing(s: State, c: Command)
    requires Inv(s) && ClosingsBacked(s) && c.Reverse?
    ensures ClosingsBacked(ReverseStep(s, c).state)
  {
    if ReverseStep(s, c).reply.Accepted? {
      assert Keeps(JournalsPart, s) && JournalOk(s, JournalByRef(s.journals, c.original).value);
    }
  }

  lemma ClosingStepJournals(s: State, book: string, p: nat)
    requires book in s.charts && p < |s.periods|
    ensures var t := WithClosingJournal(s, book, p).state;
            && t == s.(journals := t.journals)
            && forall j :: j in t.journals ==> j in s.journals || (j.book == book && j.period == p)
  {
  }

  lemma FrozenBacks(s: State, posted: State, book: string, p: nat, key: Key)
    requires ClosingsBacked(s) && book in posted.charts && p < |posted.periods| && (book, p) in posted.controls
    requires posted.snapshots == s.snapshots
    requires forall j :: j in posted.journals ==> j in s.journals || (j.book == book && j.period == p)
    ensures ClosingsBacked(Frozen(posted, book, p, key))
  {
    FrozenShape(posted, book, p, key);
  }

  lemma PersistCloseBacks(s: State, book: string, p: nat, key: Key)
    requires ClosingsBacked(s) && book in s.charts && p < |s.periods| && (book, p) in s.controls
    ensures ClosingsBacked(PersistClose(s, book, p, key).state)
  {
    ClosingStepJournals(s, book, p);
    PersistCloseCases(s, book, p, key);
    FrozenBacks(s, WithClosingJournal(s, book, p).state, book, p, key);
  }

  lemma SoftCloseBacks(s: State, book: string, p: nat, key: Key)
    requires ClosingsBacked(s) && p < |s.periods|
    ensures ClosingsBacked(PersistSoftClose(s, book, p, key).state)
  {
  }

  lemma CloseLockedBacks(s: State, p: nat, c: Command)
    requires ClosingsBacked(s)
    requires c.Close? && c.status != Open && c.book in s.charts && p < |s.periods| && (c.book, p) in s.controls
    ensures ClosingsBacked(CloseLocked(s, p, c).state)
  {
    CloseLockedCases(s, p, c);
    SoftCloseBacks(s, c.book, p, c.key);
    PersistCloseBacks(s, c.book, p, c.key);
  }

  lemma CloseBacks(s: State, c: Command)
    requires ClosingsBacked(s) && c.Close?
    ensures ClosingsBacked(CloseStep(s, c).state)
  {
    var found := FindPeriod(s.periods, c.code);
    if c.status != Open && c.book in s.charts && found.Some? {
      var locked := Materialized(s, found.value);
      CloseLockedBacks(locked, found.value, c);
    }
  }

  lemma StepBacks(s: State, c: Command)
    requires Inv(s) && ClosingsBacked(s)
    ensures ClosingsBacked(Step(s, c).state)
  {
    if c.Close? {
      CloseBacks(s, c);
    } else if c.Reverse? {
      ReversalIsNoClosing(s, c);
    }
  }

  lemma {:induction false} RunBacks(closingWriter: bool, commands: seq<Command>)
    requires OrderlyRun(EmptyState(closingWriter), commands)
    ensures Inv(Run(EmptyState(closingWriter), commands)) && ClosingsBacked(Run(EmptyState(closingWriter), commands))
  {
    RunKeepsInv(closingWriter, commands);
    if commands != [] {
      var init := commands[..|commands| - 1];
      RunBacks(closingWriter, init);
      StepBacks(Run(EmptyState(closingWriter), init), commands[|commands| - 1]);
    }
  }

  // ------------------------------------------------------------ the equation

  /** A line is an asset, a liability, equity or income, and only one of them. */
  lemma LineIsOneClass(chart: Chart, l: Line)
    requires WellFormedChart(chart) && Listed(chart, l.account)
    ensures NetIn(Every())(l) ==
            NetIn(HasRole(chart, IncomeRoles()))(l) + NetIn(HasClass(chart, {Asset}))(l) +
            NetIn(HasClass(chart, {Liability}))(l) + NetIn(EquityAccounts(chart))(l)
  {
    WellFormedAccount(chart, l.account);
    CodeListed(chart, l.account);
    var class_ := Lookup(chart, l.account).value.class_;
    assert IncomeAccounts(chart)(l.account) == (class_ in {Revenue, Expense});
    assert HasClass(chart, {Asset})(l.account) == (class_ == Asset);
    assert HasClass(chart, {Liability})(l.account) == (class_ == Liability);
    assert EquityAccounts(chart)(l.account) == (class_ == Equity);
  }

  lemma ClassesNetToZero(s: State, book: string, date: Date)
    requires SoundLedger(s) && book in s.charts
    ensures var chart := s.charts[book];
            0 == IncomeTotal(chart, s.journals, Through(book, date)) +
                 LiveNet(s, book, date, HasClass(chart, {Asset})) +
                 LiveNet(s, book, date, HasClass(chart, {Liability})) + LiveNet(s, book, date, EquityAccounts(chart))
  {
    LedgerOf(s);
    var chart, sel := s.charts[book], Through(book, date);
    var income, assets := NetIn(HasRole(chart, IncomeRoles())), NetIn(HasClass(chart, {Asset}));
    var liabilities, equity := NetIn(HasClass(chart, {Liability})), NetIn(EquityAccounts(chart));
    forall j, l | j in s.journals && sel(j) && l in j.lines
      ensures NetIn(Every())(l) == Plus(income, assets)(l) + Plus(liabilities, equity)(l)
    {
      assert JournalOk(s, j);
      LineIsOneClass(chart, l);
    }
    PickedAdds(s.journals, sel, Plus(income, assets), Plus(liabilities, equity), NetIn(Every()));
    PickedAdds(s.journals, sel, income, assets, Plus(income, assets));
    PickedAdds(s.journals, sel, liabilities, equity, Plus(liabilities, equity));
    BalancedJournalsNet(s, sel);
  }

  lemma NoClosingsWithoutSnapshot(s: State, book: string, p: nat, w: Line -> int)
    requires ClosingsBacked(s) && (book, p) !in s.snapshots
    ensures Sum(s.journals, Picked(ClosingsIn(book, {p}), w)) == 0
  {
    SumNil(s.journals, Picked(ClosingsIn(book, {p}), w));
  }

  /** Until a period is closed, it moves every balance by its operational journals
      alone. */
  lemma OpenPeriodMovement(s: State, book: string, p: nat, w: Line -> int)
    requires Inv(s) && ClosingsBacked(s) && book in s.charts && p < |s.periods| && (book, p) !in s.snapshots
    ensures Sum(s.journals, Picked(Through(book, s.periods[p].end), w)) ==
            Sum(s.journals, Picked(Through(book, s.periods[p].start - 1), w)) +
            Sum(s.journals, Picked(Operational(book, {p}), w))
  {
    SinglePeriodContiguous(s, p);
    ScopeMovement(s, book, {p}, p, w);
    ScopeSplits(s, book, {p}, w);
    NoClosingsWithoutSnapshot(s, book, p, w);
  }

  /** Until the period is closed, its net income is the income standing at its end less
      what stood at its start, and nothing stood there when the past is closed. */
  lemma StandingIncome(s: State, book: string, p: nat)
    requires Inv(s) && ClosingsBacked(s) && book in s.charts && p < |s.periods| && (book, p) !in s.snapshots
    ensures var chart, period := s.charts[book], s.periods[p];
            && NetIncome(s, book, {p}) ==
               IncomeTotal(chart, s.journals, Through(book, period.end)) -
               IncomeTotal(chart, s.journals, Through(book, period.start - 1))
            && (ClosedBefore(s, period.start) ==>
                  IncomeTotal(chart, s.journals, Through(book, period.start - 1)) == 0)
  {
    SinglePeriodContiguous(s, p);
    if ClosedBefore(s, s.periods[p].start) {
      IncomeClearedBefore(s, book, {p}, p, s.periods[p].start);
    }
    OpenPeriodMovement(s, book, p, NetIn(HasRole(s.charts[book], IncomeRoles())));
    NetIncomeIsOperationalIncome(s, book, {p});
  }

  lemma LiveEquityWithoutClosing(s: State, book: string, p: nat)
    requires Inv(s) && ClosingsBacked(s) && book in s.charts && p < |s.periods| && (book, p) !in s.snapshots
    requires ClosedBefore(s, s.periods[p].start)
    ensures EarliestStart(s.periods, {p}).Some?
    ensures ChangesInEquity(s, book, {p}).closing ==
            LiveNet(s, book, s.periods[p].end, EquityAccounts(s.charts[book])) + NetIncome(s, book, {p})
  {
    SinglePeriodContiguous(s, p);
    OpeningIsLive(s, book, {p}, p, s.periods[p].start, EquityAccounts(s.charts[book]));
    OpenPeriodMovement(s, book, p, NetIn(EquityAccounts(s.charts[book])));
  }

  lemma LiveRowsNet(s: State, book: string, date: Date, accounts: string -> bool)
    requires SoundLedger(s) && book in s.charts
    ensures Sum(TrialBalance(s, book, date), RowNet(accounts)) == LiveNet(s, book, date, accounts)
  {
    LedgerOf(s);
    JournalsOnChart(s, book, Through(book, date));
    GroupedNet(s.charts[book], s.journals, Through(book, date), accounts);
  }

  /** The sheet's amounts are live balances at the period end. */
  lemma SheetIsLive(s: State, book: string, p: nat)
    requires Inv(s) && book in s.charts && p < |s.periods| && PeriodTrialBalance(s, book, p).Some?
    ensures var sheet, chart, end := BalanceSheetOf(s, book, p).value, s.charts[book], s.periods[p].end;
            && sheet.assets == -LiveNet(s, book, end, HasClass(chart, {Asset}))
            && sheet.liabilities == LiveNet(s, book, end, HasClass(chart, {Liability}))
            && sheet.equity == LiveNet(s, book, end, EquityAccounts(chart))
  {
    var chart, end := s.charts[book], s.periods[p].end;
    if s.periods[p].status == HardClosed {
      SnapshotNetIsLive(s, book, p, HasClass(chart, {Asset}));
      SnapshotNetIsLive(s, book, p, HasClass(chart, {Liability}));
      SnapshotNetIsLive(s, book, p, EquityAccounts(chart));
    } else {
      LiveRowsNet(s, book, end, HasClass(chart, {Asset}));
      LiveRowsNet(s, book, end, HasClass(chart, {Liability}));
      LiveRowsNet(s, book, end, EquityAccounts(chart));
    }
  }

  /** A sheet is missing only for a period that everybody has closed and in which the book
      has no journal. */
  lemma MissingSheetIsEmpty(s: State, book: string, p: nat)
    requires Inv(s) && book in s.charts && p < |s.periods| && BalanceSheetOf(s, book, p).None?
    ensures s.periods[p].status == HardClosed && (book, p) !in s.snapshots
    ensures forall j :: j in s.journals && j.book == book ==> j.period != p
  {
    forall j | j in s.journals && j.book == book ensures j.period != p {
      if j.period == p {
        ClosedPeriodHasSnapshot(s, j);
      }
    }
  }

  /** The net income line is exactly the income still standing in the ledger. */
  lemma SheetIncome(s: State, book: string, p: nat)
    requires Inv(s) && ClosingsBacked(s) && s.charts.Keys == {book} && p < |s.periods|
    requires ClosedBefore(s, s.periods[p].start) && PeriodTrialBalance(s, book, p).Some?
    ensures BalanceSheetOf(s, book, p).value.netIncome ==
            IncomeTotal(s.charts[book], s.journals, Through(book, s.periods[p].end))
  {
    OneBookCalendar(s, book, p);
    if s.periods[p].status == HardClosed {
      SnapshotCleared(s, book, p);
    } else {
      NotHardNoSnapshot(s, book, p);
      StandingIncome(s, book, p);
    }
  }

  /** Assets are liabilities plus equity plus net income, and equity plus net
      income is the closing equity of the statement of changes in equity. */
  lemma SheetTies(s: State, book: string, p: nat)
    requires Inv(s) && ClosingsBacked(s) && s.charts.Keys == {book} && p < |s.periods|
    requires ClosedBefore(s, s.periods[p].start) && PeriodTrialBalance(s, book, p).Some?
    ensures EarliestStart(s.periods, {p}).Some?
    ensures var sheet := BalanceSheetOf(s, book, p).value;
            && sheet.assets == sheet.liabilities + sheet.equity + sheet.netIncome
            && sheet.equity + sheet.netIncome == ChangesInEquity(s, book, {p}).closing
  {
    SheetIsLive(s, book, p);
    SheetIncome(s, book, p);
    ClassesNetToZero(s, book, s.periods[p].end);
    SinglePeriodContiguous(s, p);
    OneBookCalendar(s, book, p);
    if s.periods[p].status == HardClosed {
      ClosingEquityIsSnapshotEquity(s, book, {p}, p, s.periods[p].start);
    } else {
      NotHardNoSnapshot(s, book, p);
      LiveEquityWithoutClosing(s, book, p);
    }
  }

  /** Over every orderly run on a one-book tenant, for every period whose past
      is closed: the balance sheet balances, and it ties to the statement of
      changes in equity, before and after the close. */
  lemma BalanceSheetTies(closingWriter: bool, commands: seq<Command>, book: string, p: nat)
    requires OrderlyRun(EmptyState(closingWriter), commands)
    requires var s := Run(EmptyState(closingWriter), commands);
             s.charts.Keys == {book} && p < |s.periods| && ClosedBefore(s, s.periods[p].start)
             && BalanceSheetOf(s, book, p).Some?
    ensures var s := Run(EmptyState(closingWriter), commands);
            && EarliestStart(s.periods, {p}).Some?
            && var sheet := BalanceSheetOf(s, book, p).value;
               && sheet.assets == sheet.liabilities + sheet.equity + sheet.netIncome
               && sheet.equity + sheet.netIncome == ChangesInEquity(s, book, {p}).closing
  {
    RunBacks(closingWriter, commands);
    SheetTies(Run(EmptyState(closingWriter), commands), book, p);
  }
}
