/** The reports that start from a close snapshot, and why they agree with the
    ledger: equity carries from period to period and the indirect cash-flow
    statement ties to ledger cash. */
module Statements {
  import opened Sums
  import opened JournalTables
  import opened ClosingJournal
  import opened BookStore
  import opened CloseInvariant

  // ------------------------------------------------------------------ queries

  /** WHERE book AND fiscal_period_id = ANY(scope). */
  function InScope(book: string, scope: set<nat>): Journal -> bool {
    (j: Journal) => j.book == book && j.period in scope
  }

  /** ... AND journal_reference NOT LIKE the closing pattern. */
  function Operational(book: string, scope: set<nat>): Journal -> bool {
    (j: Journal) => j.book == book && j.period in scope && !IsClosing(j.ref)
  }

  function ClosingsIn(book: string, scope: set<nat>): Journal -> bool {
    (j: Journal) => j.book == book && j.period in scope && IsClosing(j.ref)
  }

  function EquityAccounts(chart: Chart): string -> bool {
    HasClass(chart, {Equity})
  }

  function IncomeAccounts(chart: Chart): string -> bool {
    HasClass(chart, {Revenue, Expense})
  }

  function CashAccounts(chart: Chart): string -> bool {
    HasRole(chart, {"cash_receipt"})
  }

  function WorkingCapitalAccounts(chart: Chart): string -> bool {
    (code: string) => HasClass(chart, {Asset, Liability})(code) && !CashAccounts(chart)(code)
  }

  lemma LookupFindsIt(chart: Chart, a: ChartAccount)
    requires DistinctCodes(chart) && a in chart
    ensures Lookup(chart, a.code) == Some(a)
  {
    CodeListed(chart, a.code);
    var i :| 0 <= i < |chart| && chart[i] == a;
    var found := Lookup(chart, a.code).value;
    var k :| 0 <= k < |chart| && chart[k] == found;
  }

  /** The accounts each line is about, told from the chart: cash by its role, the others by
      their class. */
  lemma AccountsOfTheLines(chart: Chart, a: ChartAccount)
    requires DistinctCodes(chart) && a in chart
    ensures CashAccounts(chart)(a.code) <==> a.role == Some("cash_receipt")
    ensures EquityAccounts(chart)(a.code) <==> a.class_ == Equity
    ensures IncomeAccounts(chart)(a.code) <==> a.class_ in {Revenue, Expense}
    ensures WorkingCapitalAccounts(chart)(a.code) <==>
              a.class_ in {Asset, Liability} && a.role != Some("cash_receipt")
  {
    LookupFindsIt(chart, a);
  }

  /** The live credit-less-debit balance through a date. */
  function LiveNet(s: State, book: string, date: Date, accounts: string -> bool): int {
    Sum(s.journals, Picked(Through(book, date), NetIn(accounts)))
  }

  predicate Qualifies(s: State, book: string, start: Date, p: nat)
    requires p < |s.periods|
  {
    s.periods[p].end < start && s.periods[p].status == HardClosed && (book, p) in s.snapshots
  }

  predicate NoLater(a: Period, b: Period) {
    a.end < b.end || (a.end == b.end && a.code <= b.code)
  }

  /** The latest qualifying snapshot among the first n periods. */
  function PriorAmong(s: State, book: string, start: Date, n: nat): (prior: Option<nat>)
    requires n <= |s.periods|
    ensures prior.Some? ==>
              && prior.value < n && Qualifies(s, book, start, prior.value)
              && forall q :: 0 <= q < n && Qualifies(s, book, start, q) ==>
                  NoLater(s.periods[q], s.periods[prior.value])
    ensures prior.None? ==> forall q :: 0 <= q < n ==> !Qualifies(s, book, start, q)
  {
    if n == 0 then None
    else
      var earlier := PriorAmong(s, book, start, n - 1);
      if !Qualifies(s, book, start, n - 1) then earlier
      else if earlier.Some? && !NoLater(s.periods[earlier.value], s.periods[n - 1]) then earlier
      else Some(n - 1)
  }

  function PriorSnapshot(s: State, book: string, start: Date): Option<nat> {
    PriorAmong(s, book, start, |s.periods|)
  }

  /** Everybody has closed the period, it ended before the date, and the book's snapshot
      of it is stored. */
  predicate ClosedWithSnapshot(s: State, book: string, date: Date, p: nat) {
    p < |s.periods| && s.periods[p].status == HardClosed && s.periods[p].end < date && (book, p) in s.snapshots
  }

  /** The prior snapshot is that of the last such period. */
  lemma PriorSnapshotIsTheLast(s: State, book: string, start: Date)
    requires PeriodsOk(s)
    ensures PriorSnapshot(s, book, start).None? <==> forall q: nat :: !ClosedWithSnapshot(s, book, start, q)
    ensures forall p: nat :: PriorSnapshot(s, book, start) == Some(p) <==>
              && ClosedWithSnapshot(s, book, start, p)
              && forall q: nat :: ClosedWithSnapshot(s, book, start, q) && q != p ==>
                   s.periods[q].end < s.periods[p].start
  {
    var prior := PriorSnapshot(s, book, start);
    forall q: nat | q < |s.periods| ensures Qualifies(s, book, start, q) <==> ClosedWithSnapshot(s, book, start, q) {
    }
    if prior.Some? {
      forall q: nat | ClosedWithSnapshot(s, book, start, q) && q != prior.value
        ensures s.periods[q].end < s.periods[prior.value].start
      {
        assert Disjoint(s.periods[q], s.periods[prior.value]);
      }
      assert s.periods[prior.value].start <= s.periods[prior.value].end;
    }
    forall p: nat | ClosedWithSnapshot(s, book, start, p) &&
        forall q: nat :: ClosedWithSnapshot(s, book, start, q) && q != p ==> s.periods[q].end < s.periods[p].start
      ensures prior == Some(p)
    {
      assert prior.Some?;
      assert s.periods[p].start <= s.periods[p].end;
    }
  }

  /** The opening net of the statements: from the prior snapshot, else live. */
  function OpeningNet(s: State, book: string, start: Date, accounts: string -> bool): int {
    var prior := PriorSnapshot(s, book, start);
    if prior.Some? then Sum(s.snapshots[(book, prior.value)].rows, RowNet(accounts))
    else LiveNet(s, book, start - 1, accounts)
  }

  /** The opening side of one account in the rollforward. */
  function OpeningSide(s: State, book: string, start: Date, side: Side, code: string): int {
    var prior := PriorSnapshot(s, book, start);
    if prior.Some? then Sum(s.snapshots[(book, prior.value)].rows, RowIn(side, Only(code)))
    else SideTotal(s.journals, Through(book, start - 1), side, code)
  }

  /** MIN(period_start_date) over the scope. */
  function EarliestStart(ps: seq<Period>, scope: set<nat>): (first: Option<Date>)
    ensures first.None? <==> forall p :: 0 <= p < |ps| ==> p !in scope
    ensures first.Some? ==> exists p :: 0 <= p < |ps| && p in scope && ps[p].start == first.value
    ensures first.Some? ==> forall p :: 0 <= p < |ps| && p in scope ==> first.value <= ps[p].start
  {
    if ps == [] then None
    else
      var n := |ps| - 1;
      var rest := EarliestStart(ps[..n], scope);
      if n !in scope then rest
      else if rest.Some? && rest.value <= ps[n].start then rest
      else Some(ps[n].start)
  }

  /** Net income: grouped per account by the database, then added up. */
  function NetIncome(s: State, book: string, scope: set<nat>): int
    requires book in s.charts
  {
    Sum(Rows(s.charts[book], s.journals, Operational(book, scope)), RowNet(IncomeAccounts(s.charts[book])))
  }

  function OtherEquity(s: State, book: string, scope: set<nat>): int
    requires book in s.charts
  {
    Sum(s.journals, Picked(Operational(book, scope), NetIn(EquityAccounts(s.charts[book]))))
  }

  function WorkingCapital(s: State, book: string, scope: set<nat>): int
    requires book in s.charts
  {
    Sum(s.journals, Picked(Operational(book, scope), NetIn(WorkingCapitalAccounts(s.charts[book]))))
  }

  datatype EquityStatement = EquityStatement(opening: int, netIncome: int, other: int, closing: int)

  function ChangesInEquity(s: State, book: string, scope: set<nat>): EquityStatement
    requires book in s.charts && EarliestStart(s.periods, scope).Some?
  {
    var opening := OpeningNet(s, book, EarliestStart(s.periods, scope).value, EquityAccounts(s.charts[book]));
    var netIncome := NetIncome(s, book, scope);
    var other := OtherEquity(s, book, scope);
    EquityStatement(opening, netIncome, other, opening + netIncome + other)
  }

  datatype CashFlow = CashFlow(
    netIncome: int, workingCapital: int, operations: int, investing: int, financing: int,
    netChange: int, opening: int, closing: int)

  /** The indirect method of IAS 7: the cash account itself is never summed over
      the period. */
  function CashFlowStatement(s: State, book: string, scope: set<nat>): CashFlow
    requires book in s.charts && EarliestStart(s.periods, scope).Some?
  {
    var netIncome := NetIncome(s, book, scope);
    var workingCapital := WorkingCapital(s, book, scope);
    var operations := netIncome + workingCapital;
    var investing := 0;
    var financing := OtherEquity(s, book, scope);
    var netChange := operations + investing + financing;
    var opening := -OpeningNet(s, book, EarliestStart(s.periods, scope).value, CashAccounts(s.charts[book]));
    CashFlow(netIncome, workingCapital, operations, investing, financing, netChange, opening, opening + netChange)
  }

  /** The equity total of a stored snapshot. */
  function SnapshotEquity(s: State, book: string, p: nat): int
    requires (book, p) in s.snapshots && book in s.charts
  {
    Sum(s.snapshots[(book, p)].rows, RowNet(EquityAccounts(s.charts[book])))
  }

  // ----------------------------------------------------- openings and cutoffs

  predicate NothingBetween(s: State, book: string, after: Date, before: Date) {
    forall j :: j in s.journals && j.book == book ==> !(after < j.date < before)
  }

  /** The last date an opening amount covers. */
  function Cutoff(s: State, book: string, start: Date): Date {
    var prior := PriorSnapshot(s, book, start);
    if prior.Some? then s.periods[prior.value].end else start - 1
  }

  lemma SnapshotNetIsLive(s: State, book: string, p: nat, accounts: string -> bool)
    requires Inv(s) && (book, p) in s.snapshots
    ensures book in s.charts && p < |s.periods|
    ensures Sum(s.snapshots[(book, p)].rows, RowNet(accounts)) == LiveNet(s, book, s.periods[p].end, accounts)
    ensures forall side, code :: Sum(s.snapshots[(book, p)].rows, RowIn(side, Only(code))) ==
                                 SideTotal(s.journals, Through(book, s.periods[p].end), side, code)
  {
    ControlOf(s);
    RecordsOf(s);
    assert SnapshotOk(s, book, p);
    var sel := Through(book, s.periods[p].end);
    JournalsOnChart(s, book, sel);
    GroupedNet(s.charts[book], s.journals, sel, accounts);
    forall side, code
      ensures Sum(s.snapshots[(book, p)].rows, RowIn(side, Only(code))) == SideTotal(s.journals, sel, side, code)
    {
      GroupedTotal(s.charts[book], s.journals, sel, side, Only(code));
    }
  }

  /** An opening amount is the live balance as of its cutoff. */
  lemma OpeningIsCutoffBalance(s: State, book: string, start: Date, accounts: string -> bool)
    requires Inv(s) && book in s.charts
    ensures OpeningNet(s, book, start, accounts) == LiveNet(s, book, Cutoff(s, book, start), accounts)
    ensures forall side, code :: OpeningSide(s, book, start, side, code) ==
                                 SideTotal(s.journals, Through(book, Cutoff(s, book, start)), side, code)
  {
    var prior := PriorSnapshot(s, book, start);
    if prior.Some? {
      SnapshotNetIsLive(s, book, prior.value, accounts);
    }
  }

  lemma QuietGap(s: State, book: string, lo: Date, hi: Date, w: Line -> int)
    requires lo < hi && NothingBetween(s, book, lo, hi)
    ensures Sum(s.journals, Picked(Through(book, lo), w)) == Sum(s.journals, Picked(Through(book, hi - 1), w))
  {
    PickedAgree(s.journals, Through(book, lo), Through(book, hi - 1), w);
  }

  function Between(book: string, lo: Date, hi: Date): Journal -> bool {
    (j: Journal) => j.book == book && lo < j.date < hi
  }

  /** A journal in the gap adds to one side of one account. */
  lemma LaterJournalShows(s: State, book: string, lo: Date, hi: Date, j: Journal, side: Side, l: Line)
    requires j in s.journals && j.book == book && lo < j.date < hi && l in j.lines
    requires if side == Dr then l.debit > 0 else l.credit > 0
    ensures SideTotal(s.journals, Through(book, lo), side, l.account) <
            SideTotal(s.journals, Through(book, hi - 1), side, l.account)
  {
    var w := LineIn(side, Only(l.account));
    PickedSplit(s.journals, Through(book, lo), Between(book, lo, hi), Through(book, hi - 1), w);
    forall x: Line ensures w(x) >= 0 {
      assert x.debit >= 0 && x.credit >= 0;
    }
    SumNatural(j.lines, w);
    assert w(l) > 0;
    PickedNatural(s.journals, Between(book, lo, hi), w);
  }

  /** The opening sides of the rollforward agree with the ledger, account by
      account, exactly when no journal falls between the prior snapshot and the
      start of the scope. */
  lemma OpeningSidesExact(s: State, book: string, start: Date)
    requires Inv(s) && book in s.charts
    ensures NothingBetween(s, book, Cutoff(s, book, start), start) <==>
            forall side, code :: OpeningSide(s, book, start, side, code) ==
                                 SideTotal(s.journals, Through(book, start - 1), side, code)
  {
    var cut := Cutoff(s, book, start);
    OpeningIsCutoffBalance(s, book, start, Every());
    if NothingBetween(s, book, cut, start) {
      forall side, code
        ensures OpeningSide(s, book, start, side, code) == SideTotal(s.journals, Through(book, start - 1), side, code)
      {
        QuietGap(s, book, cut, start, LineIn(side, Only(code)));
      }
    } else {
      var j :| j in s.journals && j.book == book && cut < j.date < start;
      assert Keeps(JournalsPart, s) && JournalOk(s, j);
      var l := j.lines[0];
      var side := if l.debit > 0 then Dr else Cr;
      LaterJournalShows(s, book, cut, start, j, side, l);
      assert OpeningSide(s, book, start, side, l.account) !=
             SideTotal(s.journals, Through(book, start - 1), side, l.account);
    }
  }

  // ---------------------------------------------------------- scopes and dates

  /** A scope of periods with no holes that ends with period p. */
  ghost predicate Contiguous(s: State, scope: set<nat>, p: nat) {
    && p < |s.periods| && p in scope
    && EarliestStart(s.periods, scope).Some?
    && forall q :: 0 <= q < |s.periods| ==>
         (q in scope <==> EarliestStart(s.periods, scope).value <= s.periods[q].start <= s.periods[p].start)
  }

  lemma SinglePeriodContiguous(s: State, p: nat)
    requires Inv(s) && p < |s.periods|
    ensures Contiguous(s, {p}, p) && EarliestStart(s.periods, {p}) == Some(s.periods[p].start)
  {
    assert Keeps(PeriodsPart, s);
    assert p in {p};
    forall q | 0 <= q < |s.periods| && q != p ensures s.periods[q].start != s.periods[p].start {
      assert Disjoint(s.periods[q], s.periods[p]);
    }
  }

  /** Every period before the scope is hard-closed on the calendar. */
  predicate ClosedBefore(s: State, start: Date) {
    forall q :: 0 <= q < |s.periods| && s.periods[q].start < start ==> s.periods[q].status == HardClosed
  }

  /** A journal's date lies in the period it is booked to, and periods do not
      overlap. */
  lemma JournalInPeriod(s: State, j: Journal)
    requires SoundLedger(s) && j in s.journals
    ensures j.period < |s.periods| && Covers(s.periods[j.period], j.date)
  {
    assert Keeps(JournalsPart, s) && JournalOk(s, j);
  }

  lemma PeriodsApart(s: State, p: nat, q: nat)
    requires SoundLedger(s) && p < |s.periods| && q < |s.periods|
    ensures s.periods[p].start <= s.periods[p].end && s.periods[q].start <= s.periods[q].end
    ensures p == q || Disjoint(s.periods[p], s.periods[q])
  {
    assert Keeps(PeriodsPart, s);
  }

  lemma FirstOfScope(s: State, scope: set<nat>) returns (first: nat)
    requires EarliestStart(s.periods, scope).Some?
    ensures first < |s.periods| && first in scope
    ensures s.periods[first].start == EarliestStart(s.periods, scope).value
  {
    first :| 0 <= first < |s.periods| && first in scope &&
             s.periods[first].start == EarliestStart(s.periods, scope).value;
  }

  /** By date or by period id: both ways of selecting a scope agree. */
  lemma ScopeByDate(s: State, book: string, scope: set<nat>, p: nat, j: Journal)
    requires SoundLedger(s) && Contiguous(s, scope, p) && j in s.journals
    ensures var start := EarliestStart(s.periods, scope).value;
            j.period in scope <==> start <= j.date <= s.periods[p].end
  {
    var first := FirstOfScope(s, scope);
    JournalInPeriod(s, j);
    PeriodsApart(s, j.period, first);
    PeriodsApart(s, j.period, p);
  }

  lemma ScopeMovement(s: State, book: string, scope: set<nat>, p: nat, w: Line -> int)
    requires SoundLedger(s) && Contiguous(s, scope, p)
    ensures Sum(s.journals, Picked(Through(book, s.periods[p].end), w)) ==
            Sum(s.journals, Picked(Through(book, EarliestStart(s.periods, scope).value - 1), w)) +
            Sum(s.journals, Picked(InScope(book, scope), w))
  {
    var start, end := EarliestStart(s.periods, scope).value, s.periods[p].end;
    PeriodsApart(s, p, p);
    forall j | j in s.journals
      ensures Through(book, end)(j) == (Through(book, start - 1)(j) || InScope(book, scope)(j))
      ensures !(Through(book, start - 1)(j) && InScope(book, scope)(j))
    {
      ScopeByDate(s, book, scope, p, j);
      assert start <= s.periods[p].start <= end;
    }
    PickedSplit(s.journals, Through(book, start - 1), InScope(book, scope), Through(book, end), w);
  }

  lemma PeriodBehindScope(s: State, scope: set<nat>, p: nat, start: Date, j: Journal)
    requires SoundLedger(s) && Contiguous(s, scope, p) && j in s.journals
    requires EarliestStart(s.periods, scope) == Some(start) && j.date < start
    ensures j.period < |s.periods| && s.periods[j.period].start <= s.periods[j.period].end < start
  {
    var first := FirstOfScope(s, scope);
    JournalInPeriod(s, j);
    PeriodsApart(s, j.period, first);
  }

  /** A period that is closed for everybody and holds journals of a book was closed
      for that book, with a snapshot. */
  lemma ClosedPeriodHasSnapshot(s: State, j: Journal)
    requires Inv(s) && j in s.journals && j.book in s.charts
    requires j.period < |s.periods| && s.periods[j.period].status == HardClosed
    ensures (j.book, j.period) in s.snapshots
  {
    assert Keeps(CalendarPart, s) && Keeps(QuietPart, s);
    assert ShowsLeastClosed(s, j.period);
  }

  /** When everything before the scope is closed, every earlier journal is
      covered by the prior snapshot. */
  lemma EarlierJournalIsCovered(s: State, book: string, scope: set<nat>, p: nat, start: Date, j: Journal)
    requires Inv(s) && book in s.charts && Contiguous(s, scope, p)
    requires EarliestStart(s.periods, scope) == Some(start) && ClosedBefore(s, start)
    requires j in s.journals && j.book == book && j.date < start
    ensures PriorSnapshot(s, book, start).Some? && j.date <= Cutoff(s, book, start)
  {
    JournalInPeriod(s, j);
    PeriodBehindScope(s, scope, p, start, j);
    ClosedPeriodHasSnapshot(s, j);
    assert Qualifies(s, book, start, j.period);
  }

  lemma CutoffBeforeStart(s: State, book: string, start: Date)
    ensures Cutoff(s, book, start) < start
  {
  }

  lemma NothingUncovered(s: State, book: string, scope: set<nat>, p: nat, start: Date)
    requires Inv(s) && book in s.charts && Contiguous(s, scope, p)
    requires EarliestStart(s.periods, scope) == Some(start) && ClosedBefore(s, start)
    ensures NothingBetween(s, book, Cutoff(s, book, start), start)
  {
    forall j | j in s.journals && j.book == book && j.date < start ensures j.date <= Cutoff(s, book, start) {
      EarlierJournalIsCovered(s, book, scope, p, start, j);
    }
  }

  /** Under the same premise the statements open with the live balance. */
  lemma OpeningIsLive(s: State, book: string, scope: set<nat>, p: nat, start: Date, accounts: string -> bool)
    requires Inv(s) && book in s.charts && Contiguous(s, scope, p)
    requires EarliestStart(s.periods, scope) == Some(start) && ClosedBefore(s, start)
    ensures OpeningNet(s, book, start, accounts) == LiveNet(s, book, start - 1, accounts)
  {
    NothingUncovered(s, book, scope, p, start);
    CutoffBeforeStart(s, book, start);
    OpeningIsCutoffBalance(s, book, start, accounts);
    QuietGap(s, book, Cutoff(s, book, start), start, NetIn(accounts));
  }

  lemma NothingBefore(s: State, book: string, scope: set<nat>, p: nat, start: Date, w: Line -> int)
    requires Inv(s) && book in s.charts && Contiguous(s, scope, p)
    requires EarliestStart(s.periods, scope) == Some(start) && ClosedBefore(s, start)
    requires PriorSnapshot(s, book, start).None?
    ensures Sum(s.journals, Picked(Through(book, start - 1), w)) == 0
  {
    forall j | j in s.journals ensures !Through(book, start - 1)(j) {
      if j.book == book && j.date < start {
        EarlierJournalIsCovered(s, book, scope, p, start, j);
      }
    }
    SumNil(s.journals, Picked(Through(book, start - 1), w));
  }

  lemma ClearedAtCutoff(s: State, book: string, start: Date)
    requires Inv(s) && PriorSnapshot(s, book, start).Some?
    ensures book in s.charts && IncomeCleared(s, book, Cutoff(s, book, start))
  {
    assert Keeps(SnapshotsPart, s) && SnapshotOk(s, book, PriorSnapshot(s, book, start).value);
  }

  /** ... and no income is left open before the scope. */
  lemma IncomeClearedBefore(s: State, book: string, scope: set<nat>, p: nat, start: Date)
    requires Inv(s) && book in s.charts && Contiguous(s, scope, p)
    requires EarliestStart(s.periods, scope) == Some(start) && ClosedBefore(s, start)
    ensures IncomeCleared(s, book, start - 1)
  {
    var w := NetIn(HasRole(s.charts[book], IncomeRoles()));
    if PriorSnapshot(s, book, start).Some? {
      ClearedAtCutoff(s, book, start);
      NothingUncovered(s, book, scope, p, start);
      CutoffBeforeStart(s, book, start);
      QuietGap(s, book, Cutoff(s, book, start), start, w);
    } else {
      NothingBefore(s, book, scope, p, start, w);
    }
  }

  // ------------------------------------------------ classes of the line items

  lemma WellFormedAccount(chart: Chart, code: string)
    requires WellFormedChart(chart) && Listed(chart, code)
    ensures IncomeAccounts(chart)(code) == HasRole(chart, IncomeRoles())(code)
    ensures CashAccounts(chart)(code) ==> HasClass(chart, {Asset})(code)
    ensures code == RETAINED_EARNINGS ==> EquityAccounts(chart)(code)
  {
    CodeListed(chart, code);
  }

  /** Grouping first makes no difference to net income. */
  lemma NetIncomeIsOperationalIncome(s: State, book: string, scope: set<nat>)
    requires SoundLedger(s) && book in s.charts
    ensures NetIncome(s, book, scope) ==
            Sum(s.journals, Picked(Operational(book, scope), NetIn(HasRole(s.charts[book], IncomeRoles()))))
  {
    LedgerOf(s);
    var chart, sel := s.charts[book], Operational(book, scope);
    JournalsOnChart(s, book, sel);
    GroupedNet(chart, s.journals, sel, IncomeAccounts(chart));
    forall j, l | j in s.journals && sel(j) && l in j.lines
      ensures NetIn(IncomeAccounts(chart))(l) == NetIn(HasRole(chart, IncomeRoles()))(l)
    {
      WellFormedAccount(chart, l.account);
    }
    PickedSame(s.journals, sel, NetIn(IncomeAccounts(chart)), NetIn(HasRole(chart, IncomeRoles())));
  }

  lemma ClosingLineAccounts(s: State, j: Journal, l: Line)
    requires PeriodsOk(s) && JournalOk(s, j) && IsClosing(j.ref) && l in j.lines
    ensures var chart := s.charts[j.book];
            EquityAccounts(chart)(l.account) != HasRole(chart, IncomeRoles())(l.account)
  {
    var chart := s.charts[j.book];
    WellFormedAccount(chart, l.account);
    CodeListed(chart, l.account);
  }

  lemma BalancedJournalsNet(s: State, sel: Journal -> bool)
    requires SoundLedger(s)
    ensures Sum(s.journals, Picked(sel, NetIn(Every()))) == 0
  {
    LedgerOf(s);
    forall j | j in s.journals ensures Picked(sel, NetIn(Every()))(j) == 0 {
      assert JournalOk(s, j);
    }
    SumNil(s.journals, Picked(sel, NetIn(Every())));
  }

  /** Closing journals move income into equity, unit for unit. */
  lemma ClosingsMoveIncomeToEquity(s: State, book: string, scope: set<nat>)
    requires SoundLedger(s) && book in s.charts
    ensures Sum(s.journals, Picked(ClosingsIn(book, scope), NetIn(EquityAccounts(s.charts[book])))) ==
            -Sum(s.journals, Picked(ClosingsIn(book, scope), NetIn(HasRole(s.charts[book], IncomeRoles()))))
  {
    LedgerOf(s);
    var chart, sel := s.charts[book], ClosingsIn(book, scope);
    var equity, income := NetIn(EquityAccounts(chart)), NetIn(HasRole(chart, IncomeRoles()));
    forall j, l | j in s.journals && sel(j) && l in j.lines
      ensures NetIn(Every())(l) == equity(l) + income(l)
    {
      assert JournalOk(s, j);
      ClosingLineAccounts(s, j, l);
    }
    PickedAdds(s.journals, sel, equity, income, NetIn(Every()));
    BalancedJournalsNet(s, sel);
  }

  lemma ScopeSplits(s: State, book: string, scope: set<nat>, w: Line -> int)
    ensures Sum(s.journals, Picked(InScope(book, scope), w)) ==
            Sum(s.journals, Picked(Operational(book, scope), w)) + Sum(s.journals, Picked(ClosingsIn(book, scope), w))
  {
    PickedSplit(s.journals, Operational(book, scope), ClosingsIn(book, scope), InScope(book, scope), w);
  }

  // ----------------------------------------------------------------- equity

  /** Between two dates at which income is cleared, equity moves by net income
      and the other equity movements. */
  lemma EquityOverScope(s: State, book: string, scope: set<nat>, p: nat, start: Date)
    requires Inv(s) && book in s.charts && Contiguous(s, scope, p)
    requires EarliestStart(s.periods, scope) == Some(start)
    requires IncomeCleared(s, book, start - 1) && IncomeCleared(s, book, s.periods[p].end)
    ensures var equity := EquityAccounts(s.charts[book]);
            LiveNet(s, book, s.periods[p].end, equity) ==
            LiveNet(s, book, start - 1, equity) + NetIncome(s, book, scope) + OtherEquity(s, book, scope)
  {
    var equity, income := NetIn(EquityAccounts(s.charts[book])), NetIn(HasRole(s.charts[book], IncomeRoles()));
    ScopeMovement(s, book, scope, p, equity);
    ScopeMovement(s, book, scope, p, income);
    ScopeSplits(s, book, scope, equity);
    ScopeSplits(s, book, scope, income);
    ClosingsMoveIncomeToEquity(s, book, scope);
    NetIncomeIsOperationalIncome(s, book, scope);
  }

  lemma SnapshotCleared(s: State, book: string, p: nat)
    requires Inv(s) && (book, p) in s.snapshots
    ensures book in s.charts && p < |s.periods| && IncomeCleared(s, book, s.periods[p].end)
  {
    assert Keeps(SnapshotsPart, s) && SnapshotOk(s, book, p);
  }

  /** The closing equity that the statement reports is the snapshot's equity
      total, for a single period or a year to date. */
  lemma ClosingEquityIsSnapshotEquity(s: State, book: string, scope: set<nat>, p: nat, start: Date)
    requires Inv(s) && (book, p) in s.snapshots && book in s.charts && Contiguous(s, scope, p)
    requires EarliestStart(s.periods, scope) == Some(start) && ClosedBefore(s, start)
    ensures ChangesInEquity(s, book, scope).closing == SnapshotEquity(s, book, p)
  {
    SnapshotCleared(s, book, p);
    OpeningIsLive(s, book, scope, p, start, EquityAccounts(s.charts[book]));
    IncomeClearedBefore(s, book, scope, p, start);
    EquityOverScope(s, book, scope, p, start);
    SnapshotNetIsLive(s, book, p, EquityAccounts(s.charts[book]));
  }

  /** The next period opens from this snapshot when no other period lies between. */
  lemma NextOpensFromSnapshot(s: State, book: string, p: nat, next: nat)
    requires Inv(s) && p < |s.periods| && next < |s.periods|
    requires (book, p) in s.snapshots && s.periods[p].status == HardClosed
    requires s.periods[p].start < s.periods[next].start
    requires forall q :: 0 <= q < |s.periods| ==> !(s.periods[p].start < s.periods[q].start < s.periods[next].start)
    ensures PriorSnapshot(s, book, s.periods[next].start) == Some(p)
  {
    var start := s.periods[next].start;
    assert Keeps(PeriodsPart, s) && Disjoint(s.periods[p], s.periods[next]);
    assert Qualifies(s, book, start, p);
    var q := PriorSnapshot(s, book, start).value;
    assert q == p || Disjoint(s.periods[p], s.periods[q]);
  }

  /** With one active book the calendar is that book's own status. */
  lemma OneBookCalendar(s: State, book: string, q: nat)
    requires Inv(s) && s.charts.Keys == {book} && q < |s.periods|
    ensures s.periods[q].status == HardClosed <==> Effective(s, book, q) == HardClosed
  {
    assert Keeps(CalendarPart, s) && ShowsLeastClosed(s, q);
    assert forall b :: b in s.charts <==> b == book;
  }

  lemma HardClosedHasClosedPast(s: State, book: string, p: nat)
    requires Inv(s) && s.charts.Keys == {book} && (book, p) in s.snapshots
    ensures p < |s.periods| && s.periods[p].status == HardClosed && ClosedBefore(s, s.periods[p].start)
  {
    assert Keeps(OrderPart, s);
    assert Keeps(SnapshotsPart, s) && SnapshotOk(s, book, p);
    OneBookCalendar(s, book, p);
    assert EarlierHard(s, book, p);
    forall q | 0 <= q < |s.periods| && s.periods[q].start < s.periods[p].start
      ensures s.periods[q].status == HardClosed
    {
      OneBookCalendar(s, book, q);
    }
  }

  /** Equity articulates over every run of commands on a one-book tenant: each
      hard-closed period reports as closing equity what its snapshot holds, and
      the next period reports the same amount as opening equity. */
  lemma EquityArticulates(closingWriter: bool, commands: seq<Command>, book: string, p: nat)
    requires OrderlyRun(EmptyState(closingWriter), commands)
    requires var s := Run(EmptyState(closingWriter), commands);
             s.charts.Keys == {book} && (book, p) in s.snapshots
    ensures var s := Run(EmptyState(closingWriter), commands);
            && p < |s.periods| && EarliestStart(s.periods, {p}).Some?
            && ChangesInEquity(s, book, {p}).closing == SnapshotEquity(s, book, p)
            && forall next ::
                 0 <= next < |s.periods| && s.periods[p].start < s.periods[next].start &&
                 (forall q :: 0 <= q < |s.periods| ==>
                    !(s.periods[p].start < s.periods[q].start < s.periods[next].start)) ==>
                   && EarliestStart(s.periods, {next}).Some?
                   && ChangesInEquity(s, book, {next}).opening == ChangesInEquity(s, book, {p}).closing
  {
    var s := Run(EmptyState(closingWriter), commands);
    RunKeepsInv(closingWriter, commands);
    HardClosedHasClosedPast(s, book, p);
    SinglePeriodContiguous(s, p);
    ClosingEquityIsSnapshotEquity(s, book, {p}, p, s.periods[p].start);
    forall next |
      0 <= next < |s.periods| && s.periods[p].start < s.periods[next].start &&
      (forall q :: 0 <= q < |s.periods| ==> !(s.periods[p].start < s.periods[q].start < s.periods[next].start))
      ensures EarliestStart(s.periods, {next}).Some?
      ensures ChangesInEquity(s, book, {next}).opening == SnapshotEquity(s, book, p)
    {
      SinglePeriodContiguous(s, next);
      NextOpensFromSnapshot(s, book, p, next);
    }
  }

  // -------------------------------------------------------------- cash flow

  /** A line is income, working capital, equity or cash, and only one of them. */
  lemma LineClasses(chart: Chart, l: Line)
    requires WellFormedChart(chart) && Listed(chart, l.account)
    ensures NetIn(Every())(l) ==
            NetIn(HasRole(chart, IncomeRoles()))(l) + NetIn(WorkingCapitalAccounts(chart))(l) +
            NetIn(EquityAccounts(chart))(l) + NetIn(CashAccounts(chart))(l)
  {
    WellFormedAccount(chart, l.account);
    CodeListed(chart, l.account);
    var class_ := Lookup(chart, l.account).value.class_;
    assert IncomeAccounts(chart)(l.account) == (class_ in {Revenue, Expense});
    assert HasClass(chart, {Asset, Liability})(l.account) == (class_ in {Asset, Liability});
    assert EquityAccounts(chart)(l.account) == (class_ == Equity);
    assert CashAccounts(chart)(l.account) ==> class_ == Asset;
  }

  function Plus(f: Line -> int, g: Line -> int): Line -> int {
    (l: Line) => f(l) + g(l)
  }

  lemma OperationalNetIsZero(s: State, book: string, scope: set<nat>)
    requires SoundLedger(s) && book in s.charts
    ensures var chart, sel := s.charts[book], Operational(book, scope);
            0 == Sum(s.journals, Picked(sel, NetIn(HasRole(chart, IncomeRoles())))) +
                 Sum(s.journals, Picked(sel, NetIn(WorkingCapitalAccounts(chart)))) +
                 Sum(s.journals, Picked(sel, NetIn(EquityAccounts(chart)))) +
                 Sum(s.journals, Picked(sel, NetIn(CashAccounts(chart))))
  {
    LedgerOf(s);
    var chart, sel := s.charts[book], Operational(book, scope);
    var income, capital := NetIn(HasRole(chart, IncomeRoles())), NetIn(WorkingCapitalAccounts(chart));
    var equity, cash := NetIn(EquityAccounts(chart)), NetIn(CashAccounts(chart));
    forall j, l | j in s.journals && sel(j) && l in j.lines
      ensures NetIn(Every())(l) == Plus(income, capital)(l) + Plus(equity, cash)(l)
    {
      assert JournalOk(s, j);
      LineClasses(chart, l);
    }
    PickedAdds(s.journals, sel, Plus(income, capital), Plus(equity, cash), NetIn(Every()));
    PickedAdds(s.journals, sel, income, capital, Plus(income, capital));
    PickedAdds(s.journals, sel, equity, cash, Plus(equity, cash));
    BalancedJournalsNet(s, sel);
  }

  /** Accounts that are neither equity nor income. */
  ghost predicate Unclosed(chart: Chart, accounts: string -> bool) {
    forall code :: accounts(code) ==> !EquityAccounts(chart)(code) && !HasRole(chart, IncomeRoles())(code)
  }

  lemma ClosingsLeave(s: State, book: string, scope: set<nat>, accounts: string -> bool)
    requires SoundLedger(s) && book in s.charts && Unclosed(s.charts[book], accounts)
    ensures Sum(s.journals, Picked(ClosingsIn(book, scope), NetIn(accounts))) == 0
  {
    LedgerOf(s);
    var sel, w := ClosingsIn(book, scope), NetIn(accounts);
    forall j | j in s.journals ensures Picked(sel, w)(j) == 0 {
      if sel(j) {
        assert JournalOk(s, j);
        forall l | l in j.lines ensures w(l) == 0 {
          ClosingLineAccounts(s, j, l);
        }
        SumNil(j.lines, w);
      }
    }
    SumNil(s.journals, Picked(sel, w));
  }

  lemma CashAndCapitalAreUnclosed(chart: Chart)
    requires WellFormedChart(chart)
    ensures Unclosed(chart, CashAccounts(chart)) && Unclosed(chart, WorkingCapitalAccounts(chart))
  {
    forall code | CashAccounts(chart)(code) || WorkingCapitalAccounts(chart)(code)
      ensures !EquityAccounts(chart)(code) && !HasRole(chart, IncomeRoles())(code)
    {
      WellFormedAccount(chart, code);
    }
  }

  lemma ClosingsLeaveCash(s: State, book: string, scope: set<nat>)
    requires SoundLedger(s) && book in s.charts
    ensures Sum(s.journals, Picked(ClosingsIn(book, scope), NetIn(CashAccounts(s.charts[book])))) == 0
    ensures Sum(s.journals, Picked(ClosingsIn(book, scope), NetIn(WorkingCapitalAccounts(s.charts[book])))) == 0
  {
    LedgerOf(s);
    CashAndCapitalAreUnclosed(s.charts[book]);
    ClosingsLeave(s, book, scope, CashAccounts(s.charts[book]));
    ClosingsLeave(s, book, scope, WorkingCapitalAccounts(s.charts[book]));
  }

  /** Net income, working capital and financing add up to the debit-less-credit
      movement of the cash account over the scope. */
  lemma CashFlowIsCashMovement(s: State, book: string, scope: set<nat>)
    requires SoundLedger(s) && book in s.charts && EarliestStart(s.periods, scope).Some?
    ensures CashFlowStatement(s, book, scope).netChange ==
            -Sum(s.journals, Picked(InScope(book, scope), NetIn(CashAccounts(s.charts[book]))))
  {
    NetIncomeIsOperationalIncome(s, book, scope);
    OperationalNetIsZero(s, book, scope);
    ClosingsLeaveCash(s, book, scope);
    ScopeSplits(s, book, scope, NetIn(CashAccounts(s.charts[book])));
  }

  /** Ledger cash through a date, debit-normal. */
  function LedgerCash(s: State, book: string, date: Date): int
    requires book in s.charts
  {
    -LiveNet(s, book, date, CashAccounts(s.charts[book]))
  }

  /** The reported closing cash is ledger cash exactly when the reported opening
      cash is. */
  lemma ClosingCashTiesWithOpening(s: State, book: string, scope: set<nat>, p: nat, start: Date)
    requires SoundLedger(s) && book in s.charts && Contiguous(s, scope, p)
    requires EarliestStart(s.periods, scope) == Some(start)
    ensures var report := CashFlowStatement(s, book, scope);
            report.closing - LedgerCash(s, book, s.periods[p].end) == report.opening - LedgerCash(s, book, start - 1)
  {
    CashFlowIsCashMovement(s, book, scope);
    ScopeMovement(s, book, scope, p, NetIn(CashAccounts(s.charts[book])));
  }

  /** It is ledger cash whenever every period before the scope is closed. */
  lemma ClosingCashIsLedgerCash(s: State, book: string, scope: set<nat>, p: nat, start: Date)
    requires Inv(s) && book in s.charts && Contiguous(s, scope, p)
    requires EarliestStart(s.periods, scope) == Some(start) && ClosedBefore(s, start)
    ensures CashFlowStatement(s, book, scope).closing == LedgerCash(s, book, s.periods[p].end)
  {
    ClosingCashTiesWithOpening(s, book, scope, p, start);
    OpeningIsLive(s, book, scope, p, start, CashAccounts(s.charts[book]));
  }

  // ---------------------------------------------------- the lines of the reports

  /** What a book's balance on some accounts moves from one date through another. */
  function Moved(s: State, book: string, start: Date, end: Date, accounts: string -> bool): int {
    LiveNet(s, book, end, accounts) - LiveNet(s, book, start - 1, accounts)
  }

  /** What the closing journals dated by these days moved from income into equity. */
  function ClosedIntoEquity(s: State, book: string, start: Date, end: Date): int
    requires book in s.charts
  {
    Sum(s.journals,
      Picked((j: Journal) => j.book == book && j.ref.Closing? && start <= j.date <= end,
        NetIn(EquityAccounts(s.charts[book]))))
  }

  /** A reversal never matches the closing pattern, since no closing journal is reversed. */
  lemma OnlyClosersClose(s: State, j: Journal)
    requires JournalOk(s, j)
    ensures IsClosing(j.ref) <==> j.ref.Closing?
  {
    if j.ref.ReversalOf? {
      assert !IsClosing(j.ref.original);
    }
  }

  lemma ClosingsByDate(s: State, book: string, scope: set<nat>, p: nat, start: Date)
    requires SoundLedger(s) && book in s.charts && Contiguous(s, scope, p)
    requires EarliestStart(s.periods, scope) == Some(start)
    ensures Sum(s.journals, Picked(ClosingsIn(book, scope), NetIn(EquityAccounts(s.charts[book])))) ==
            ClosedIntoEquity(s, book, start, s.periods[p].end)
  {
    LedgerOf(s);
    var dated := (j: Journal) => j.book == book && j.ref.Closing? && start <= j.date <= s.periods[p].end;
    forall j | j in s.journals ensures ClosingsIn(book, scope)(j) == dated(j) {
      assert JournalOk(s, j);
      OnlyClosersClose(s, j);
      ScopeByDate(s, book, scope, p, j);
    }
    PickedAgree(s.journals, ClosingsIn(book, scope), dated, NetIn(EquityAccounts(s.charts[book])));
  }

  /** Over a scope the operational journals move what all journals do, less the closings. */
  lemma OperationalMovement(s: State, book: string, scope: set<nat>, p: nat, start: Date, accounts: string -> bool)
    requires SoundLedger(s) && Contiguous(s, scope, p) && EarliestStart(s.periods, scope) == Some(start)
    ensures Sum(s.journals, Picked(Operational(book, scope), NetIn(accounts))) ==
            Moved(s, book, start, s.periods[p].end, accounts)
            - Sum(s.journals, Picked(ClosingsIn(book, scope), NetIn(accounts)))
  {
    ScopeMovement(s, book, scope, p, NetIn(accounts));
    ScopeSplits(s, book, scope, NetIn(accounts));
  }

  /** By class or by role: income is the same. */
  lemma IncomeByClass(s: State, book: string, sel: Journal -> bool)
    requires SoundLedger(s) && book in s.charts && forall j :: sel(j) ==> j.book == book
    ensures Sum(s.journals, Picked(sel, NetIn(HasRole(s.charts[book], IncomeRoles())))) ==
            Sum(s.journals, Picked(sel, NetIn(IncomeAccounts(s.charts[book]))))
  {
    LedgerOf(s);
    var chart := s.charts[book];
    forall j, l | j in s.journals && sel(j) && l in j.lines
      ensures NetIn(HasRole(chart, IncomeRoles()))(l) == NetIn(IncomeAccounts(chart))(l)
    {
      assert JournalOk(s, j);
      WellFormedAccount(chart, l.account);
    }
    PickedSame(s.journals, sel, NetIn(HasRole(chart, IncomeRoles())), NetIn(IncomeAccounts(chart)));
  }

  lemma NetIncomeLine(s: State, book: string, scope: set<nat>, p: nat, start: Date)
    requires SoundLedger(s) && book in s.charts && Contiguous(s, scope, p)
    requires EarliestStart(s.periods, scope) == Some(start)
    ensures NetIncome(s, book, scope) ==
            Moved(s, book, start, s.periods[p].end, IncomeAccounts(s.charts[book]))
            + ClosedIntoEquity(s, book, start, s.periods[p].end)
  {
    NetIncomeIsOperationalIncome(s, book, scope);
    IncomeByClass(s, book, Operational(book, scope));
    IncomeByClass(s, book, ClosingsIn(book, scope));
    OperationalMovement(s, book, scope, p, start, IncomeAccounts(s.charts[book]));
    ClosingsMoveIncomeToEquity(s, book, scope);
    ClosingsByDate(s, book, scope, p, start);
  }

  lemma OtherEquityLine(s: State, book: string, scope: set<nat>, p: nat, start: Date)
    requires SoundLedger(s) && book in s.charts && Contiguous(s, scope, p)
    requires EarliestStart(s.periods, scope) == Some(start)
    ensures OtherEquity(s, book, scope) ==
            Moved(s, book, start, s.periods[p].end, EquityAccounts(s.charts[book]))
            - ClosedIntoEquity(s, book, start, s.periods[p].end)
  {
    OperationalMovement(s, book, scope, p, start, EquityAccounts(s.charts[book]));
    ClosingsByDate(s, book, scope, p, start);
  }

  /** Every line of the statement of changes in equity against the ledger. */
  lemma EquityStatementLines(s: State, book: string, scope: set<nat>, p: nat, start: Date)
    requires Inv(s) && book in s.charts && Contiguous(s, scope, p)
    requires EarliestStart(s.periods, scope) == Some(start)
    ensures var report, chart, end := ChangesInEquity(s, book, scope), s.charts[book], s.periods[p].end;
            var closed := ClosedIntoEquity(s, book, start, end);
            && report.opening == LiveNet(s, book, Cutoff(s, book, start), EquityAccounts(chart))
            && report.netIncome == Moved(s, book, start, end, IncomeAccounts(chart)) + closed
            && report.other == Moved(s, book, start, end, EquityAccounts(chart)) - closed
            && report.closing == report.opening + report.netIncome + report.other
  {
    OpeningIsCutoffBalance(s, book, start, EquityAccounts(s.charts[book]));
    NetIncomeLine(s, book, scope, p, start);
    OtherEquityLine(s, book, scope, p, start);
  }

  /** Every line of the cash-flow statement against the ledger. */
  lemma CashFlowLines(s: State, book: string, scope: set<nat>, p: nat, start: Date)
    requires Inv(s) && book in s.charts && Contiguous(s, scope, p)
    requires EarliestStart(s.periods, scope) == Some(start)
    ensures var report, chart, end := CashFlowStatement(s, book, scope), s.charts[book], s.periods[p].end;
            var closed := ClosedIntoEquity(s, book, start, end);
            && report.netIncome == Moved(s, book, start, end, IncomeAccounts(chart)) + closed
            && report.workingCapital == Moved(s, book, start, end, WorkingCapitalAccounts(chart))
            && report.operations == report.netIncome + report.workingCapital
            && report.investing == 0
            && report.financing == Moved(s, book, start, end, EquityAccounts(chart)) - closed
            && report.netChange == LedgerCash(s, book, end) - LedgerCash(s, book, start - 1)
            && report.opening == LedgerCash(s, book, Cutoff(s, book, start))
            && report.closing == report.opening + report.netChange
  {
    var chart := s.charts[book];
    NetIncomeLine(s, book, scope, p, start);
    OtherEquityLine(s, book, scope, p, start);
    OperationalMovement(s, book, scope, p, start, WorkingCapitalAccounts(chart));
    ClosingsLeaveCash(s, book, scope);
    OpeningIsCutoffBalance(s, book, start, CashAccounts(chart));
    CashFlowIsCashMovement(s, book, scope);
    ScopeMovement(s, book, scope, p, NetIn(CashAccounts(chart)));
  }

  // -------------------------------------------------------------- reversals

  /** A reversal takes its original back, on every set of accounts, from its own
      date on and not before. */
  lemma ReversalTakesItsOriginalBack(s: State, c: Command, date: Date, accounts: string -> bool)
    requires c.Reverse? && ReverseStep(s, c).reply.Accepted?
    ensures var original := JournalByRef(s.journals, c.original).value;
            LiveNet(ReverseStep(s, c).state, original.book, date, accounts) ==
            LiveNet(s, original.book, date, accounts) -
            if c.date <= date then Sum(original.lines, NetIn(accounts)) else 0
  {
    var original := JournalByRef(s.journals, c.original).value;
    var t := ReverseStep(s, c).state;
    var reversal := t.journals[|t.journals| - 1];
    assert t.journals == s.journals + [reversal];
    SumAppend(s.journals, reversal, Picked(Through(original.book, date), NetIn(accounts)));
    OppositeNet(original.lines, accounts);
  }

  // ------------------------------------------------------------ rollforward

  lemma SidesMove(s: State, book: string, scope: set<nat>, p: nat, start: Date)
    requires SoundLedger(s) && Contiguous(s, scope, p)
    requires EarliestStart(s.periods, scope) == Some(start)
    ensures forall side, code ::
              SideTotal(s.journals, Through(book, s.periods[p].end), side, code) ==
              SideTotal(s.journals, Through(book, start - 1), side, code) +
              SideTotal(s.journals, InScope(book, scope), side, code)
  {
    forall side, code
      ensures SideTotal(s.journals, Through(book, s.periods[p].end), side, code) ==
              SideTotal(s.journals, Through(book, start - 1), side, code) +
              SideTotal(s.journals, InScope(book, scope), side, code)
    {
      ScopeMovement(s, book, scope, p, LineIn(side, Only(code)));
    }
  }

  /** Opening plus period sides are the live closing sides of every account
      exactly when no journal is left in the gap before the scope, and none is
      when every period before the scope is closed. */
  lemma RollforwardTies(s: State, book: string, scope: set<nat>, p: nat, start: Date)
    requires Inv(s) && book in s.charts && Contiguous(s, scope, p)
    requires EarliestStart(s.periods, scope) == Some(start)
    ensures NothingBetween(s, book, Cutoff(s, book, start), start) <==>
            forall side, code ::
              OpeningSide(s, book, start, side, code) + SideTotal(s.journals, InScope(book, scope), side, code) ==
              SideTotal(s.journals, Through(book, s.periods[p].end), side, code)
    ensures ClosedBefore(s, start) ==> NothingBetween(s, book, Cutoff(s, book, start), start)
  {
    OpeningSidesExact(s, book, start);
    SidesMove(s, book, scope, p, start);
    if ClosedBefore(s, start) {
      NothingUncovered(s, book, scope, p, start);
    }
  }
}
