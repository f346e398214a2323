/** Runs from the empty store on which the premises of the theorems hold together,
    and runs on which the code does not do what its documentation leads one to expect. */
module Witnesses {
  import opened Sums
  import opened JournalTables
  import opened ClosingJournal
  import opened BookStore
  import opened CloseInvariant
  import opened AcceptedCommands
  import opened PeriodControl
  import opened Replays
  import opened SnapshotTheorems
  import opened AnyOrder
  import opened SnapshotOrder
  import opened Statements

  // ------------------------------------------------------------------ the shop

  const CASH := "1000"
  const SALES := "4000"

  const SHOP: Chart := [
    ChartAccount(CASH, Asset, Some("cash_receipt")),
    ChartAccount(SALES, Revenue, Some("usage_revenue")),
    ChartAccount(RETAINED_EARNINGS, Equity, Some(RETAINED_EARNINGS_ROLE))]

  lemma ShopAccounts()
    ensures SHOP[..2] == [SHOP[0], SHOP[1]] && SHOP[..2][..1] == [SHOP[0]]
    ensures CASH != SALES && CASH != RETAINED_EARNINGS && SALES != RETAINED_EARNINGS
    ensures Lookup(SHOP, CASH) == Some(SHOP[0]) && Lookup(SHOP, SALES) == Some(SHOP[1])
  {
    assert CASH[0] != SALES[0] && SALES[0] != RETAINED_EARNINGS[0] && CASH[0] != RETAINED_EARNINGS[0];
    assert SHOP[..2] == [SHOP[0], SHOP[1]];
    assert Lookup([SHOP[0]], CASH) == Some(SHOP[0]);
  }

  lemma ShopIsWellFormed()
    ensures WellFormedChart(SHOP) && EarningsMapped(SHOP) && SomeRoleMapped(SHOP)
  {
    ShopAccounts();
    var cash, sales, earnings := SHOP[0], SHOP[1], SHOP[2];
    assert "cash_receipt"[0] != "usage_revenue"[0] && "cash_receipt"[0] != "write_off_expense"[0];
    assert RETAINED_EARNINGS_ROLE[0] != "usage_revenue"[0] && RETAINED_EARNINGS_ROLE[0] != "write_off_expense"[0];
    assert cash.role != Some(RETAINED_EARNINGS_ROLE) && earnings.role != Some("cash_receipt");
    assert earnings in SHOP;
  }

  function Sale(text: string, date: Date): Command {
    Post(TextKey(text), "h", text, date,
      [ProposedLine(1, "cash_receipt", 7, 0), ProposedLine(2, "usage_revenue", 0, 7)],
      Policy("b", 0, 29, map["cash_receipt" := CASH, "usage_revenue" := SALES]))
  }

  const SOLD: seq<Line> := [Line(1, CASH, "cash_receipt", 7, 0), Line(2, SALES, "usage_revenue", 0, 7)]

  function SaleJournal(text: string, period: nat, date: Date): Journal {
    Journal(Ref.Posted(text), "b", period, date, SOLD, TextKey(text), Payload("h"), true)
  }

  lemma SaleResolves(text: string, date: Date)
    ensures var c := Sale(text, date);
            AllMapped(c.proposed, c.policy.mapping) && Resolved(c.proposed, c.policy.mapping) == SOLD
    ensures forall l :: l in Sale(text, date).proposed ==> l.role != RETAINED_EARNINGS_ROLE
  {
    var c := Sale(text, date);
    assert "cash_receipt"[0] != "usage_revenue"[0];
    assert RETAINED_EARNINGS_ROLE[0] != "usage_revenue"[0] && RETAINED_EARNINGS_ROLE[0] != "cash_receipt"[0];
    assert c.proposed[..1] == [c.proposed[0]] && c.proposed[..1][..0] == [];
  }

  lemma SoldNet(accounts: string -> bool)
    ensures Sum(SOLD, NetIn(accounts)) == (if accounts(SALES) then 7 else 0) - (if accounts(CASH) then 7 else 0)
  {
    assert SOLD[..1] == [SOLD[0]] && SOLD[..1][..0] == [];
    assert Sum([SOLD[0]], NetIn(accounts)) == NetIn(accounts)(SOLD[0]);
  }

  lemma SoldIsSound()
    ensures SoundLines(SHOP, SOLD)
  {
    ShopAccounts();
    SoldNet(Every());
  }

  lemma SaleIsAccepted(s: State, text: string, p: nat, date: Date)
    requires PeriodsOk(s) && "b" in s.charts && s.charts["b"] == SHOP && 0 <= date <= 29
    requires p < |s.periods| && Covers(s.periods[p], date) && Effective(s, "b", p) == Open
    requires Unused(s, TextKey(text), Ref.Posted(text))
    ensures PostStep(s, Sale(text, date)).reply.Accepted?
  {
    SaleResolves(text, date);
    SoldIsSound();
    assert MayBePosted(s, Sale(text, date));
    PostedExactlyWhen(s, Sale(text, date));
  }

  lemma SaleIsPosted(s: State, text: string, p: nat, date: Date)
    requires PeriodsOk(s) && "b" in s.charts && s.charts["b"] == SHOP && 0 <= date <= 29
    requires p < |s.periods| && Covers(s.periods[p], date) && Effective(s, "b", p) == Open
    requires Unused(s, TextKey(text), Ref.Posted(text))
    ensures PostStep(s, Sale(text, date)).state == Inserted(s, SaleJournal(text, p, date))
  {
    SaleResolves(text, date);
    SaleIsAccepted(s, text, p, date);
    var covering := CoveringPeriod(s.periods, date).value;
    assert covering == p || Disjoint(s.periods[covering], s.periods[p]);
  }

  // ------------------------------------------------------------- runs step by step

  /** After the first n commands of an orderly run the store is s. */
  ghost predicate Reaches(commands: seq<Command>, n: nat, s: State)
    requires n <= |commands|
  {
    Run(EmptyState(true), commands[..n]) == s && OrderlyRun(EmptyState(true), commands[..n])
  }

  lemma StartsEmpty(commands: seq<Command>)
    ensures Reaches(commands, 0, EmptyState(true))
  {
  }

  lemma NextReaches(commands: seq<Command>, n: nat, s: State)
    requires n < |commands| && Reaches(commands, n, s) && Orderly(s, commands[n])
    ensures Reaches(commands, n + 1, Step(s, commands[n]).state)
  {
    assert commands[..n + 1][..n] == commands[..n];
  }

  lemma NextRuns(commands: seq<Command>, n: nat, s: State, t: State)
    requires n < |commands| && Run(EmptyState(true), commands[..n]) == s && Step(s, commands[n]).state == t
    ensures Run(EmptyState(true), commands[..n + 1]) == t
  {
    assert commands[..n + 1][..n] == commands[..n];
  }

  lemma ReachedKeepsInv(commands: seq<Command>, n: nat, s: State)
    requires n <= |commands| && Reaches(commands, n, s)
    ensures Inv(s)
  {
    RunKeepsInv(true, commands[..n]);
  }

  // -------------------------------------------------------------- opening the shop

  const FIRST := Period(1, 0, 9, Open)
  const SECOND := Period(2, 10, 19, Open)
  const THIRD := Period(3, 20, 29, Open)

  function Opening(period: Period, key: string): Command {
    OpenPeriod("e", period.code, Some(period.start), Some(period.end), key, "h")
  }

  /** The shop with some periods open and nothing posted. */
  predicate JustOpened(s: State, ps: seq<Period>) {
    && s.charts == map["b" := SHOP] && s.periods == ps && s.controls == map[] && s.journals == []
    && s.snapshots == map[] && s.closingWriter
    && (forall k :: k in s.openings ==> |k| <= |ps|) && (forall p :: 0 <= p < |ps| ==> ps[p].status == Open)
  }

  lemma ShopRegisters()
    ensures Orderly(EmptyState(true), RegisterBook("b", SHOP))
    ensures JustOpened(Step(EmptyState(true), RegisterBook("b", SHOP)).state, [])
  {
    ShopIsWellFormed();
  }

  lemma ShopOpens(s: State, ps: seq<Period>, period: Period, key: string)
    requires JustOpened(s, ps) && |key| == |ps| + 1 && period.start <= period.end && period.status == Open
    requires forall p :: 0 <= p < |ps| ==> ps[p].code != period.code && ps[p].end < period.start
    ensures Orderly(s, Opening(period, key))
    ensures JustOpened(OpenStep(s, Opening(period, key)).state, ps + [period])
  {
    assert FindPeriod(s.periods, period.code).None?;
    assert MayBeOpened(s, Opening(period, key));
    OpeningOnlyOpens(s, Opening(period, key));
  }

  lemma NextOpens(commands: seq<Command>, n: nat, s: State, ps: seq<Period>, period: Period, key: string)
    returns (t: State)
    requires n < |commands| && Reaches(commands, n, s) && commands[n] == Opening(period, key)
    requires JustOpened(s, ps) && |key| == |ps| + 1 && period.start <= period.end && period.status == Open
    requires forall p :: 0 <= p < |ps| ==> ps[p].code != period.code && ps[p].end < period.start
    ensures Reaches(commands, n + 1, t) && JustOpened(t, ps + [period])
  {
    assert Step(s, commands[n]) == OpenStep(s, commands[n]);
    ShopOpens(s, ps, period, key);
    NextReaches(commands, n, s);
    t := OpenStep(s, commands[n]).state;
  }

  // -------------------------------------------------- a run with income and a close

  const CLOSE_FIRST := Close("b", 1, HardClosed, TextKey("c1"), true)

  const YEAR: seq<Command> := [
    RegisterBook("b", SHOP), Opening(FIRST, "o"), Opening(SECOND, "oo"), Opening(THIRD, "ooo"),
    Sale("k1", 5), CLOSE_FIRST, Sale("k2", 12)]

  predicate IsYear(commands: seq<Command>) {
    && |commands| == 7 && commands[0] == RegisterBook("b", SHOP) && commands[1] == Opening(FIRST, "o")
    && commands[2] == Opening(SECOND, "oo") && commands[3] == Opening(THIRD, "ooo") && commands[4] == Sale("k1", 5)
    && commands[5] == CLOSE_FIRST && commands[6] == Sale("k2", 12)
  }

  lemma ShopStarts(commands: seq<Command>) returns (s: State)
    requires |commands| > 0 && commands[0] == RegisterBook("b", SHOP)
    ensures Reaches(commands, 1, s) && JustOpened(s, [])
  {
    var e := EmptyState(true);
    StartsEmpty(commands);
    ShopRegisters();
    s := Step(e, RegisterBook("b", SHOP)).state;
    NextReaches(commands, 0, e);
  }

  lemma FirstOpens(commands: seq<Command>) returns (s: State)
    requires |commands| > 1 && commands[0] == RegisterBook("b", SHOP) && commands[1] == Opening(FIRST, "o")
    ensures Reaches(commands, 2, s) && JustOpened(s, [FIRST])
  {
    s := ShopStarts(commands);
    s := NextOpens(commands, 1, s, [], FIRST, "o");
    assert [] + [FIRST] == [FIRST];
  }

  lemma SecondOpens(commands: seq<Command>) returns (s: State)
    requires |commands| > 2 && commands[0] == RegisterBook("b", SHOP)
    requires commands[1] == Opening(FIRST, "o") && commands[2] == Opening(SECOND, "oo")
    ensures Reaches(commands, 3, s) && JustOpened(s, [FIRST, SECOND])
  {
    s := FirstOpens(commands);
    s := NextOpens(commands, 2, s, [FIRST], SECOND, "oo");
    assert [FIRST] + [SECOND] == [FIRST, SECOND];
  }

  lemma YearOpens(commands: seq<Command>) returns (s: State)
    requires IsYear(commands)
    ensures Reaches(commands, 4, s) && JustOpened(s, [FIRST, SECOND, THIRD])
  {
    s := SecondOpens(commands);
    s := NextOpens(commands, 3, s, [FIRST, SECOND], THIRD, "ooo");
    assert [FIRST, SECOND] + [THIRD] == [FIRST, SECOND, THIRD];
  }

  predicate IsSold(s: State) {
    && s.charts == map["b" := SHOP] && s.periods == [FIRST, SECOND, THIRD] && s.controls == map[]
    && s.journals == [SaleJournal("k1", 0, 5)] && s.snapshots == map[] && s.closingWriter
  }

  lemma YearSells(commands: seq<Command>) returns (s: State)
    requires IsYear(commands)
    ensures Reaches(commands, 5, s) && IsSold(s) && Inv(s)
  {
    s := YearOpens(commands);
    ReachedKeepsInv(commands, 4, s);
    ControlOf(s);
    SaleIsPosted(s, "k1", 0, 5);
    NextReaches(commands, 4, s);
    s := PostStep(s, commands[4]).state;
    assert [] + [SaleJournal("k1", 0, 5)] == [SaleJournal("k1", 0, 5)];
    ReachedKeepsInv(commands, 5, s);
  }

  /** The income standing in the ledger after the sale. */
  lemma IncomeIsSeven()
    ensures IncomeTotal(SHOP, [SaleJournal("k1", 0, 5)], Through("b", 9)) == 7
  {
    var income := HasRole(SHOP, IncomeRoles());
    ShopAccounts();
    assert "cash_receipt"[0] != "usage_revenue"[0] && "cash_receipt"[0] != "write_off_expense"[0];
    SoldNet(income);
    SumAppend([], SaleJournal("k1", 0, 5), Picked(Through("b", 9), NetIn(income)));
    assert [SaleJournal("k1", 0, 5)] == [] + [SaleJournal("k1", 0, 5)];
  }

  /** A balance that is not zero gives the closer something to post. */
  lemma IncomeMeansClosingLines(s: State, book: string, p: nat)
    requires SoundLedger(s) && book in s.charts && p < |s.periods|
    requires IncomeTotal(s.charts[book], s.journals, Through(book, s.periods[p].end)) != 0
    ensures ClosingJournalOf(s, book, p).lines != []
  {
    LedgerOf(s);
    var chart, sel := s.charts[book], Through(book, s.periods[p].end);
    var rows := IncomeRows(chart, s.journals, sel);
    JournalsOnChart(s, book, sel);
    EarningsAreIncome(chart, s.journals, sel);
    ClosingLinesWellFormed(rows);
    if ClosingLinesOf(rows) == [] {
      SumNil(rows, IncomeNet(Every()));
    }
  }

  lemma SoldMayClear(s: State)
    requires Inv(s) && IsSold(s)
    ensures MayClearIncome(s, "b", 0) && ClosingJournalOf(s, "b", 0).lines != []
  {
    ShopIsWellFormed();
    IncomeIsSeven();
    IncomeMeansClosingLines(s, "b", 0);
  }

  lemma SoldMayClose(s: State)
    requires Inv(s) && IsSold(s)
    ensures FindPeriod(s.periods, 1) == Some(0) && FirstClose(CloseStep(s, CLOSE_FIRST)) && Orderly(s, CLOSE_FIRST)
  {
    ControlOf(s);
    OwnCodeIsFound(s, 0);
    SoldMayClear(s);
    RecordsOf(s);
    SnapshotsAreClosed(s);
    HardClosedExactlyWhen(s, CLOSE_FIRST, 0);
  }

  /** The closing journal follows the sale and the first period is hard-closed. */
  predicate IsClosed(s: State) {
    && s.charts == map["b" := SHOP] && |s.periods| == 3
    && s.periods[0].end == 9 && s.periods[1].start == 10 && s.periods[1].end == 19 && s.periods[2].start == 20
    && Effective(s, "b", 0) == HardClosed && Effective(s, "b", 1) == Open && Effective(s, "b", 2) == Open
    && ("b", 0) in s.snapshots
    && |s.journals| == 2 && s.journals[0] == SaleJournal("k1", 0, 5)
    && s.journals[1].ref == Ref.Closing(1, "b") && s.journals[1].key == ClosingKey(1, "b") && s.journals[1].lines != []
  }

  /** The entries of the plain map, back in the store. */
  lemma EntriesShow(s: State, t: State, p: nat, status: Status)
    requires t.charts == s.charts && |t.periods| == |s.periods| && p < |s.periods| && "b" in s.charts
    requires Statuses(t) == Statuses(s)[("b", p) := status]
    ensures forall q :: 0 <= q < |s.periods| ==>
              Effective(t, "b", q) == if q == p then status else Effective(s, "b", q)
  {
    forall q | 0 <= q < |s.periods|
      ensures Effective(t, "b", q) == if q == p then status else Effective(s, "b", q)
    {
      assert ("b", q) in Statuses(t);
    }
  }

  lemma ClosedStatuses(s: State)
    requires Inv(s) && IsSold(s)
    ensures var t := CloseStep(s, CLOSE_FIRST).state;
            && t.charts == s.charts && SameCalendar(s.periods, t.periods)
            && Effective(t, "b", 0) == HardClosed && Effective(t, "b", 1) == Open
            && Effective(t, "b", 2) == Open
  {
    var t := CloseStep(s, CLOSE_FIRST).state;
    SoldMayClose(s);
    CloseRefinesPlainMap(s, CLOSE_FIRST);
    CloseLeavesCalendar(s, CLOSE_FIRST);
    CloseOnlyAppends(s, CLOSE_FIRST);
    EntriesShow(s, t, 0, HardClosed);
  }

  lemma LockLeavesClosing(s: State, book: string, p: nat)
    requires book in s.charts && p < |s.periods|
    ensures ClosingJournalOf(Materialized(s, p), book, p) == ClosingJournalOf(s, book, p)
  {
  }

  lemma ClosedRecords(s: State)
    requires Inv(s) && IsSold(s)
    ensures var t := CloseStep(s, CLOSE_FIRST).state;
            ("b", 0) in t.snapshots && t.journals == s.journals + [ClosingJournalOf(s, "b", 0)]
  {
    SoldMayClose(s);
    SoldMayClear(s);
    HardCloseFreezes(s, CLOSE_FIRST, 0);
    var posted := WithClosingJournal(Materialized(s, 0), "b", 0).state;
    FrozenShape(posted, "b", 0, CLOSE_FIRST.key);
    LockLeavesClosing(s, "b", 0);
  }

  lemma SoldCloses(s: State)
    requires Inv(s) && IsSold(s)
    ensures IsClosed(CloseStep(s, CLOSE_FIRST).state)
  {
    ClosedStatuses(s);
    ClosedRecords(s);
    SoldMayClear(s);
  }

  lemma YearCloses(commands: seq<Command>) returns (s: State)
    requires IsYear(commands)
    ensures Reaches(commands, 6, s) && IsClosed(s) && Inv(s)
  {
    s := YearSells(commands);
    SoldMayClose(s);
    SoldCloses(s);
    NextReaches(commands, 5, s);
    s := CloseStep(s, CLOSE_FIRST).state;
    ReachedKeepsInv(commands, 6, s);
  }

  lemma ClosedSells(s: State)
    requires Inv(s) && IsClosed(s)
    ensures PostStep(s, Sale("k2", 12)).state == Inserted(s, SaleJournal("k2", 1, 12))
  {
    ControlOf(s);
    assert "k1"[1] != "k2"[1];
    assert forall j :: j in s.journals ==> j == s.journals[0] || j == s.journals[1];
    SaleIsPosted(s, "k2", 1, 12);
  }

  lemma YearSellsAgain(commands: seq<Command>) returns (s: State, t: State)
    requires IsYear(commands)
    ensures Reaches(commands, 7, t) && Inv(t) && IsClosed(s) && t == Inserted(s, SaleJournal("k2", 1, 12))
  {
    s := YearCloses(commands);
    ClosedSells(s);
    NextReaches(commands, 6, s);
    t := PostStep(s, commands[6]).state;
    ReachedKeepsInv(commands, 7, t);
  }

  /** The premises of the run theorems can be met together, with income and a closing
      journal that clears it. */
  lemma HardClosingRunExists()
    ensures OrderlyRun(EmptyState(true), YEAR[..6])
    ensures var s := Run(EmptyState(true), YEAR[..6]);
            && s.charts.Keys == {"b"} && ("b", 0) in s.snapshots
            && exists j :: j in s.journals && IsClosing(j.ref) && j.lines != []
  {
    var s := YearCloses(YEAR);
    assert s.journals[1] in s.journals;
  }

  lemma PriorIsFirst(s: State)
    requires Inv(s) && s.charts.Keys == {"b"} && |s.periods| == 3 && ("b", 0) in s.snapshots
    requires s.periods[0].end == 9 && s.periods[1].end == 19 && s.periods[2].start == 20
    requires Effective(s, "b", 0) == HardClosed && Effective(s, "b", 1) == Open
    ensures Cutoff(s, "b", 20) == 9
  {
    OneBookCalendar(s, "b", 0);
    OneBookCalendar(s, "b", 1);
    ControlOf(s);
    assert Qualifies(s, "b", 20, 0);
    var prior := PriorSnapshot(s, "b", 20).value;
    assert prior != 1 && prior != 2;
  }

  /** An opening can leave a journal out: with the first period hard-closed and the
      second still open, the third period's opening debits of cash, taken from the
      first period's snapshot, miss the sale of the second. */
  lemma OpeningLeavesAJournalOut()
    ensures OrderlyRun(EmptyState(true), YEAR)
    ensures var s := Run(EmptyState(true), YEAR);
            OpeningSide(s, "b", 20, Dr, CASH) < SideTotal(s.journals, Through("b", 19), Dr, CASH)
  {
    var before, s := YearSellsAgain(YEAR);
    assert YEAR[..7] == YEAR;
    PriorIsFirst(s);
    OpeningIsCutoffBalance(s, "b", 20, Every());
    LaterJournalShows(s, "b", 9, 20, SaleJournal("k2", 1, 12), Dr, SOLD[0]);
  }

  // ------------------------------------------------------- a close out of order

  const SOFTLY_FIRST := Close("b", 1, SoftClosed, TextKey("s1"), true)
  const CLOSE_SECOND := Close("b", 2, HardClosed, TextKey("c2"), true)
  const ADJUST_FIRST := Adjust(TextKey("a"), "h", "a", "b", 1, 5, WashLines(CASH))

  const OUT_OF_ORDER: seq<Command> := [
    RegisterBook("b", SHOP), Opening(FIRST, "o"), Opening(SECOND, "oo"), SOFTLY_FIRST, CLOSE_SECOND, ADJUST_FIRST]

  /** The first period is soft-closed and nothing is posted. */
  predicate IsSoft(s: State) {
    && s.charts == map["b" := SHOP] && s.journals == [] && s.snapshots == map[] && s.closingWriter
    && |s.periods| == 2 && s.periods[0].code == 1 && s.periods[0].start == 0 && s.periods[0].end == 9
    && s.periods[1].code == 2 && s.periods[1].start == 10 && s.periods[1].end == 19
    && Effective(s, "b", 0) == SoftClosed && Effective(s, "b", 1) == Open
  }

  lemma SoftlyMayClose(s: State)
    requires Inv(s) && JustOpened(s, [FIRST, SECOND])
    ensures FindPeriod(s.periods, 1) == Some(0) && FirstClose(CloseStep(s, SOFTLY_FIRST))
    ensures CloseStep(s, SOFTLY_FIRST).state.journals == [] && CloseStep(s, SOFTLY_FIRST).state.snapshots == map[]
  {
    ControlOf(s);
    OwnCodeIsFound(s, 0);
    SoftClosedExactlyWhen(s, SOFTLY_FIRST, 0);
  }

  lemma SoftlyCloses(s: State)
    requires Inv(s) && JustOpened(s, [FIRST, SECOND])
    ensures Orderly(s, SOFTLY_FIRST) && IsSoft(CloseStep(s, SOFTLY_FIRST).state)
  {
    SoftlyMayClose(s);
    CloseRefinesPlainMap(s, SOFTLY_FIRST);
    CloseLeavesCalendar(s, SOFTLY_FIRST);
    CloseOnlyAppends(s, SOFTLY_FIRST);
    CloseLeavesWriter(s, SOFTLY_FIRST);
    EntriesShow(s, CloseStep(s, SOFTLY_FIRST).state, 0, SoftClosed);
  }

  lemma {:induction false} NoJournalsNoRows(chart: Chart, sel: Journal -> bool)
    ensures Rows(chart, [], sel) == []
  {
    if chart != [] {
      NoJournalsNoRows(chart[..|chart| - 1], sel);
    }
  }

  lemma HardClosesAnyway(s: State)
    requires Inv(s) && IsSoft(s)
    ensures FirstClose(CloseStep(s, CLOSE_SECOND)) && FindPeriod(s.periods, 2) == Some(1)
    ensures CloseStep(s, CLOSE_SECOND).state.journals == []
  {
    ControlOf(s);
    OwnCodeIsFound(s, 1);
    NoJournalsNoRows(SHOP, Through("b", 19));
    assert ClosingJournalOf(s, "b", 1).lines == [];
    HardClosedExactlyWhen(s, CLOSE_SECOND, 1);
    HardCloseFreezes(s, CLOSE_SECOND, 1);
    LockLeavesClosing(s, "b", 1);
  }

  /** After the hard close of the second period the first is as it was. */
  ghost predicate IsBehind(s: State) {
    && s.charts == map["b" := SHOP] && s.journals == [] && s.closingWriter && JustClosed(s, "b", 1)
    && |s.periods| == 2 && s.periods[0].code == 1 && s.periods[0].start == 0 && s.periods[0].end == 9
    && s.periods[1].start == 10 && Effective(s, "b", 0) == SoftClosed
  }

  lemma FirstStaysSoft(s: State)
    requires Inv(s) && IsSoft(s)
    ensures IsBehind(CloseStep(s, CLOSE_SECOND).state)
  {
    HardClosesAnyway(s);
    InvIsConsistent(s);
    CloseLeavesJustClosed(s, CLOSE_SECOND, 1);
    CloseLeavesWriter(s, CLOSE_SECOND);
    CloseLeavesCalendar(s, CLOSE_SECOND);
    CloseOnlyAppends(s, CLOSE_SECOND);
    CloseRefinesPlainMap(s, CLOSE_SECOND);
    EntriesShow(s, CloseStep(s, CLOSE_SECOND).state, 1, HardClosed);
  }

  lemma BehindIsAdjusted(t: State)
    requires IsBehind(t)
    ensures AdjustStep(t, ADJUST_FIRST).reply.Accepted?
    ensures AdjustStep(t, ADJUST_FIRST).state ==
            Inserted(t, Journal(Ref.Posted("a"), "b", 0, 5, WashLines(CASH), TextKey("a"), Payload("h"), true))
  {
    ShopIsWellFormed();
    ShopAccounts();
    WashIsSound(SHOP, CASH);
    assert PeriodAdmits(t, ADJUST_FIRST, 0);
    AdjustedExactlyWhen(t, ADJUST_FIRST);
    OwnCodeIsFound(t, 0);
  }

  lemma BehindGoesStale(t: State)
    requires IsBehind(t)
    ensures AdjustStep(t, ADJUST_FIRST).reply.Accepted? && !StillFresh(AdjustStep(t, ADJUST_FIRST).state, "b", 1)
  {
    BehindIsAdjusted(t);
    ShopAccounts();
    WashIsSound(SHOP, CASH);
    JournalBehindGoesStale(t, "b", 1,
      Journal(Ref.Posted("a"), "b", 0, 5, WashLines(CASH), TextKey("a"), Payload("h"), true));
  }

  /** The run up to the hard close, which is the first command out of order. */
  lemma SecondClosesFirst(commands: seq<Command>) returns (s: State)
    requires |commands| == 6 && commands[0] == RegisterBook("b", SHOP)
    requires commands[1] == Opening(FIRST, "o") && commands[2] == Opening(SECOND, "oo") && commands[3] == SOFTLY_FIRST
    ensures Reaches(commands, 4, s) && Inv(s) && IsSoft(s)
  {
    s := SecondOpens(commands);
    ReachedKeepsInv(commands, 3, s);
    SoftlyCloses(s);
    NextReaches(commands, 3, s);
    s := CloseStep(s, SOFTLY_FIRST).state;
    ReachedKeepsInv(commands, 4, s);
  }

  lemma ClosedThenStale(s: State, t: State)
    requires Inv(s) && IsSoft(s) && t == CloseStep(s, CLOSE_SECOND).state
    ensures StillFresh(t, "b", 1) && AdjustStep(t, ADJUST_FIRST).reply.Accepted?
    ensures !StillFresh(AdjustStep(t, ADJUST_FIRST).state, "b", 1)
  {
    FirstStaysSoft(s);
    BehindGoesStale(t);
  }

  lemma LastTwoRun(commands: seq<Command>, s: State, t: State)
    requires |commands| == 6 && commands[4] == CLOSE_SECOND && commands[5] == ADJUST_FIRST
    requires Run(EmptyState(true), commands[..4]) == s && t == CloseStep(s, CLOSE_SECOND).state
    ensures Run(EmptyState(true), commands[..5]) == t
    ensures Run(EmptyState(true), commands) == AdjustStep(t, ADJUST_FIRST).state
  {
    NextRuns(commands, 4, s, t);
    NextRuns(commands, 5, t, AdjustStep(t, ADJUST_FIRST).state);
    assert commands[..6] == commands;
  }

  /** A snapshot can go stale: the second period is hard-closed while the first is only
      soft-closed, and an adjustment into the first is accepted. */
  lemma OutOfOrderCloseGoesStale()
    ensures OrderlyRun(EmptyState(true), OUT_OF_ORDER[..4])
    ensures StillFresh(Run(EmptyState(true), OUT_OF_ORDER[..5]), "b", 1)
    ensures AdjustStep(Run(EmptyState(true), OUT_OF_ORDER[..5]), ADJUST_FIRST).reply.Accepted?
    ensures !StillFresh(Run(EmptyState(true), OUT_OF_ORDER), "b", 1)
  {
    var s := SecondClosesFirst(OUT_OF_ORDER);
    var t := CloseStep(s, CLOSE_SECOND).state;
    LastTwoRun(OUT_OF_ORDER, s, t);
    ClosedThenStale(s, t);
  }
}
